/** SettingsManager: setting widgets registered under group names, and the
    aggregation of their current values. The widgets themselves (tickbox and
    slider frames) are opaque objects whose `states` map option names to
    values. */
module Settings {
  import opened Common
  import Routines

  datatype ElementKind = Tickboxes | Sliders

  /** A TickboxFrame or SliderFrame: what it was created with, and its
      current `states`, which the user changes through the widget. */
  class Element {
    const kind: ElementKind
    const options: seq<string>
    /** The `defaults` keyword argument, when one was passed. */
    const defaults: Option<seq<Value>>
    var states: map<string, Value>

    constructor (kind: ElementKind, options: seq<string>, defaults: Option<seq<Value>>, states: map<string, Value>)
      ensures this.kind == kind && this.options == options && this.defaults == defaults
      ensures this.states == states
    {
      this.kind := kind;
      this.options := options;
      this.defaults := defaults;
      this.states := states;
    }
  }

  /** Dictionaries merged one after the other with `dict.update`. */
  function Union(ms: seq<map<string, Value>>): map<string, Value>
    decreases |ms|
  {
    if ms == [] then map[] else Union(ms[..|ms| - 1]) + ms[|ms| - 1]
  }

  /** The merged dictionary has exactly the keys of the merged ones, and
      each key takes its value from the last dictionary that has it. */
  lemma {:induction false} UnionSpec(ms: seq<map<string, Value>>)
    ensures forall k :: k in Union(ms) <==> exists i :: 0 <= i < |ms| && k in ms[i]
    ensures forall i, k :: 0 <= i < |ms| && k in ms[i] && (forall j :: i < j < |ms| ==> k !in ms[j]) ==>
      k in Union(ms) && Union(ms)[k] == ms[i][k]
    decreases |ms|
  {
    if ms != [] {
      var init := ms[..|ms| - 1];
      UnionSpec(init);
      forall k | k in Union(ms) ensures exists i :: 0 <= i < |ms| && k in ms[i] {
        if k !in ms[|ms| - 1] {
          assert k in Union(init);
          var i :| 0 <= i < |init| && k in init[i];
          assert ms[i] == init[i];
        }
      }
      forall k, i | 0 <= i < |ms| && k in ms[i] ensures k in Union(ms) {
        if i < |ms| - 1 {
          assert init[i] == ms[i];
        }
      }
      forall i, k | 0 <= i < |ms| && k in ms[i] && (forall j :: i < j < |ms| ==> k !in ms[j])
        ensures Union(ms)[k] == ms[i][k]
      {
        if i < |ms| - 1 {
          assert init[i] == ms[i];
          assert forall j :: i < j < |init| ==> init[j] == ms[j];
        }
      }
    }
  }

  function StatesOf(es: seq<Element>): (r: seq<map<string, Value>>)
    reads es
    ensures |r| == |es|
    ensures forall i :: 0 <= i < |es| ==> r[i] == es[i].states
  {
    seq(|es|, i reads es requires 0 <= i < |es| => es[i].states)
  }

  /** A group's entry in get_current: its elements' states, later ones
      overriding earlier ones. */
  function GroupSettings(es: seq<Element>): map<string, Value>
    reads es
  {
    Union(StatesOf(es))
  }

  /** A group's settings hold every option of its elements, each with the
      value of the last element that has it. */
  lemma GroupSettingsSpec(es: seq<Element>)
    ensures forall k :: k in GroupSettings(es) <==> exists i :: 0 <= i < |es| && k in es[i].states
    ensures forall i, k :: 0 <= i < |es| && k in es[i].states && (forall j :: i < j < |es| ==> k !in es[j].states) ==>
      k in GroupSettings(es) && GroupSettings(es)[k] == es[i].states[k]
  {
    var ms := StatesOf(es);
    UnionSpec(ms);
    forall k | k in GroupSettings(es) ensures exists i :: 0 <= i < |es| && k in es[i].states {
      var i :| 0 <= i < |ms| && k in ms[i];
    }
    forall i, k | 0 <= i < |es| && k in es[i].states && (forall j :: i < j < |es| ==> k !in es[j].states)
      ensures k in GroupSettings(es) && GroupSettings(es)[k] == es[i].states[k]
    {
      assert k in ms[i];
      assert forall j :: i < j < |ms| ==> ms[j] == es[j].states;
    }
  }

  /** Registering one more element in a group adds its states over the
      group's settings so far. */
  lemma GroupSettingsAppend(es: seq<Element>, e: Element)
    ensures GroupSettings(es + [e]) == GroupSettings(es) + e.states
  {
    assert StatesOf(es + [e])[..|es|] == StatesOf(es);
  }

  class SettingsManager {
    /** The group names in the order they were first used. */
    var groups: seq<string>
    /** `self.elements`: each group's elements in the order they were added. */
    var elements: map<string, seq<Element>>

    ghost predicate Valid()
      reads this
    {
      Distinct(groups) && (forall g :: g in elements <==> g in groups)
    }

    /** The elements of every group. */
    function AllElements(): (r: set<Element>)
      reads this
      ensures forall g, e :: g in elements && e in elements[g] ==> e in r
    {
      set g, e | g in elements && e in elements[g] :: e
    }

    /** The result get_current promises: one entry per registered group,
        holding that group's merged states. */
    function Current(): map<string, map<string, Value>>
      reads this, AllElements()
    {
      map g | g in elements :: GroupSettings(elements[g])
    }

    constructor ()
      ensures Valid()
      ensures groups == [] && elements == map[]
    {
      groups := [];
      elements := map[];
    }

    /** _add_setting: create the group's list on first use, then append. */
    method AddSetting(group: string, element: Element)
      requires Valid()
      modifies this
      ensures Valid()
      ensures elements == old(elements)[group := Registered(old(elements), group) + [element]]
      ensures groups == old(groups) + (if group in old(elements) then [] else [group])
    {
      if group !in elements {
        elements := elements[group := []];
        groups := groups + [group];
      }
      elements := elements[group := elements[group] + [element]];
    }

    method AddTickboxes(group: string, options: seq<string>, defaults: Option<seq<Value>>, states: map<string, Value>)
      returns (tickboxes: Element)
      requires Valid()
      modifies this
      ensures Valid()
      ensures fresh(tickboxes)
      ensures tickboxes.kind == Tickboxes && tickboxes.options == options && tickboxes.defaults == defaults
      ensures tickboxes.states == states
      ensures elements == old(elements)[group := Registered(old(elements), group) + [tickboxes]]
      ensures groups == old(groups) + (if group in old(elements) then [] else [group])
    {
      tickboxes := new Element(Tickboxes, options, defaults, states);
      AddSetting(group, tickboxes);
    }

    method AddSliders(group: string, options: seq<string>, defaults: Option<seq<Value>>, states: map<string, Value>)
      returns (sliders: Element)
      requires Valid()
      modifies this
      ensures Valid()
      ensures fresh(sliders)
      ensures sliders.kind == Sliders && sliders.options == options && sliders.defaults == defaults
      ensures sliders.states == states
      ensures elements == old(elements)[group := Registered(old(elements), group) + [sliders]]
      ensures groups == old(groups) + (if group in old(elements) then [] else [group])
    {
      sliders := new Element(Sliders, options, defaults, states);
      AddSetting(group, sliders);
    }

    /** add_tickboxes_inspect: the options and defaults inspect_booleans
        finds, passed on unchanged. */
    method AddTickboxesInspect(group: string, params: seq<Routines.Param>, exclude: seq<string>,
                               states: map<string, Value>)
      returns (tickboxes: Element)
      requires Valid()
      modifies this
      ensures Valid()
      ensures fresh(tickboxes) && tickboxes.kind == Tickboxes
      ensures var found := Routines.BoolOptions(params, exclude);
        && tickboxes.options == Routines.Names(found)
        && tickboxes.defaults.Some?
        && |tickboxes.defaults.value| == |found|
        && (forall i :: 0 <= i < |found| ==> Routines.Given(tickboxes.defaults.value[i]) == found[i].default)
      ensures elements == old(elements)[group := Registered(old(elements), group) + [tickboxes]]
      ensures groups == old(groups) + (if group in old(elements) then [] else [group])
    {
      var options, defaults := Routines.InspectBooleans(params, exclude);
      var values := seq(|defaults|, i requires 0 <= i < |defaults| => BoolValue(defaults[i]));
      tickboxes := AddTickboxes(group, options, Some(values), states);
    }

    /** get_current: for each group, the union of its elements' states. */
    method GetCurrent() returns (settings: map<string, map<string, Value>>)
      requires Valid()
      ensures settings == Current()
    {
      settings := map[];
      var n := 0;
      while n < |groups|
        invariant 0 <= n <= |groups|
        invariant forall g :: g in settings <==> g in groups[..n]
        invariant forall g :: g in settings ==> settings[g] == GroupSettings(elements[g])
      {
        var group := groups[n];
        var inner := MergeStates(elements[group]);
        settings := settings[group := inner];
        assert groups[..n + 1] == groups[..n] + [group];
        n := n + 1;
      }
      assert groups[..n] == groups;
    }
  }

  /** The inner loop of get_current: `update` with each element's states
      in turn. */
  method MergeStates(es: seq<Element>) returns (merged: map<string, Value>)
    ensures merged == GroupSettings(es)
  {
    merged := map[];
    var m := 0;
    while m < |es|
      invariant 0 <= m <= |es|
      invariant merged == GroupSettings(es[..m])
    {
      GroupSettingsAppend(es[..m], es[m]);
      assert es[..m + 1] == es[..m] + [es[m]];
      merged := merged + es[m].states;
      m := m + 1;
    }
    assert es[..m] == es;
  }

  /** The elements registered so far under `group`. */
  function Registered(elements: map<string, seq<Element>>, group: string): seq<Element> {
    if group in elements then elements[group] else []
  }

  /** Registering an element changes only its group's settings: it puts the
      element's states over them, and every other group keeps its settings. */
  lemma RegisterSpec(elements: map<string, seq<Element>>, group: string, e: Element, g: string)
    ensures var after := elements[group := Registered(elements, group) + [e]];
      (g in after <==> g in elements || g == group)
    ensures var after := elements[group := Registered(elements, group) + [e]];
      && (g == group ==> GroupSettings(after[g]) == GroupSettings(Registered(elements, group)) + e.states)
      && (g != group && g in elements ==> after[g] == elements[g])
  {
    GroupSettingsAppend(Registered(elements, group), e);
  }
}
