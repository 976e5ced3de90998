/** The older widgets of the top-level elements.py: a Listbox without
    colours and a Tabs whose buttons switch pages without a callback. Their
    `_errorchecked` is the same code as the newer Listbox's and is modelled
    by Elements.ErrorChecked. */
module LegacyElements {
  import opened Common
  import opened Elements

  class Listbox {
    var selections: seq<Value>
    /** The rows of the Tk listbox. */
    var items: seq<Value>
    /** Tk's `curselection()`, set by the user. */
    var curselection: seq<nat>

    constructor (selections: seq<Value>)
      ensures this.selections == selections && items == selections && curselection == []
    {
      this.selections := [];
      items := [];
      curselection := [];
      new;
      SetSelections(selections);
    }

    /** set_selections: empty the listbox, then insert one row per object. */
    method SetSelections(sels: seq<Value>)
      modifies this
      ensures selections == sels && items == sels && curselection == []
    {
      items, curselection := [], [];
      selections := sels;
      var i := 0;
      while i < |selections|
        invariant 0 <= i <= |sels| && selections == sels && curselection == []
        invariant items == sels[..i]
      {
        items := items + [selections[i]];
        assert sels[..i + 1] == sels[..i] + [sels[i]];
        i := i + 1;
      }
      assert sels[..i] == sels;
    }
  }

  class Tabs {
    const buttons: seq<string>
    /** `initialized_elements`: one page per (name, element) pair. */
    const pages: seq<Widget>
    /** The element classes the pages were made from. */
    const classes: seq<string>
    var current: int
    /** The positions of the pages currently gridded. */
    var gridded: set<nat>

    ghost predicate Valid()
      reads this
    {
      && |pages| == |buttons| == TabCount(buttons, classes) >= 1
      && pages == Instantiate(classes, |pages|)
      && (forall p :: p in gridded ==> p < |pages|)
    }

    /** Requires at least one (name, element) pair: with none, gridding the
        first page raises IndexError (NewTabs models that case). */
    constructor (tabNames: seq<string>, elements: seq<string>)
      requires TabCount(tabNames, elements) >= 1
      ensures Valid()
      ensures var n := TabCount(tabNames, elements);
        buttons == tabNames[..n] && pages == Instantiate(elements, n) && classes == elements
      ensures current == 0 && gridded == {0}
    {
      var labels, made := MakeTabs(tabNames, elements);
      buttons := labels;
      pages := made;
      classes := elements;
      current := 0;
      gridded := {0};
    }

    /** get_elements: the pages, made from the element classes in order. */
    function GetElements(): (r: seq<Widget>)
      reads this
      requires Valid()
      ensures |r| == |buttons| <= |classes|
      ensures forall i :: 0 <= i < |r| ==> r[i] == Widget(classes[i], i)
    {
      pages
    }

    /** button_pressed: hide the current page, make `i_button` current and
        show its page. An out-of-range current page raises IndexError before
        anything changes; an out-of-range `i_button` raises it after
        `current` was set. */
    method ButtonPressed(iButton: int) returns (r: Outcome)
      requires Valid()
      modifies this
      ensures Valid()
      ensures r == if PyIndex(old(current), |pages|).Some? && PyIndex(iButton, |pages|).Some? then Pass
                   else Fail(IndexError)
      ensures PyIndex(old(current), |pages|).None? ==> current == old(current) && gridded == old(gridded)
      ensures PyIndex(old(current), |pages|).Some? ==>
        && current == iButton
        && gridded == old(gridded) - {PyIndex(old(current), |pages|).value}
                      + (if r.Pass? then {PyIndex(iButton, |pages|).value} else {})
      ensures r.Pass? && old(gridded) == {PyIndex(old(current), |pages|).value} ==>
        gridded == {PyIndex(iButton, |pages|).value}
    {
      var o := PyIndex(current, |pages|);
      if o.None? {
        return Fail(IndexError);
      }
      gridded := gridded - {o.value};
      current := iButton;
      var p := PyIndex(current, |pages|);
      if p.None? {
        return Fail(IndexError);
      }
      gridded := gridded + {p.value};
      r := Pass;
    }
  }

  /** `Tabs(parent, tab_names, elements)`: IndexError when zip yields no
      pair, a new Tabs otherwise. */
  method NewTabs(tabNames: seq<string>, elements: seq<string>) returns (r: Result<Tabs>)
    ensures r.Err? <==> TabCount(tabNames, elements) == 0
    ensures r.Err? ==> r.error == IndexError
    ensures r.Ok? ==> fresh(r.value) && r.value.Valid()
    ensures r.Ok? ==> var n := TabCount(tabNames, elements);
      && r.value.buttons == tabNames[..n] && r.value.pages == Instantiate(elements, n)
      && r.value.classes == elements
    ensures r.Ok? ==> r.value.current == 0 && r.value.gridded == {0}
  {
    if TabCount(tabNames, elements) == 0 {
      return Err(IndexError);
    }
    var tabs := new Tabs(tabNames, elements);
    r := Ok(tabs);
  }
}
