/** TickSelect: one tickbox per selection, some ticked at the start, and an
    Ok button that passes the ticked selections to a callback. The same
    class appears in tk_steroids/dialogs.py and tk_steroids/elements.py;
    this one model stands for both. */
module Dialogs {
  import opened Common

  /** `selection in ticked` for a `ticked` that may be None. */
  predicate InTicked(ticked: Option<seq<string>>, selection: string) {
    ticked.Some? && selection in ticked.value
  }

  function TickedTest(ticked: Option<seq<string>>): string -> bool {
    s => InTicked(ticked, s)
  }

  /** The values of the tickbox variables right after construction: 1 for a
      selection listed in `ticked`, 0 otherwise. */
  function Ticks(selections: seq<string>, ticked: Option<seq<string>>): seq<int>
    decreases |selections|
  {
    if selections == [] then []
    else Ticks(selections[..|selections| - 1], ticked)
         + [if InTicked(ticked, selections[|selections| - 1]) then 1 else 0]
  }

  /** One variable per selection, 1 exactly for the ticked ones. */
  lemma {:induction false} TicksSpec(selections: seq<string>, ticked: Option<seq<string>>)
    ensures |Ticks(selections, ticked)| == |selections|
    ensures forall i :: 0 <= i < |selections| ==>
      Ticks(selections, ticked)[i] == if InTicked(ticked, selections[i]) then 1 else 0
    decreases |selections|
  {
    if selections != [] {
      var init := selections[..|selections| - 1];
      TicksSpec(init, ticked);
      forall i | 0 <= i < |init| ensures selections[i] == init[i] {
      }
    }
  }

  /** The selections whose variable is 1, over the pairs `zip` yields. */
  function Chosen(variables: seq<int>, selections: seq<string>, n: nat): seq<string>
    requires n <= |variables| && n <= |selections|
    decreases n
  {
    if n == 0 then []
    else Chosen(variables, selections, n - 1) + (if variables[n - 1] == 1 then [selections[n - 1]] else [])
  }

  function ZipLength(a: nat, b: nat): nat {
    if a <= b then a else b
  }

  /** A selection is made iff its variable is 1; the made selections keep
      the order of the selections. */
  lemma {:induction false} ChosenSpec(variables: seq<int>, selections: seq<string>, n: nat)
    requires n <= |variables| && n <= |selections|
    ensures forall x :: x in Chosen(variables, selections, n) <==>
      exists i :: 0 <= i < n && variables[i] == 1 && selections[i] == x
    ensures IsSubsequence(Chosen(variables, selections, n), selections[..n])
    decreases n
  {
    if n > 0 {
      ChosenSpec(variables, selections, n - 1);
      var c := Chosen(variables, selections, n);
      var c0 := Chosen(variables, selections, n - 1);
      assert selections[..n][..n - 1] == selections[..n - 1];
      if variables[n - 1] == 1 {
        assert c[..|c| - 1] == c0;
      } else {
        assert c == c0;
        SubsequenceOfPrefix(c0, selections[..n - 1], selections[n - 1]);
        assert selections[..n - 1] + [selections[n - 1]] == selections[..n];
      }
    }
  }

  /** The positions below n whose variable is 1, in increasing order. */
  function TickedPositions(variables: seq<int>, n: nat): seq<int>
    requires n <= |variables|
    decreases n
  {
    if n == 0 then []
    else TickedPositions(variables, n - 1) + (if variables[n - 1] == 1 then [n - 1] else [])
  }

  predicate Increasing(p: seq<int>) {
    forall k, l :: 0 <= k < l < |p| ==> p[k] < p[l]
  }

  /** The ticked positions increase strictly and are exactly the positions
      below n whose variable is 1, so they are fixed by the variables alone. */
  lemma {:induction false} TickedPositionsSpec(variables: seq<int>, n: nat)
    requires n <= |variables|
    ensures forall i :: i in TickedPositions(variables, n) <==> 0 <= i < n && variables[i] == 1
    ensures Increasing(TickedPositions(variables, n))
    decreases n
  {
    if n > 0 {
      TickedPositionsSpec(variables, n - 1);
      var p0, p := TickedPositions(variables, n - 1), TickedPositions(variables, n);
      assert p == p0 + (if variables[n - 1] == 1 then [n - 1] else []);
      forall k, l | 0 <= k < l < |p| ensures p[k] < p[l] {
        assert p[k] == p0[k] && p0[k] in p0;
        if l < |p0| {
          assert p[l] == p0[l];
        } else {
          assert p == p0 + [n - 1] && p[l] == n - 1;
          assert p0[k] < n - 1;
        }
      }
    }
  }

  /** The made selections are the selections at the ticked positions, one
      per position and in the order of the positions. */
  lemma {:induction false} ChosenAtPositions(variables: seq<int>, selections: seq<string>, n: nat)
    requires n <= |variables| && n <= |selections|
    ensures var p := TickedPositions(variables, n);
      && |Chosen(variables, selections, n)| == |p|
      && (forall k :: 0 <= k < |p| ==> 0 <= p[k] < n)
      && (forall k :: 0 <= k < |p| ==> Chosen(variables, selections, n)[k] == selections[p[k]])
    decreases n
  {
    if n > 0 {
      ChosenAtPositions(variables, selections, n - 1);
    }
  }

  /** Pressing Ok before touching any tickbox passes exactly the ticked
      selections, in the order of the selections. */
  lemma UntouchedOk(selections: seq<string>, ticked: Option<seq<string>>)
    ensures |Ticks(selections, ticked)| == |selections|
    ensures Chosen(Ticks(selections, ticked), selections, |selections|) ==
      Filter(selections, TickedTest(ticked))
  {
    TicksSpec(selections, ticked);
    ChosenOfTicks(selections, ticked, |selections|);
    assert selections[..|selections|] == selections;
  }

  lemma {:induction false} ChosenOfTicks(selections: seq<string>, ticked: Option<seq<string>>, n: nat)
    requires n <= |selections|
    ensures |Ticks(selections, ticked)| == |selections|
    ensures Chosen(Ticks(selections, ticked), selections, n) == Filter(selections[..n], TickedTest(ticked))
    decreases n
  {
    TicksSpec(selections, ticked);
    if n > 0 {
      ChosenOfTicks(selections, ticked, n - 1);
      assert selections[..n][..n - 1] == selections[..n - 1];
    }
  }

  /** One invocation of `callback_on_ok`. */
  datatype Call = Call(madeSelections: seq<string>, args: seq<Value>, kwargs: seq<(string, Value)>)

  class TickSelect {
    const selections: seq<string>
    const closeOnOk: bool
    const callbackArgs: seq<Value>
    const callbackKwargs: seq<(string, Value)>
    /** The values of the tickbox variables; the user changes them. */
    var variables: seq<int>
    /** Whether the toplevel window was destroyed. */
    var destroyed: bool
    /** The calls made to `callback_on_ok`. */
    var calls: seq<Call>

    /** One tickbox variable per selection. */
    ghost predicate Valid()
      reads this
    {
      |variables| == |selections|
    }

    constructor (selections: seq<string>, closeOnOk: bool, ticked: Option<seq<string>>,
                 callbackArgs: seq<Value>, callbackKwargs: seq<(string, Value)>)
      ensures this.selections == selections && this.closeOnOk == closeOnOk
      ensures this.callbackArgs == callbackArgs && this.callbackKwargs == callbackKwargs
      ensures variables == Ticks(selections, ticked)
      ensures Valid()
      ensures !destroyed && calls == []
    {
      this.selections := selections;
      this.closeOnOk := closeOnOk;
      this.callbackArgs := callbackArgs;
      this.callbackKwargs := callbackKwargs;
      destroyed := false;
      calls := [];
      new;
      variables := InitialTicks(selections, ticked);
      TicksSpec(selections, ticked);
    }

    /** The loop of on_ok: the selections whose variable is 1. */
    method MadeSelections() returns (made: seq<string>)
      requires Valid()
      ensures made == Chosen(variables, selections, |selections|)
    {
      made := [];
      var n := ZipLength(|variables|, |selections|);
      var i := 0;
      while i < n
        invariant 0 <= i <= n
        invariant made == Chosen(variables, selections, i)
      {
        if variables[i] == 1 {
          made := made + [selections[i]];
        }
        i := i + 1;
      }
    }

    /** on_ok: call the callback once with the made selections, then the
        extra arguments; destroy the toplevel iff `close_on_ok`. */
    method OnOk()
      requires Valid()
      modifies this
      ensures Valid()
      ensures variables == old(variables)
      ensures calls == old(calls) + [Call(Chosen(variables, selections, |selections|), callbackArgs, callbackKwargs)]
      ensures destroyed == (old(destroyed) || closeOnOk)
    {
      var made := MadeSelections();
      calls := calls + [Call(made, callbackArgs, callbackKwargs)];
      if closeOnOk {
        destroyed := true;
      }
    }
  }

  /** The constructor's tickbox loop: a 0 variable per selection, then
      `select()` on each selection listed in `ticked`. */
  method InitialTicks(selections: seq<string>, ticked: Option<seq<string>>) returns (variables: seq<int>)
    ensures variables == Ticks(selections, ticked)
  {
    variables := seq(|selections|, i => 0);
    var i := 0;
    TicksSpec(selections, ticked);
    while i < |selections|
      invariant 0 <= i <= |selections| && |variables| == |selections|
      invariant forall j :: 0 <= j < i ==> variables[j] == Ticks(selections, ticked)[j]
      invariant forall j :: i <= j < |selections| ==> variables[j] == 0
    {
      if ticked.Some? && selections[i] in ticked.value {
        variables := variables[i := 1];
      }
      i := i + 1;
    }
  }
}
