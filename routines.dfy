/** Signature helpers: collecting the boolean keyword options of a function
    (inspect_booleans) and extending a function's signature with the keyword
    arguments of another (extend_keywords). A signature is the sequence of
    its parameters in declaration order, as `inspect.signature` lists them. */
module Routines {
  import opened Common

  /** `inspect.Parameter.kind`. */
  datatype Kind =
    | PositionalOnly
    | PositionalOrKeyword
    | VarPositional
    | KeywordOnly
    | VarKeyword

  /** A parameter's default: `inspect.Parameter.empty` or a value. */
  datatype Default = Empty | Given(value: Value)

  datatype Param = Param(name: string, kind: Kind, default: Default)

  function Names(params: seq<Param>): (r: seq<string>)
    ensures |r| == |params|
    ensures forall i :: 0 <= i < |params| ==> r[i] == params[i].name
  {
    seq(|params|, i requires 0 <= i < |params| => params[i].name)
  }

  /** No two parameters share a name, as `inspect.Signature` guarantees. */
  predicate UniqueNames(params: seq<Param>) {
    forall i, j :: 0 <= i < j < |params| ==> params[i].name != params[j].name
  }

  /** The order `inspect.Signature` demands of parameter kinds. */
  function Rank(k: Kind): nat {
    match k
    case PositionalOnly => 0
    case PositionalOrKeyword => 1
    case VarPositional => 2
    case KeywordOnly => 3
    case VarKeyword => 4
  }

  predicate KindsOrdered(params: seq<Param>) {
    forall i, j :: 0 <= i < j < |params| ==> Rank(params[i].kind) <= Rank(params[j].kind)
  }

  /** A parameter list `inspect.Signature` accepts (the part of its
      validation that the modelled code can affect). */
  predicate WellFormed(params: seq<Param>) {
    UniqueNames(params) && KindsOrdered(params)
  }

  /** Filtering keeps distinct names distinct. */
  lemma {:induction false} FilterUniqueNames(params: seq<Param>, f: Param -> bool)
    requires UniqueNames(params)
    ensures UniqueNames(Filter(params, f))
    decreases |params|
  {
    if params != [] {
      var init, last := params[..|params| - 1], params[|params| - 1];
      FilterUniqueNames(init, f);
      FilterSpec(init, f);
      var r := Filter(params, f);
      if f(last) {
        forall i, j | 0 <= i < j < |r| ensures r[i].name != r[j].name {
          if j == |r| - 1 {
            assert r[i] in Filter(init, f);
            var m :| 0 <= m < |init| && init[m] == r[i];
            assert params[m] == r[i];
          } else {
            assert r[i] == Filter(init, f)[i] && r[j] == Filter(init, f)[j];
          }
        }
      } else {
        assert r == Filter(init, f);
      }
    }
  }

  /** Filtering keeps the kinds in order. */
  lemma {:induction false} FilterKindsOrdered(params: seq<Param>, f: Param -> bool)
    requires KindsOrdered(params)
    ensures KindsOrdered(Filter(params, f))
    decreases |params|
  {
    if params != [] {
      var init, last := params[..|params| - 1], params[|params| - 1];
      FilterKindsOrdered(init, f);
      FilterSpec(init, f);
      var fi := Filter(init, f);
      if f(last) {
        forall x | x in fi ensures Rank(x.kind) <= Rank(last.kind) {
          var m :| 0 <= m < |init| && init[m] == x;
          assert params[m] == x;
        }
        ConcatKindsOrdered(fi, [last]);
      } else {
        assert Filter(params, f) == fi;
      }
    }
  }

  // ---------------------------------------------------------------------
  // inspect_booleans
  // ---------------------------------------------------------------------

  /** A parameter inspect_booleans reports: one that can be passed by
      keyword, whose default is a bool and whose name is not excluded. */
  predicate IsBoolOption(p: Param, exclude: seq<string>) {
    && (p.kind == PositionalOrKeyword || p.kind == KeywordOnly)
    && p.default.Given? && p.default.value.BoolValue?
    && p.name !in exclude
  }

  function BoolTest(exclude: seq<string>): Param -> bool {
    p => IsBoolOption(p, exclude)
  }

  /** The parameters inspect_booleans reports, in signature order. */
  function BoolOptions(params: seq<Param>, exclude: seq<string>): seq<Param> {
    Filter(params, BoolTest(exclude))
  }

  /** A parameter is reported iff it is a keyword parameter with a bool
      default and a name not excluded; the reported parameters keep their
      signature order. */
  lemma BoolOptionsSpec(params: seq<Param>, exclude: seq<string>)
    ensures forall p :: p in BoolOptions(params, exclude) <==> p in params && IsBoolOption(p, exclude)
    ensures IsSubsequence(BoolOptions(params, exclude), params)
  {
    FilterSpec(params, BoolTest(exclude));
  }

  /** inspect_booleans: the names and bool defaults of the reported
      parameters, `defaults[i]` being the default of `options[i]`. */
  method InspectBooleans(params: seq<Param>, exclude: seq<string>)
    returns (options: seq<string>, defaults: seq<bool>)
    ensures |options| == |defaults| == |BoolOptions(params, exclude)|
    ensures forall i :: 0 <= i < |options| ==>
      && options[i] == BoolOptions(params, exclude)[i].name
      && BoolOptions(params, exclude)[i].default == Given(BoolValue(defaults[i]))
  {
    options, defaults := [], [];
    var i := 0;
    while i < |params|
      invariant 0 <= i <= |params|
      invariant |options| == |defaults| == |BoolOptions(params[..i], exclude)|
      invariant forall j :: 0 <= j < |options| ==>
        && options[j] == BoolOptions(params[..i], exclude)[j].name
        && BoolOptions(params[..i], exclude)[j].default == Given(BoolValue(defaults[j]))
    {
      assert params[..i + 1][..i] == params[..i];
      var p := params[i];
      if p.kind == PositionalOrKeyword || p.kind == KeywordOnly {
        if p.default.Given? && p.default.value.BoolValue? && p.name !in exclude {
          options := options + [p.name];
          defaults := defaults + [p.default.value.b];
        }
      }
      i := i + 1;
    }
    assert params[..i] == params;
  }

  /** The signature of `test_function` in the settings-manager example. */
  function TestFunction(): seq<Param> {
    [ Param("a", PositionalOrKeyword, Empty),
      Param("test_function_key1", PositionalOrKeyword, Given(BoolValue(false))),
      Param("test_function_key2", PositionalOrKeyword, Given(BoolValue(true))),
      Param("this_is_not_shown", PositionalOrKeyword, Given(IntValue(1))),
      Param("this_not_also", PositionalOrKeyword, Given(StrValue("test"))) ]
  }

  /** Only the two keys with bool defaults are reported: neither the
      parameter without a default nor the int and str defaults. */
  lemma TestFunctionOptions()
    ensures BoolOptions(TestFunction(), []) ==
      [ Param("test_function_key1", PositionalOrKeyword, Given(BoolValue(false))),
        Param("test_function_key2", PositionalOrKeyword, Given(BoolValue(true))) ]
  {
    var t := TestFunction();
    var f := BoolTest([]);
    assert t[..1][..0] == [];
    assert t[..2][..1] == t[..1];
    assert t[..3][..2] == t[..2];
    assert t[..4][..3] == t[..3];
    assert t[..5][..4] == t[..4];
    assert Filter(t[..1], f) == [];
    assert Filter(t[..3], f) == [t[1], t[2]];
    assert t[..5] == t;
  }

  // ---------------------------------------------------------------------
  // extend_keywords
  // ---------------------------------------------------------------------

  /** `d[p.name] = p` on a dictionary of parameters keyed by name, kept in
      insertion order: an existing key keeps its place. */
  function Put(d: seq<Param>, p: Param): seq<Param>
    decreases |d|
  {
    if d == [] then [p]
    else if d[0].name == p.name then [p] + d[1..]
    else [d[0]] + Put(d[1..], p)
  }

  /** `{**d, **e}`: the entries of `e` put into `d` one by one. */
  function Merge(d: seq<Param>, e: seq<Param>): seq<Param>
    decreases |e|
  {
    if e == [] then d else Put(Merge(d, e[..|e| - 1]), e[|e| - 1])
  }

  /** A new key is appended. */
  lemma {:induction false} PutFresh(d: seq<Param>, p: Param)
    requires forall q :: q in d ==> q.name != p.name
    ensures Put(d, p) == d + [p]
    decreases |d|
  {
    if d != [] {
      PutFresh(d[1..], p);
      assert d == [d[0]] + d[1..];
    }
  }

  /** Merging dictionaries with disjoint keys concatenates them. */
  lemma {:induction false} MergeFresh(d: seq<Param>, e: seq<Param>)
    requires UniqueNames(e)
    requires forall p, q :: p in d && q in e ==> p.name != q.name
    ensures Merge(d, e) == d + e
    decreases |e|
  {
    if e != [] {
      var init, last := e[..|e| - 1], e[|e| - 1];
      MergeFresh(d, init);
      forall q | q in d + init ensures q.name != last.name {
        if q in init {
          var m :| 0 <= m < |init| && init[m] == q;
          assert e[m] == q;
        }
      }
      PutFresh(d + init, last);
      assert e == init + [last];
    }
  }

  predicate NotVarKeyword(p: Param) {
    p.kind != VarKeyword
  }

  predicate IsVarKeyword(p: Param) {
    p.kind == VarKeyword
  }

  /** The target's parameters other than `**kwargs`, in order. */
  function WithoutVarKeyword(params: seq<Param>): seq<Param> {
    Filter(params, NotVarKeyword)
  }

  /** The target's `**kwargs` parameter, if any. */
  function OnlyVarKeyword(params: seq<Param>): seq<Param> {
    Filter(params, IsVarKeyword)
  }

  /** The parameters borrowed from the keyword source: its
      positional-or-keyword parameters whose names the target does not
      have, turned into keyword-only parameters, in source order. */
  function Borrowed(source: seq<Param>, targetNames: seq<string>): seq<Param>
    decreases |source|
  {
    if source == [] then []
    else
      var q := source[|source| - 1];
      Borrowed(source[..|source| - 1], targetNames)
      + (if q.kind == PositionalOrKeyword && q.name !in targetNames then [q.(kind := KeywordOnly)] else [])
  }

  /** What the decorator makes the target's signature: its own parameters
      except `**kwargs`, then the borrowed ones, then `**kwargs`. */
  function ExtendedSignature(target: seq<Param>, source: seq<Param>): seq<Param> {
    WithoutVarKeyword(target) + Borrowed(source, Names(target)) + OnlyVarKeyword(target)
  }

  /** A parameter is borrowed iff the source has it as a
      positional-or-keyword parameter and the target has no parameter of
      that name; borrowed parameters are keyword-only, keep their name and
      default, and their names stay distinct. */
  lemma {:induction false} BorrowedSpec(source: seq<Param>, targetNames: seq<string>)
    requires UniqueNames(source)
    ensures var b := Borrowed(source, targetNames);
      && (forall p :: p in b ==>
            p.kind == KeywordOnly && p.name !in targetNames && p.(kind := PositionalOrKeyword) in source)
      && (forall q :: q in source && q.kind == PositionalOrKeyword && q.name !in targetNames ==>
            q.(kind := KeywordOnly) in b)
      && UniqueNames(b)
    decreases |source|
  {
    if source != [] {
      var init, last := source[..|source| - 1], source[|source| - 1];
      assert source == init + [last];
      BorrowedSpec(init, targetNames);
      var bi := Borrowed(init, targetNames);
      var b := Borrowed(source, targetNames);
      if last.kind == PositionalOrKeyword && last.name !in targetNames {
        forall p | p in bi ensures p.name != last.name {
          var m :| 0 <= m < |init| && init[m] == p.(kind := PositionalOrKeyword);
          assert source[m] == init[m];
        }
        forall i, j | 0 <= i < j < |b| ensures b[i].name != b[j].name {
          if j == |b| - 1 {
            assert b[i] in bi;
          } else {
            assert b[i] == bi[i] && b[j] == bi[j];
          }
        }
      } else {
        assert b == bi;
      }
    }
  }

  /** The target's own parameters come first and in their order, `**kwargs`
      last, and the borrowed parameters in between. */
  lemma ExtendedKeepsTarget(target: seq<Param>, source: seq<Param>)
    ensures var r := ExtendedSignature(target, source);
            var n := |WithoutVarKeyword(target)|;
            var m := |r| - |OnlyVarKeyword(target)|;
      && n <= m
      && r[..n] == WithoutVarKeyword(target)
      && r[n..m] == Borrowed(source, Names(target))
      && r[m..] == OnlyVarKeyword(target)
      && IsSubsequence(WithoutVarKeyword(target), target)
      && (forall p :: p in WithoutVarKeyword(target) <==> p in target && p.kind != VarKeyword)
      && (forall p :: p in OnlyVarKeyword(target) <==> p in target && p.kind == VarKeyword)
  {
    FilterSpec(target, NotVarKeyword);
    FilterSpec(target, IsVarKeyword);
  }

  lemma ConcatUniqueNames(a: seq<Param>, b: seq<Param>)
    requires UniqueNames(a) && UniqueNames(b)
    requires forall x, y :: x in a && y in b ==> x.name != y.name
    ensures UniqueNames(a + b)
  {
    var r := a + b;
    forall i, j | 0 <= i < j < |r| ensures r[i].name != r[j].name {
      if j < |a| {
        assert r[i] == a[i] && r[j] == a[j];
      } else if i < |a| {
        assert r[i] == a[i] && r[j] == b[j - |a|];
        assert r[i] in a && r[j] in b;
      } else {
        assert r[i] == b[i - |a|] && r[j] == b[j - |a|];
      }
    }
  }

  lemma ConcatKindsOrdered(a: seq<Param>, b: seq<Param>)
    requires KindsOrdered(a) && KindsOrdered(b)
    requires forall x, y :: x in a && y in b ==> Rank(x.kind) <= Rank(y.kind)
    ensures KindsOrdered(a + b)
  {
    var r := a + b;
    forall i, j | 0 <= i < j < |r| ensures Rank(r[i].kind) <= Rank(r[j].kind) {
      if j < |a| {
        assert r[i] == a[i] && r[j] == a[j];
      } else if i < |a| {
        assert r[i] == a[i] && r[j] == b[j - |a|];
        assert r[i] in a && r[j] in b;
      } else {
        assert r[i] == b[i - |a|] && r[j] == b[j - |a|];
      }
    }
  }

  /** The target's parameters kept by the decorator have target names. */
  lemma KeptNames(target: seq<Param>, f: Param -> bool)
    ensures forall p :: p in Filter(target, f) ==> p.name in Names(target)
  {
    FilterSpec(target, f);
    forall p | p in Filter(target, f) ensures p.name in Names(target) {
      var m :| 0 <= m < |target| && target[m] == p;
      assert Names(target)[m] == p.name;
    }
  }

  /** The decorated signature has distinct names when both inputs do. */
  lemma ExtendedUniqueNames(target: seq<Param>, source: seq<Param>)
    requires UniqueNames(target) && UniqueNames(source)
    ensures UniqueNames(ExtendedSignature(target, source))
  {
    var w, b, k := WithoutVarKeyword(target), Borrowed(source, Names(target)), OnlyVarKeyword(target);
    FilterSpec(target, NotVarKeyword);
    FilterSpec(target, IsVarKeyword);
    FilterUniqueNames(target, NotVarKeyword);
    FilterUniqueNames(target, IsVarKeyword);
    BorrowedSpec(source, Names(target));
    KeptNames(target, NotVarKeyword);
    ConcatUniqueNames(w, b);
    KwargsApart(target, source);
    ConcatUniqueNames(w + b, k);
  }

  /** No parameter before `**kwargs` shares its name. */
  lemma KwargsApart(target: seq<Param>, source: seq<Param>)
    requires UniqueNames(target) && UniqueNames(source)
    ensures forall x, y ::
      x in WithoutVarKeyword(target) + Borrowed(source, Names(target)) && y in OnlyVarKeyword(target) ==>
      x.name != y.name
  {
    var w, b, k := WithoutVarKeyword(target), Borrowed(source, Names(target)), OnlyVarKeyword(target);
    FilterSpec(target, NotVarKeyword);
    FilterSpec(target, IsVarKeyword);
    BorrowedSpec(source, Names(target));
    KeptNames(target, IsVarKeyword);
    forall x: Param, y: Param | x in w + b && y in k ensures x.name != y.name {
      if x in w {
        var m :| 0 <= m < |target| && target[m] == x;
        var m' :| 0 <= m' < |target| && target[m'] == y;
        assert m != m';
      }
    }
  }

  /** The decorated signature keeps the kinds in order when the target does:
      the borrowed keyword-only parameters sit between the target's other
      parameters and its `**kwargs`. */
  lemma ExtendedKindsOrdered(target: seq<Param>, source: seq<Param>)
    requires KindsOrdered(target)
    ensures KindsOrdered(ExtendedSignature(target, source))
  {
    var w, b, k := WithoutVarKeyword(target), Borrowed(source, Names(target)), OnlyVarKeyword(target);
    SplitKinds(target);
    FilterKindsOrdered(target, NotVarKeyword);
    FilterKindsOrdered(target, IsVarKeyword);
    BorrowedKinds(source, Names(target));
    ConcatKindsOrdered(w, b);
    ConcatKindsOrdered(w + b, k);
  }

  /** The split of the target by kind. */
  lemma SplitKinds(target: seq<Param>)
    ensures forall x :: x in WithoutVarKeyword(target) ==> Rank(x.kind) <= 3
    ensures forall y :: y in OnlyVarKeyword(target) ==> Rank(y.kind) == 4
  {
    FilterSpec(target, NotVarKeyword);
    FilterSpec(target, IsVarKeyword);
  }

  lemma {:induction false} BorrowedKinds(source: seq<Param>, targetNames: seq<string>)
    ensures forall p :: p in Borrowed(source, targetNames) ==> p.kind == KeywordOnly
    ensures KindsOrdered(Borrowed(source, targetNames))
    decreases |source|
  {
    if source != [] {
      BorrowedKinds(source[..|source| - 1], targetNames);
    }
  }

  /** From signatures `inspect` accepts, the decorator builds one it accepts
      too. */
  lemma ExtendedWellFormed(target: seq<Param>, source: seq<Param>)
    requires WellFormed(target) && WellFormed(source)
    ensures WellFormed(ExtendedSignature(target, source))
  {
    ExtendedUniqueNames(target, source);
    ExtendedKindsOrdered(target, source);
  }

  /** The body of `extended`: fill `params_to_add` and `kwparams_to_add`
      from the target, add the borrowed parameters, and merge the two
      dictionaries. */
  method ExtendedParameters(target: seq<Param>, source: seq<Param>) returns (params: seq<Param>)
    requires UniqueNames(target) && UniqueNames(source)
    ensures params == ExtendedSignature(target, source)
  {
    var targetNames := Names(target);
    var paramsToAdd, kwparamsToAdd := SplitByKind(target);
    KeptNames(target, NotVarKeyword);
    paramsToAdd := AddBorrowed(paramsToAdd, source, targetNames);
    FilterUniqueNames(target, IsVarKeyword);
    KwargsApart(target, source);
    MergeFresh(paramsToAdd, kwparamsToAdd);
    params := Merge(paramsToAdd, kwparamsToAdd);
  }

  /** The loop over the target's parameters: `**kwargs` goes to the second
      dictionary, every other parameter to the first, in order. */
  method SplitByKind(target: seq<Param>) returns (paramsToAdd: seq<Param>, kwparamsToAdd: seq<Param>)
    requires UniqueNames(target)
    ensures paramsToAdd == WithoutVarKeyword(target)
    ensures kwparamsToAdd == OnlyVarKeyword(target)
  {
    paramsToAdd, kwparamsToAdd := [], [];
    var i := 0;
    while i < |target|
      invariant 0 <= i <= |target|
      invariant paramsToAdd == WithoutVarKeyword(target[..i])
      invariant kwparamsToAdd == OnlyVarKeyword(target[..i])
    {
      assert target[..i + 1][..i] == target[..i];
      var p := target[i];
      forall q | q in paramsToAdd || q in kwparamsToAdd ensures q.name != p.name {
        FilterSpec(target[..i], NotVarKeyword);
        FilterSpec(target[..i], IsVarKeyword);
        var m :| 0 <= m < i && target[m] == q;
      }
      if p.kind != VarKeyword {
        PutFresh(paramsToAdd, p);
        paramsToAdd := Put(paramsToAdd, p);
      } else {
        PutFresh(kwparamsToAdd, p);
        kwparamsToAdd := Put(kwparamsToAdd, p);
      }
      i := i + 1;
    }
    assert target[..i] == target;
  }

  /** The loop over the keyword source: each positional-or-keyword
      parameter the target lacks goes into `params_to_add` as keyword-only,
      after the target's own parameters. */
  method AddBorrowed(own: seq<Param>, source: seq<Param>, targetNames: seq<string>) returns (params: seq<Param>)
    requires UniqueNames(source)
    requires forall p :: p in own ==> p.name in targetNames
    ensures params == own + Borrowed(source, targetNames)
  {
    params := own;
    var j := 0;
    while j < |source|
      invariant 0 <= j <= |source|
      invariant params == own + Borrowed(source[..j], targetNames)
    {
      assert source[..j + 1][..j] == source[..j];
      var q := source[j];
      if q.kind == PositionalOrKeyword && q.name !in targetNames {
        var converted := q.(kind := KeywordOnly);
        BorrowedFreshName(source, j, targetNames);
        PutFresh(params, converted);
        params := Put(params, converted);
      }
      j := j + 1;
    }
    assert source[..j] == source;
  }

  /** A source parameter's name is not among those borrowed before it. */
  lemma BorrowedFreshName(source: seq<Param>, j: nat, targetNames: seq<string>)
    requires UniqueNames(source) && j < |source|
    ensures forall p :: p in Borrowed(source[..j], targetNames) ==> p.name != source[j].name
  {
    BorrowedSpec(source[..j], targetNames);
    forall p | p in Borrowed(source[..j], targetNames) ensures p.name != source[j].name {
      var m :| 0 <= m < j && source[..j][m] == p.(kind := PositionalOrKeyword);
      assert source[m] == source[..j][m];
    }
  }

  /** A function object; only its `__signature__` is modelled. */
  class FunctionObject {
    var signature: seq<Param>

    constructor (signature: seq<Param>)
      ensures this.signature == signature
    {
      this.signature := signature;
    }
  }

  /** `extend_keywords(keyword_source)(target_function)`: the same function
      object comes back, with only its signature replaced. */
  method ExtendKeywords(keywordSource: seq<Param>, target: FunctionObject) returns (decorated: FunctionObject)
    requires UniqueNames(target.signature) && UniqueNames(keywordSource)
    modifies target
    ensures decorated == target
    ensures target.signature == ExtendedSignature(old(target.signature), keywordSource)
  {
    var params := ExtendedParameters(target.signature, keywordSource);
    target.signature := params;
    decorated := target;
  }
}
