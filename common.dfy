/** Values and helpers shared by every module: Python's None-or-value, its
    exceptions as error values, and order-preserving subsequences. */
module Common {

  datatype Option<+T> = None | Some(value: T)

  /** The exceptions the modelled code raises. */
  datatype Error =
    | ValueError(message: string)
    | NotImplementedError(message: string)
    | AttributeError(name: string)
    | IndexError

  /** A call that either returns normally or raises. */
  datatype Outcome = Pass | Fail(error: Error)

  datatype Result<+T> = Ok(value: T) | Err(error: Error)

  /** The Python objects that reach the modelled code as defaults, widget
      states and callback arguments. Everything that is not a bool, an int,
      a str or None is an opaque `OtherValue`. */
  datatype Value =
    | BoolValue(b: bool)
    | IntValue(i: int)
    | StrValue(s: string)
    | NoneValue
    | OtherValue(repr: string)

  predicate Distinct<T(==)>(s: seq<T>) {
    forall i, j :: 0 <= i < j < |s| ==> s[i] != s[j]
  }

  /** `sub` is `s` with some elements left out and the rest in their order. */
  predicate IsSubsequence<T(==)>(sub: seq<T>, s: seq<T>)
    decreases |s|
  {
    if sub == [] then true
    else if s == [] then false
    else (sub[|sub| - 1] == s[|s| - 1] && IsSubsequence(sub[..|sub| - 1], s[..|s| - 1]))
         || IsSubsequence(sub, s[..|s| - 1])
  }

  /** The elements of `s` that satisfy `f`, in their order in `s`. */
  function Filter<T>(s: seq<T>, f: T -> bool): seq<T>
    decreases |s|
  {
    if s == [] then []
    else Filter(s[..|s| - 1], f) + (if f(s[|s| - 1]) then [s[|s| - 1]] else [])
  }

  /** Filtering keeps exactly the elements that satisfy the test, as a
      subsequence of the input. */
  lemma {:induction false} FilterSpec<T>(s: seq<T>, f: T -> bool)
    ensures forall x :: x in Filter(s, f) <==> x in s && f(x)
    ensures IsSubsequence(Filter(s, f), s)
    decreases |s|
  {
    if s != [] {
      var init, last := s[..|s| - 1], s[|s| - 1];
      FilterSpec(init, f);
      assert s == init + [last];
      var r := Filter(s, f);
      if f(last) {
        assert r[..|r| - 1] == Filter(init, f);
      } else {
        assert r == Filter(init, f);
        SubsequenceOfPrefix(r, init, last);
      }
    }
  }

  /** A subsequence of all but the last element is a subsequence of the whole. */
  lemma SubsequenceOfPrefix<T>(sub: seq<T>, init: seq<T>, x: T)
    requires IsSubsequence(sub, init)
    ensures IsSubsequence(sub, init + [x])
  {
    if sub != [] {
      assert (init + [x])[..|init|] == init;
    }
  }

  /** Python's `xs[i]` on a list of length n: the position it reaches,
      counting from the end for a negative i, or None for an IndexError. */
  function PyIndex(i: int, n: nat): (r: Option<nat>)
    ensures r.Some? <==> -(n as int) <= i < n
    ensures r.Some? ==> r.value < n && (r.value == i || r.value == i + n)
  {
    if 0 <= i < n then Some(i)
    else if -(n as int) <= i < 0 then Some(i + n)
    else None
  }
}
