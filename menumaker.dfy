/** MenuMaker: a class whose public methods become the entries of a menu.
    The reflection the Python class performs (dir, callable, the source lines
    of the class, an overridden _force_order) is given to the model as the
    constant fields of a MenuMaker object. */
module MenuMaker {
  import opened Common

  // ---------------------------------------------------------------------
  // Python's string operations used by the menu maker
  // ---------------------------------------------------------------------

  /** str.upper on one character; only ASCII letters are case-mapped here. */
  function Upper(c: char): char {
    if 'a' <= c <= 'z' then (c as int - 'a' as int + 'A' as int) as char else c
  }

  /** `s.replace(pattern, replacement)`: every non-overlapping occurrence of
      `pattern`, scanning from the left, becomes `replacement`. */
  function Replace(s: string, pattern: string, replacement: string): string
    decreases |s|
  {
    if pattern == [] then
      // Python puts the replacement before every character and at the end.
      if s == [] then replacement else replacement + [s[0]] + Replace(s[1..], pattern, replacement)
    else if s == [] then []
    else if pattern <= s then replacement + Replace(s[|pattern|..], pattern, replacement)
    else [s[0]] + Replace(s[1..], pattern, replacement)
  }

  /** Applies every (original, replacement) pair of `replacements`, in the
      dictionary's order, as _fancy_name's loop does. */
  function ApplyReplacements(s: string, replacements: seq<(string, string)>): string
    decreases |replacements|
  {
    if replacements == [] then s
    else ApplyReplacements(Replace(s, replacements[0].0, replacements[0].1), replacements[1..])
  }

  /** The menu label of a method name. */
  function Fancy(name: string, replacements: seq<(string, string)>): string
    requires name != []
  {
    ApplyReplacements([Upper(name[0])] + name[1..], replacements)
  }

  const DefaultReplacements: seq<(string, string)> := [("_", " ")]

  /** Replacing a one-character string by a one-character string maps the
      string character by character. */
  lemma {:induction false} ReplaceCharPointwise(s: string, c: char, d: char)
    ensures |Replace(s, [c], [d])| == |s|
    ensures forall i :: 0 <= i < |s| ==> Replace(s, [c], [d])[i] == (if s[i] == c then d else s[i])
  {
    if s != [] {
      ReplaceCharPointwise(s[1..], c, d);
      if [c] <= s {
        assert s[|[c]|..] == s[1..];
      }
    }
  }

  /** With the default replacement dictionary the label keeps the length of
      the name, upper-cases its first letter and turns underscores into
      spaces: "use_underscore_names" becomes "Use underscore names". */
  lemma DefaultFancyName(name: string)
    requires name != []
    ensures |Fancy(name, DefaultReplacements)| == |name|
    ensures Fancy(name, DefaultReplacements)[0] == (if name[0] == '_' then ' ' else Upper(name[0]))
    ensures forall i :: 1 <= i < |name| ==>
      Fancy(name, DefaultReplacements)[i] == (if name[i] == '_' then ' ' else name[i])
  {
    var capital := [Upper(name[0])] + name[1..];
    ReplaceCharPointwise(capital, '_', ' ');
    assert DefaultReplacements[1..] == [];
  }

  lemma FancyNameExample()
    ensures Fancy("use_underscore_names", DefaultReplacements) == "Use underscore names"
  {
    DefaultFancyName("use_underscore_names");
  }

  // ---------------------------------------------------------------------
  // Alphabetical order (list.sort on strings)
  // ---------------------------------------------------------------------

  /** Python's `a <= b` on str: code point by code point, a prefix first. */
  predicate LexLe(a: string, b: string)
    decreases |a|
  {
    if a == [] then true
    else if b == [] then false
    else if a[0] != b[0] then a[0] < b[0]
    else LexLe(a[1..], b[1..])
  }

  lemma {:induction false} LexLeTotal(a: string, b: string)
    ensures LexLe(a, b) || LexLe(b, a)
    decreases |a|
  {
    if a != [] && b != [] && a[0] == b[0] {
      LexLeTotal(a[1..], b[1..]);
    }
  }

  lemma {:induction false} LexLeTransitive(a: string, b: string, c: string)
    requires LexLe(a, b) && LexLe(b, c)
    ensures LexLe(a, c)
    decreases |a|
  {
    if a != [] && b != [] && c != [] && a[0] == b[0] && b[0] == c[0] {
      LexLeTransitive(a[1..], b[1..], c[1..]);
    }
  }

  predicate SortedLex(s: seq<string>) {
    forall i, j :: 0 <= i < j < |s| ==> LexLe(s[i], s[j])
  }

  function InsertLex(x: string, s: seq<string>): seq<string>
    decreases |s|
  {
    if s == [] then [x]
    else if LexLe(x, s[0]) then [x] + s
    else [s[0]] + InsertLex(x, s[1..])
  }

  /** The names in alphabetical order (an insertion sort). */
  function SortLex(s: seq<string>): seq<string>
    decreases |s|
  {
    if s == [] then [] else InsertLex(s[|s| - 1], SortLex(s[..|s| - 1]))
  }

  /** Inserting adds exactly one occurrence of the new name. */
  lemma {:induction false} InsertLexMultiset(x: string, s: seq<string>)
    ensures multiset(InsertLex(x, s)) == multiset(s) + multiset{x}
    ensures forall y :: y in InsertLex(x, s) <==> y == x || y in s
    decreases |s|
  {
    if s != [] {
      assert s == [s[0]] + s[1..];
      if !LexLe(x, s[0]) {
        InsertLexMultiset(x, s[1..]);
      }
    }
  }

  /** Inserting into a sorted list keeps it sorted. */
  lemma {:induction false} InsertLexSorted(x: string, s: seq<string>)
    requires SortedLex(s)
    ensures SortedLex(InsertLex(x, s))
    decreases |s|
  {
    if s == [] {
    } else if LexLe(x, s[0]) {
      forall j | 0 < j < |s| ensures LexLe(x, s[j]) {
        LexLeTransitive(x, s[0], s[j]);
      }
    } else {
      LexLeTotal(x, s[0]);
      var rest := InsertLex(x, s[1..]);
      InsertLexSorted(x, s[1..]);
      InsertLexMultiset(x, s[1..]);
      forall k | 0 <= k < |rest| ensures LexLe(s[0], rest[k]) {
        assert rest[k] in rest;
        if rest[k] != x {
          assert rest[k] in s[1..];
          var m :| 0 <= m < |s[1..]| && s[1..][m] == rest[k];
          assert s[m + 1] == rest[k];
        }
      }
    }
  }

  /** Sorting alphabetically yields a sorted permutation of the names. */
  lemma {:induction false} SortLexCorrect(s: seq<string>)
    ensures SortedLex(SortLex(s))
    ensures multiset(SortLex(s)) == multiset(s)
    decreases |s|
  {
    if s != [] {
      SortLexCorrect(s[..|s| - 1]);
      InsertLexSorted(s[|s| - 1], SortLex(s[..|s| - 1]));
      InsertLexMultiset(s[|s| - 1], SortLex(s[..|s| - 1]));
      assert s == s[..|s| - 1] + [s[|s| - 1]];
    }
  }

  // ---------------------------------------------------------------------
  // Definition order (_sort_by_definition_order)
  // ---------------------------------------------------------------------

  /** Python's `sub in s` on str. */
  predicate Contains(s: string, sub: string)
    decreases |s|
  {
    sub <= s || (s != [] && Contains(s[1..], sub))
  }

  function Def(name: string): string {
    "def " + name
  }

  /** The position of the first name of `toLook` whose `def` the line
      contains, or |toLook| when there is none: `matches.index(True)`. */
  function FirstMatch(toLook: seq<string>, line: string): (k: nat)
    ensures k <= |toLook|
    ensures k < |toLook| ==> Contains(line, Def(toLook[k]))
    ensures forall j :: 0 <= j < k ==> !Contains(line, Def(toLook[j]))
    decreases |toLook|
  {
    if toLook == [] then 0
    else if Contains(line, Def(toLook[0])) then 0
    else 1 + FirstMatch(toLook[1..], line)
  }

  /** The state of the scan: the `indices` dictionary and `names_to_look`. */
  datatype Scan = Scan(indices: map<string, int>, toLook: seq<string>)

  /** One iteration of the scan over line number `i`. */
  function ScanLine(st: Scan, line: string, i: int): Scan {
    var k := FirstMatch(st.toLook, line);
    if k < |st.toLook| then
      Scan(st.indices[st.toLook[k] := i], st.toLook[..k] + st.toLook[k + 1..])
    else st
  }

  /** The scan of all of `lines`, starting with every name still to look for. */
  function ScanLines(lines: seq<string>, names: seq<string>): Scan
    decreases |lines|
  {
    if lines == [] then Scan(map[], names)
    else ScanLine(ScanLines(lines[..|lines| - 1], names), lines[|lines| - 1], |lines| - 1)
  }

  /** `indices.get(name, -1)`. */
  function KeyOf<T(==)>(indices: map<T, int>, name: T): int {
    if name in indices then indices[name] else -1
  }

  ghost predicate ScanInvariant(lines: seq<string>, names: seq<string>, n: nat, st: Scan)
    requires n <= |lines|
  {
    && Distinct(st.toLook)
    && (forall x :: x in st.toLook ==> x in names && x !in st.indices)
    && (forall x :: x in names ==> x in st.indices || x in st.toLook)
    && (forall x :: x in st.indices ==>
          x in names && 0 <= st.indices[x] < n && Contains(lines[st.indices[x]], Def(x)))
    && (forall x, y :: x in st.indices && y in st.indices && x != y ==> st.indices[x] != st.indices[y])
  }

  /** A match removes exactly the matched name from the names to look for. */
  lemma RemoveAtSpec(toLook: seq<string>, k: nat)
    requires k < |toLook| && Distinct(toLook)
    ensures var r := toLook[..k] + toLook[k + 1..];
      && Distinct(r)
      && (forall x :: x in r <==> x in toLook && x != toLook[k])
  {
    var r := toLook[..k] + toLook[k + 1..];
    forall x | x in toLook && x != toLook[k] ensures x in r {
      var m :| 0 <= m < |toLook| && toLook[m] == x;
      if m < k { assert r[m] == x; } else { assert r[m - 1] == x; }
    }
    forall x | x in r ensures x in toLook && x != toLook[k] {
      var m :| 0 <= m < |r| && r[m] == x;
      if m < k { assert toLook[m] == x; } else { assert toLook[m + 1] == x; }
    }
    forall i, j | 0 <= i < j < |r| ensures r[i] != r[j] {
      var i', j' := (if i < k then i else i + 1), (if j < k then j else j + 1);
      assert r[i] == toLook[i'] && r[j] == toLook[j'];
    }
  }

  lemma ScanLineKeepsInvariant(lines: seq<string>, names: seq<string>, i: nat, st: Scan)
    requires i < |lines| && ScanInvariant(lines, names, i, st)
    ensures ScanInvariant(lines, names, i + 1, ScanLine(st, lines[i], i))
  {
    var k := FirstMatch(st.toLook, lines[i]);
    if k < |st.toLook| {
      RemoveAtSpec(st.toLook, k);
    }
  }

  lemma {:induction false} ScanInvariantHolds(lines: seq<string>, names: seq<string>, n: nat)
    requires Distinct(names) && n <= |lines|
    ensures ScanInvariant(lines, names, n, ScanLines(lines[..n], names))
  {
    if n == 0 {
      assert lines[..0] == [];
    } else {
      ScanInvariantHolds(lines, names, n - 1);
      assert lines[..n][..n - 1] == lines[..n - 1];
      ScanLineKeepsInvariant(lines, names, n - 1, ScanLines(lines[..n - 1], names));
    }
  }

  /** What the scan of the class source establishes, for distinct names:
      every name found is keyed by a line that contains its `def`, and no
      line keys two names. */
  lemma DefinitionIndicesSound(lines: seq<string>, names: seq<string>)
    requires Distinct(names)
    ensures var idx := ScanLines(lines, names).indices;
      && (forall x :: x in idx ==> x in names && 0 <= idx[x] < |lines| && Contains(lines[idx[x]], Def(x)))
      && (forall x, y :: x in idx && y in idx && x != y ==> idx[x] != idx[y])
  {
    ScanInvariantHolds(lines, names, |lines|);
    assert lines[..|lines|] == lines;
  }

  /** No line holds the `def` of two different names. */
  ghost predicate OneDefinitionPerLine(lines: seq<string>, names: seq<string>) {
    forall j, x, y ::
      (0 <= j < |lines| && x in names && y in names && Contains(lines[j], Def(x)) && Contains(lines[j], Def(y)))
      ==> x == y
  }

  /** Every name whose `def` occurs in the first n lines is keyed, at or
      before that occurrence. */
  ghost predicate FoundInvariant(lines: seq<string>, names: seq<string>, n: nat, st: Scan)
    requires n <= |lines|
  {
    forall x, j :: x in names && 0 <= j < n && Contains(lines[j], Def(x)) ==>
      x in st.indices && st.indices[x] <= j
  }

  lemma ScanLineKeepsFound(lines: seq<string>, names: seq<string>, i: nat, st: Scan)
    requires i < |lines| && OneDefinitionPerLine(lines, names)
    requires ScanInvariant(lines, names, i, st) && FoundInvariant(lines, names, i, st)
    ensures FoundInvariant(lines, names, i + 1, ScanLine(st, lines[i], i))
  {
    var st' := ScanLine(st, lines[i], i);
    var k := FirstMatch(st.toLook, lines[i]);
    forall x | x in names && Contains(lines[i], Def(x)) ensures x in st'.indices && st'.indices[x] <= i {
      if x !in st.indices {
        assert x in st.toLook;
        var m :| 0 <= m < |st.toLook| && st.toLook[m] == x;
        assert k <= m;
        assert st.toLook[k] == x;
      }
    }
  }

  lemma {:induction false} FoundInvariantHolds(lines: seq<string>, names: seq<string>, n: nat)
    requires Distinct(names) && OneDefinitionPerLine(lines, names) && n <= |lines|
    ensures FoundInvariant(lines, names, n, ScanLines(lines[..n], names))
  {
    if n > 0 {
      FoundInvariantHolds(lines, names, n - 1);
      ScanInvariantHolds(lines, names, n - 1);
      assert lines[..n][..n - 1] == lines[..n - 1];
      ScanLineKeepsFound(lines, names, n - 1, ScanLines(lines[..n - 1], names));
    }
  }

  /** For a class whose lines each hold at most one `def` of the names, each
      name is keyed by the first line that holds its `def`, and a name is
      keyed -1 exactly when no line holds its `def`. */
  lemma KeyIsFirstDefinition(lines: seq<string>, names: seq<string>, x: string)
    requires Distinct(names) && OneDefinitionPerLine(lines, names) && x in names
    ensures var key := KeyOf(ScanLines(lines, names).indices, x);
      && (key == -1 <==> forall j :: 0 <= j < |lines| ==> !Contains(lines[j], Def(x)))
      && (key != -1 ==> 0 <= key < |lines| && Contains(lines[key], Def(x)))
      && (forall j :: 0 <= j < key ==> !Contains(lines[j], Def(x)))
  {
    FoundInvariantHolds(lines, names, |lines|);
    DefinitionIndicesSound(lines, names);
    assert lines[..|lines|] == lines;
  }

  /** A string lacking one of the characters of `sub` does not contain it. */
  lemma {:induction false} MissingCharNotContained(s: string, sub: string, c: char)
    requires c in sub && c !in s
    ensures !Contains(s, sub)
    decreases |s|
  {
    if s != [] {
      MissingCharNotContained(s[1..], sub, c);
    }
  }

  /** The scan matches `def <name>` as a substring, so a name that is a
      prefix of another can take the other's line: here "a" is keyed by the
      line defining "ab", "ab" is never found, and the result is not the
      definition order ab, c, a. */
  lemma PrefixNameExample()
    ensures SortByDefinition(["def ab():", "def c():", "def a():"], ["a", "ab", "c"]) == ["ab", "a", "c"]
  {
    assert Def("a") <= "def ab():";
    assert Def("c") <= "def c():";
    MissingCharNotContained("def c():", Def("ab"), 'b');
    MissingCharNotContained("def a():", Def("ab"), 'b');
    ThreeLineScan("a", "ab", "c", "def ab():", "def c():", "def a():");
    PrefixNameSort();
  }

  lemma PrefixNameSort()
    ensures SortByKey(["a", "ab", "c"], map["a" := 0, "c" := 1]) == ["ab", "a", "c"]
  {
    var idx := map["a" := 0, "c" := 1];
    assert ["a", "ab", "c"][..2] == ["a", "ab"];
    assert ["a", "ab"][..1] == ["a"];
    assert KeyOf(idx, "ab") == -1 && KeyOf(idx, "a") == 0 && KeyOf(idx, "c") == 1;
    assert SortByKey(["a"], idx) == ["a"];
    assert SortByKey(["a", "ab"], idx) == ["ab", "a"];
    assert ["ab", "a"][1..] == ["a"] && ["a"][1..] == [];
    assert InsertByKey("c", ["a"], idx) == ["a", "c"];
  }

  /** The scan of three lines where the first holds the `def` of x, the
      second that of z but not y's, and the third not y's. */
  lemma ThreeLineScan(x: string, y: string, z: string, l0: string, l1: string, l2: string)
    requires x != y && y != z && x != z
    requires Contains(l0, Def(x)) && !Contains(l1, Def(y)) && Contains(l1, Def(z)) && !Contains(l2, Def(y))
    ensures ScanLines([l0, l1, l2], [x, y, z]).indices == map[x := 0, z := 1]
  {
    var lines, names := [l0, l1, l2], [x, y, z];
    assert FirstMatch(names, l0) == 0;
    assert FirstMatch([y, z], l1) == 1;
    assert FirstMatch([y], l2) == 1;
    var s1 := Scan(map[x := 0], [y, z]);
    var s2 := Scan(map[x := 0, z := 1], [y]);
    assert ScanLine(Scan(map[], names), l0, 0) == s1 by {
      assert names[..0] + names[1..] == [y, z];
    }
    assert ScanLine(s1, l1, 1) == s2 by {
      assert [y, z][..1] + [y, z][2..] == [y];
    }
    assert lines[..1][..0] == [] && lines[..2][..1] == lines[..1] && lines[..2] == lines[..|lines| - 1];
    assert ScanLines(lines[..1], names) == s1;
    assert ScanLines(lines[..2], names) == s2;
  }

  /** sorted(names, key=...) with an integer key: Python's sort is stable,
      so a name is placed after every earlier name with a key not above its own. */
  function InsertByKey<T(==)>(x: T, s: seq<T>, key: map<T, int>): seq<T>
    decreases |s|
  {
    if s == [] then [x]
    else if KeyOf(key, x) < KeyOf(key, s[0]) then [x] + s
    else [s[0]] + InsertByKey(x, s[1..], key)
  }

  function SortByKey<T(==)>(s: seq<T>, key: map<T, int>): seq<T>
    decreases |s|
  {
    if s == [] then [] else InsertByKey(s[|s| - 1], SortByKey(s[..|s| - 1], key), key)
  }

  predicate SortedByKey<T(==)>(s: seq<T>, key: map<T, int>) {
    forall i, j :: 0 <= i < j < |s| ==> KeyOf(key, s[i]) <= KeyOf(key, s[j])
  }

  /** The names whose key is `k`, in their order in `s`. */
  function WithKey<T(==)>(s: seq<T>, key: map<T, int>, k: int): seq<T>
    decreases |s|
  {
    if s == [] then []
    else if KeyOf(key, s[0]) == k then [s[0]] + WithKey(s[1..], key, k)
    else WithKey(s[1..], key, k)
  }

  lemma {:induction false} WithKeyConcat<T>(a: seq<T>, b: seq<T>, key: map<T, int>, k: int)
    ensures WithKey(a + b, key, k) == WithKey(a, key, k) + WithKey(b, key, k)
    decreases |a|
  {
    if a == [] {
      assert a + b == b;
    } else {
      WithKeyConcat(a[1..], b, key, k);
      assert (a + b)[0] == a[0];
      assert (a + b)[1..] == a[1..] + b;
    }
  }

  lemma {:induction false} WithKeyNone<T>(s: seq<T>, key: map<T, int>, k: int)
    requires forall i :: 0 <= i < |s| ==> KeyOf(key, s[i]) > k
    ensures WithKey(s, key, k) == []
    decreases |s|
  {
    if s != [] {
      WithKeyNone(s[1..], key, k);
    }
  }

  lemma {:induction false} InsertByKeyMultiset<T>(x: T, s: seq<T>, key: map<T, int>)
    ensures multiset(InsertByKey(x, s, key)) == multiset(s) + multiset{x}
    decreases |s|
  {
    if s != [] {
      assert s == [s[0]] + s[1..];
      if KeyOf(key, x) >= KeyOf(key, s[0]) {
        InsertByKeyMultiset(x, s[1..], key);
      }
    }
  }

  /** Inserting keeps a lower bound on the keys. */
  lemma {:induction false} InsertByKeyBound<T>(x: T, s: seq<T>, key: map<T, int>, b: int)
    requires forall i :: 0 <= i < |s| ==> b <= KeyOf(key, s[i])
    requires b <= KeyOf(key, x)
    ensures forall i :: 0 <= i < |InsertByKey(x, s, key)| ==> b <= KeyOf(key, InsertByKey(x, s, key)[i])
    decreases |s|
  {
    if s != [] && KeyOf(key, x) >= KeyOf(key, s[0]) {
      InsertByKeyBound(x, s[1..], key, b);
    }
  }

  lemma {:induction false} InsertByKeySorted<T>(x: T, s: seq<T>, key: map<T, int>)
    requires SortedByKey(s, key)
    ensures SortedByKey(InsertByKey(x, s, key), key)
    decreases |s|
  {
    if s != [] && KeyOf(key, x) >= KeyOf(key, s[0]) {
      var rest := InsertByKey(x, s[1..], key);
      InsertByKeySorted(x, s[1..], key);
      InsertByKeyBound(x, s[1..], key, KeyOf(key, s[0]));
      var r := [s[0]] + rest;
      forall i, j | 0 <= i < j < |r| ensures KeyOf(key, r[i]) <= KeyOf(key, r[j]) {
        assert r[j] == rest[j - 1];
        if i > 0 {
          assert r[i] == rest[i - 1];
        }
      }
    }
  }

  lemma {:induction false} InsertByKeyStable<T>(x: T, s: seq<T>, key: map<T, int>, k: int)
    requires SortedByKey(s, key)
    ensures WithKey(InsertByKey(x, s, key), key, k) ==
      WithKey(s, key, k) + (if KeyOf(key, x) == k then [x] else [])
    decreases |s|
  {
    if s == [] {
      assert [x][1..] == [];
    } else if KeyOf(key, x) < KeyOf(key, s[0]) {
      var r := [x] + s;
      assert r[1..] == s;
      if KeyOf(key, x) == k {
        WithKeyNone(s, key, k);
      }
    } else {
      InsertByKeyStable(x, s[1..], key, k);
      var r := [s[0]] + InsertByKey(x, s[1..], key);
      assert r[1..] == InsertByKey(x, s[1..], key);
    }
  }

  lemma {:induction false} SortByKeySorted<T>(s: seq<T>, key: map<T, int>)
    ensures SortedByKey(SortByKey(s, key), key)
    decreases |s|
  {
    if s != [] {
      SortByKeySorted(s[..|s| - 1], key);
      InsertByKeySorted(s[|s| - 1], SortByKey(s[..|s| - 1], key), key);
    }
  }

  lemma {:induction false} SortByKeyMultiset<T>(s: seq<T>, key: map<T, int>)
    ensures multiset(SortByKey(s, key)) == multiset(s)
    decreases |s|
  {
    if s != [] {
      var init, last := s[..|s| - 1], s[|s| - 1];
      SortByKeyMultiset(init, key);
      InsertByKeyMultiset(last, SortByKey(init, key), key);
      assert s == init + [last];
    }
  }

  lemma {:induction false} SortByKeyStable<T>(s: seq<T>, key: map<T, int>, k: int)
    ensures WithKey(SortByKey(s, key), key, k) == WithKey(s, key, k)
    decreases |s|
  {
    if s != [] {
      var init, last := s[..|s| - 1], s[|s| - 1];
      SortByKeyStable(init, key, k);
      SortByKeySorted(init, key);
      InsertByKeyStable(last, SortByKey(init, key), key, k);
      WithKeyConcat(init, [last], key, k);
      assert [last][1..] == [];
      assert s == init + [last];
    }
  }

  /** Sorting by key gives a permutation, ordered by key, in which the names
      sharing a key keep their input order (ties keep input order). */
  lemma SortByKeyCorrect<T>(s: seq<T>, key: map<T, int>)
    ensures SortedByKey(SortByKey(s, key), key)
    ensures multiset(SortByKey(s, key)) == multiset(s)
    ensures forall k :: WithKey(SortByKey(s, key), key, k) == WithKey(s, key, k)
  {
    SortByKeySorted(s, key);
    SortByKeyMultiset(s, key);
    forall k ensures WithKey(SortByKey(s, key), key, k) == WithKey(s, key, k) {
      SortByKeyStable(s, key, k);
    }
  }

  /** The result of _sort_by_definition_order. */
  function SortByDefinition(lines: seq<string>, names: seq<string>): seq<string> {
    SortByKey(names, ScanLines(lines, names).indices)
  }

  /** Definition order is a permutation of the names in which names never
      found in the source (key -1) come first, the others follow by the line
      that keyed them, and names with equal keys keep their input order. */
  lemma SortByDefinitionCorrect(lines: seq<string>, names: seq<string>)
    ensures var r := SortByDefinition(lines, names);
            var idx := ScanLines(lines, names).indices;
      && multiset(r) == multiset(names)
      && (forall i, j :: 0 <= i < j < |r| && r[j] !in idx ==> r[i] !in idx)
      && (forall i, j :: 0 <= i < j < |r| && r[i] in idx && r[j] in idx ==> idx[r[i]] <= idx[r[j]])
      && (forall k :: WithKey(r, idx, k) == WithKey(names, idx, k))
  {
    var idx := ScanLines(lines, names).indices;
    SortByKeyCorrect(names, idx);
    if Distinct(names) {
      DefinitionIndicesSound(lines, names);
    }
    var r := SortByDefinition(lines, names);
    forall i, j | 0 <= i < j < |r| && r[j] !in idx ensures r[i] !in idx {
      assert KeyOf(idx, r[i]) <= -1;
      if r[i] in idx {
        NonNegativeKeys(lines, names, r[i]);
      }
    }
  }

  /** Every key the scan records is a line number. */
  lemma {:induction false} NonNegativeKeys(lines: seq<string>, names: seq<string>, x: string)
    requires x in ScanLines(lines, names).indices
    ensures 0 <= ScanLines(lines, names).indices[x] < |lines|
    decreases |lines|
  {
    if lines != [] {
      var prev := ScanLines(lines[..|lines| - 1], names);
      if x in prev.indices {
        NonNegativeKeys(lines[..|lines| - 1], names, x);
      }
    }
  }

  // ---------------------------------------------------------------------
  // Listing and ordering the menu entries
  // ---------------------------------------------------------------------

  /** The `order` attribute: a string, or a callable that reorders the names. */
  datatype Order = Named(s: string) | Custom(f: seq<string> -> seq<string>)

  function OrderNames(order: Order, names: seq<string>, lines: seq<string>): seq<string> {
    match order
    case Named(s) =>
      if s == "alphabetical" then SortLex(names)
      else if s == "as_defined" || s == "force_order" then SortByDefinition(lines, names)
      else names
    case Custom(f) => f(names)
  }

  /** Names with equal keys are in alphabetical order. */
  predicate TiesLex(s: seq<string>, key: map<string, int>) {
    forall i, j :: 0 <= i < j < |s| && KeyOf(key, s[i]) == KeyOf(key, s[j]) ==> LexLe(s[i], s[j])
  }

  /** Inserting a name that no name of `s` exceeds keeps ties alphabetical. */
  lemma {:induction false} InsertByKeyTies(x: string, s: seq<string>, key: map<string, int>)
    requires SortedByKey(s, key) && TiesLex(s, key)
    requires forall y :: y in s ==> LexLe(y, x)
    ensures TiesLex(InsertByKey(x, s, key), key)
    decreases |s|
  {
    if s != [] && KeyOf(key, x) >= KeyOf(key, s[0]) {
      var rest := InsertByKey(x, s[1..], key);
      InsertByKeyTies(x, s[1..], key);
      InsertedFrom(x, s[1..], key);
      HeadTiesLex(s[0], s[1..], x, rest, key);
      var r := [s[0]] + rest;
      forall i, j | 0 < i < j < |r| ensures r[i] == rest[i - 1] && r[j] == rest[j - 1] {
      }
    }
  }

  /** Every name of an insertion is the inserted one or a name of `s`. */
  lemma InsertedFrom(x: string, s: seq<string>, key: map<string, int>)
    ensures forall y :: y in InsertByKey(x, s, key) ==> y == x || y in s
  {
    InsertByKeyMultiset(x, s, key);
    forall y | y in InsertByKey(x, s, key) ensures y == x || y in s {
      assert y in multiset(InsertByKey(x, s, key));
    }
  }

  /** A head that ties alphabetically before its tail and `x` also ties
      before every name drawn from them. */
  lemma HeadTiesLex(h: string, t: seq<string>, x: string, rest: seq<string>, key: map<string, int>)
    requires TiesLex([h] + t, key)
    requires KeyOf(key, h) == KeyOf(key, x) ==> LexLe(h, x)
    requires forall y :: y in rest ==> y == x || y in t
    ensures forall j :: 0 <= j < |rest| && KeyOf(key, h) == KeyOf(key, rest[j]) ==> LexLe(h, rest[j])
  {
    forall j | 0 <= j < |rest| && KeyOf(key, h) == KeyOf(key, rest[j]) ensures LexLe(h, rest[j]) {
      assert rest[j] in rest;
      if rest[j] != x {
        assert rest[j] in t;
        var k :| 0 <= k < |t| && t[k] == rest[j];
        assert ([h] + t)[0] == h && ([h] + t)[k + 1] == rest[j];
      }
    }
  }

  /** Sorting an alphabetical list by key leaves names with equal keys in
      alphabetical order. */
  lemma {:induction false} SortByKeyTies(s: seq<string>, key: map<string, int>)
    requires SortedLex(s)
    ensures TiesLex(SortByKey(s, key), key)
    decreases |s|
  {
    if s != [] {
      var init, last := s[..|s| - 1], s[|s| - 1];
      SortByKeyTies(init, key);
      SortByKeySorted(init, key);
      SortByKeyMultiset(init, key);
      var t := SortByKey(init, key);
      forall y | y in t ensures LexLe(y, last) {
        assert y in multiset(init);
        var k :| 0 <= k < |init| && init[k] == y;
        assert s[k] == y;
      }
      InsertByKeyTies(last, t, key);
    }
  }

  /** Every named order is a permutation of the listed names; "alphabetical"
      also sorts them, and any unlisted string keeps them as dir() gave them,
      which is alphabetical. Under "as_defined", the names never found in the
      source, which come first, are alphabetical when the listing is. */
  lemma OrderNamesPermutes(s: string, names: seq<string>, lines: seq<string>)
    ensures multiset(OrderNames(Named(s), names, lines)) == multiset(names)
    ensures s == "alphabetical" ==> SortedLex(OrderNames(Named(s), names, lines))
    ensures s != "alphabetical" && s != "as_defined" && s != "force_order" ==>
      OrderNames(Named(s), names, lines) == names
    ensures SortedLex(names) && s != "as_defined" && s != "force_order" ==>
      SortedLex(OrderNames(Named(s), names, lines))
    ensures SortedLex(names) && (s == "as_defined" || s == "force_order") ==>
      var r := OrderNames(Named(s), names, lines);
      var idx := ScanLines(lines, names).indices;
      forall i, j :: 0 <= i < j < |r| && r[i] !in idx && r[j] !in idx ==> LexLe(r[i], r[j])
  {
    SortLexCorrect(names);
    SortByDefinitionCorrect(lines, names);
    if SortedLex(names) {
      SortByKeyTies(names, ScanLines(lines, names).indices);
    }
  }

  predicate IsPrivate(name: string) {
    |name| > 0 && name[0] == '_'
  }

  /** The names of dir() that do not start with an underscore and are callable. */
  function PublicCallables(attributes: seq<string>, callables: set<string>): seq<string>
    decreases |attributes|
  {
    if attributes == [] then []
    else
      var last := attributes[|attributes| - 1];
      PublicCallables(attributes[..|attributes| - 1], callables)
      + (if !IsPrivate(last) && last in callables then [last] else [])
  }

  lemma {:induction false} PublicCallablesSpec(attributes: seq<string>, callables: set<string>)
    ensures IsSubsequence(PublicCallables(attributes, callables), attributes)
    ensures forall x :: x in PublicCallables(attributes, callables) <==>
      x in attributes && !IsPrivate(x) && x in callables
    decreases |attributes|
  {
    if attributes != [] {
      var init, last := attributes[..|attributes| - 1], attributes[|attributes| - 1];
      PublicCallablesSpec(init, callables);
      assert attributes == init + [last];
      assert attributes[..|attributes| - 1] == init;
      var p := PublicCallables(init, callables);
      if !IsPrivate(last) && last in callables {
        assert (p + [last])[..|p + [last]| - 1] == p;
      } else {
        assert PublicCallables(attributes, callables) == p;
        assert IsSubsequence(p, attributes[..|attributes| - 1]);
      }
    }
  }

  /** dir() lists its names alphabetically, and so the public callables are
      listed alphabetically too. */
  lemma {:induction false} PublicCallablesSorted(attributes: seq<string>, callables: set<string>)
    requires SortedLex(attributes)
    ensures SortedLex(PublicCallables(attributes, callables))
    decreases |attributes|
  {
    if attributes != [] {
      var init, last := attributes[..|attributes| - 1], attributes[|attributes| - 1];
      PublicCallablesSorted(init, callables);
      PublicCallablesSpec(init, callables);
      var p := PublicCallables(init, callables);
      forall y | y in p ensures LexLe(y, last) {
        var k :| 0 <= k < |init| && init[k] == y;
        assert attributes[k] == y;
      }
      if !IsPrivate(last) && last in callables {
        var r := p + [last];
        forall i, j | 0 <= i < j < |r| ensures LexLe(r[i], r[j]) {
          assert r[i] == p[i];
          if j < |p| {
            assert r[j] == p[j];
          } else {
            assert p[i] in p;
          }
        }
      }
    }
  }

  /** The names of `all` that the forced list does not mention, in order. */
  function NotForced(all: seq<string>, forced: seq<string>): seq<string>
    decreases |all|
  {
    if all == [] then []
    else
      NotForced(all[..|all| - 1], forced)
      + (if all[|all| - 1] !in forced then [all[|all| - 1]] else [])
  }

  lemma {:induction false} NotForcedSpec(all: seq<string>, forced: seq<string>)
    ensures IsSubsequence(NotForced(all, forced), all)
    ensures forall x :: x in NotForced(all, forced) <==> x in all && x !in forced
    decreases |all|
  {
    if all != [] {
      var init, last := all[..|all| - 1], all[|all| - 1];
      NotForcedSpec(init, forced);
      assert all == init + [last];
      assert all[..|all| - 1] == init;
      var p := NotForced(init, forced);
      if last !in forced {
        assert (p + [last])[..|p + [last]| - 1] == p;
      } else {
        assert NotForced(all, forced) == p;
        assert IsSubsequence(p, all[..|all| - 1]);
      }
    }
  }

  /** The names _connect walks through. */
  function MenuNames(forced: Option<seq<string>>, all: seq<string>): seq<string> {
    match forced
    case None => all
    case Some(f) => f + NotForced(all, f)
  }

  /** Without a forced order all listed names are used; with one, the forced
      names come first and every listed name missing from them follows, in
      listing order. */
  lemma MenuNamesSpec(forced: Option<seq<string>>, all: seq<string>)
    ensures forced.None? ==> MenuNames(forced, all) == all
    ensures forced.Some? ==> forced.value <= MenuNames(forced, all)
    ensures forced.Some? ==>
      IsSubsequence(MenuNames(forced, all)[|forced.value|..], all)
    ensures forall x :: x in all ==> x in MenuNames(forced, all)
    ensures forall x :: x in MenuNames(forced, all) ==> x in all || (forced.Some? && x in forced.value)
  {
    if forced.Some? {
      var f := forced.value;
      NotForcedSpec(all, f);
      assert MenuNames(forced, all)[|f|..] == NotForced(all, f);
      forall x | x in MenuNames(forced, all) ensures x in all || x in f {
        assert x in f + NotForced(all, f);
      }
    }
  }

  // ---------------------------------------------------------------------
  // The entries _connect adds
  // ---------------------------------------------------------------------

  /** An element of added_menu_items: the index of a separator, or a label. */
  datatype AddedItem = SeparatorIndex(index: int) | Label(text: string)

  datatype MenuEntry = Separator | Command(text: string)

  /** The tkinter.Menu the menu maker creates, with its entries; with a
      tear-off entry, that entry has index 0. */
  datatype TkMenu = TkMenu(tearoff: bool, entries: seq<MenuEntry>)

  /** What a parent menu is to this model: an identity. */
  type MenuId = nat

  function TearoffOffset(tearoff: bool): nat {
    if tearoff then 1 else 0
  }

  /** The item recorded for the name at `position`: the separator's index is
      `tkmenu.index(END)` right after it is added. */
  function ItemFor(name: string, position: nat, tearoff: bool, replacements: seq<(string, string)>): AddedItem
    requires name != []
  {
    if name == "." then SeparatorIndex(position + TearoffOffset(tearoff))
    else Label(Fancy(name, replacements))
  }

  function EntryFor(name: string, replacements: seq<(string, string)>): MenuEntry
    requires name != []
  {
    if name == "." then Separator else Command(Fancy(name, replacements))
  }

  function AddedItems(names: seq<string>, tearoff: bool, replacements: seq<(string, string)>): seq<AddedItem>
    requires forall i :: 0 <= i < |names| ==> names[i] != []
    decreases |names|
  {
    if names == [] then []
    else AddedItems(names[..|names| - 1], tearoff, replacements)
         + [ItemFor(names[|names| - 1], |names| - 1, tearoff, replacements)]
  }

  function MenuEntries(names: seq<string>, replacements: seq<(string, string)>): seq<MenuEntry>
    requires forall i :: 0 <= i < |names| ==> names[i] != []
    decreases |names|
  {
    if names == [] then []
    else MenuEntries(names[..|names| - 1], replacements) + [EntryFor(names[|names| - 1], replacements)]
  }

  /** One item per name: the index of the separator for ".", the fancy label
      otherwise; and each recorded separator index is the index under which
      the Tk menu holds that separator. */
  lemma {:induction false} AddedItemsSpec(names: seq<string>, tearoff: bool, replacements: seq<(string, string)>)
    requires forall i :: 0 <= i < |names| ==> names[i] != []
    ensures |AddedItems(names, tearoff, replacements)| == |names|
    ensures |MenuEntries(names, replacements)| == |names|
    ensures forall i :: 0 <= i < |names| ==>
      AddedItems(names, tearoff, replacements)[i] ==
        (if names[i] == "." then SeparatorIndex(i + TearoffOffset(tearoff)) else Label(Fancy(names[i], replacements)))
    ensures forall i :: 0 <= i < |names| ==>
      MenuEntries(names, replacements)[i] ==
        (if names[i] == "." then Separator else Command(Fancy(names[i], replacements)))
    decreases |names|
  {
    if names != [] {
      AddedItemsSpec(names[..|names| - 1], tearoff, replacements);
    }
  }

  /** The position of the first name that is neither "." nor an attribute
      (where getattr raises AttributeError), or |names|. */
  function FirstUnresolved(names: seq<string>, attributes: seq<string>): (k: nat)
    ensures k <= |names|
    ensures forall i :: 0 <= i < k ==> names[i] == "." || names[i] in attributes
    ensures k < |names| ==> names[k] != "." && names[k] !in attributes
    decreases |names|
  {
    if names == [] then 0
    else if names[0] != "." && names[0] !in attributes then 0
    else 1 + FirstUnresolved(names[1..], attributes)
  }

  const DisconnectMessage := "MenuMaker not connected to a tkinter.Menu object; Cannot disconnect."
  const EnableMessage := "MenuMaker not connected to a tkinter.Menu object; Cannot enable items."
  const DisableMessage := "MenuMaker not connected to a tkinter.Menu object; Cannot disable items."

  class MenuMaker {
    const name: string
    var order: Order
    var replacementDict: seq<(string, string)>
    var parentMenu: Option<MenuId>
    var tkmenu: Option<TkMenu>
    var addedMenuItems: seq<AddedItem>

    // The subclass, as reflection sees it: dir(self), the names that are
    // callable, the source lines of the class and what _force_order returns.
    const attributes: seq<string>
    const callables: set<string>
    const sourceLines: seq<string>
    const forcedOrder: Option<seq<string>>

    ghost predicate Valid()
      reads this
    {
      && (parentMenu.None? <==> tkmenu.None?)
      && (tkmenu.None? ==> addedMenuItems == [])
      && (forall a :: a in attributes ==> a != [])
      && Distinct(attributes)
      && SortedLex(attributes)
    }

    /** A new menu maker is not connected and has the default replacements. */
    constructor (name: string, attributes: seq<string>, callables: set<string>,
                 sourceLines: seq<string>, forcedOrder: Option<seq<string>>,
                 order: Order := Named("as_defined"))
      requires forall a :: a in attributes ==> a != []
      requires Distinct(attributes) && SortedLex(attributes)
      ensures Valid()
      ensures this.name == name && this.order == order
      ensures replacementDict == DefaultReplacements
      ensures parentMenu == None && tkmenu == None && addedMenuItems == []
      ensures this.attributes == attributes && this.callables == callables
      ensures this.sourceLines == sourceLines && this.forcedOrder == forcedOrder
    {
      this.name := name;
      this.order := order;
      replacementDict := DefaultReplacements;
      parentMenu := None;
      tkmenu := None;
      addedMenuItems := [];
      this.attributes := attributes;
      this.callables := callables;
      this.sourceLines := sourceLines;
      this.forcedOrder := forcedOrder;
    }

    /** The names _list_items returns before any fancy renaming. */
    function ListedNames(): seq<string>
      reads this`order
    {
      OrderNames(order, PublicCallables(attributes, callables), sourceLines)
    }

    /** _fancy_name. */
    method FancyName(name: string) returns (fancy: string)
      requires name != []
      ensures fancy == Fancy(name, replacementDict)
    {
      fancy := [Upper(name[0])] + name[1..];
      var i := 0;
      while i < |replacementDict|
        invariant 0 <= i <= |replacementDict|
        invariant ApplyReplacements(fancy, replacementDict[i..]) == Fancy(name, replacementDict)
      {
        assert replacementDict[i..][1..] == replacementDict[i + 1..];
        fancy := Replace(fancy, replacementDict[i].0, replacementDict[i].1);
        i := i + 1;
      }
    }

    /** _sort_by_definition_order: scan the class source for the first line
        holding `def <name>`, then sort by that line (unfound names get -1). */
    method SortByDefinitionOrder(names: seq<string>) returns (sorted: seq<string>)
      ensures sorted == SortByDefinition(sourceLines, names)
    {
      var indices: map<string, int> := map[];
      var toLook := names;
      var i := 0;
      while i < |sourceLines|
        invariant 0 <= i <= |sourceLines|
        invariant Scan(indices, toLook) == ScanLines(sourceLines[..i], names)
      {
        var line := sourceLines[i];
        var k := 0;
        while k < |toLook| && !Contains(line, Def(toLook[k]))
          invariant 0 <= k <= |toLook|
          invariant forall j :: 0 <= j < k ==> !Contains(line, Def(toLook[j]))
        {
          k := k + 1;
        }
        assert k == FirstMatch(toLook, line);
        if k < |toLook| {
          indices := indices[toLook[k] := i];
          toLook := toLook[..k] + toLook[k + 1..];
        }
        assert sourceLines[..i + 1][..i] == sourceLines[..i];
        i := i + 1;
      }
      assert sourceLines[..i] == sourceLines;
      sorted := SortByKey(names, indices);
    }

    /** _list_items: the public callable names in the configured order,
        optionally as labels (IndexError for an empty name). */
    method ListItems(fancyNames: bool) returns (r: Result<seq<string>>)
      requires Valid()
      ensures !fancyNames ==> r == Ok(ListedNames())
      ensures fancyNames ==> (r.Ok? <==> forall i :: 0 <= i < |ListedNames()| ==> ListedNames()[i] != [])
      ensures fancyNames && r.Ok? ==> |r.value| == |ListedNames()|
      ensures fancyNames && r.Ok? ==> forall i :: 0 <= i < |r.value| ==>
        ListedNames()[i] != [] && r.value[i] == Fancy(ListedNames()[i], replacementDict)
      ensures r.Err? ==> r.error == IndexError
      ensures !fancyNames && order.Named? && order.s != "as_defined" && order.s != "force_order" ==>
        SortedLex(r.value)
    {
      PublicCallablesSorted(attributes, callables);
      if order.Named? {
        OrderNamesPermutes(order.s, PublicCallables(attributes, callables), sourceLines);
      }
      var names := PublicCallables(attributes, callables);
      match order {
        case Named(s) =>
          if s == "alphabetical" {
            names := SortLex(names);
          } else if s == "as_defined" || s == "force_order" {
            names := SortByDefinitionOrder(names);
          }
        case Custom(f) =>
          names := f(names);
      }
      if !fancyNames {
        return Ok(names);
      }
      var labels := [];
      var i := 0;
      while i < |names|
        invariant 0 <= i <= |names|
        invariant |labels| == i
        invariant forall j :: 0 <= j < i ==> names[j] != [] && labels[j] == Fancy(names[j], replacementDict)
      {
        if names[i] == [] {
          assert ListedNames()[i] == [];
          return Err(IndexError);
        }
        var text := FancyName(names[i]);
        labels := labels + [text];
        i := i + 1;
      }
      r := Ok(labels);
    }

    /** The names _connect walks through. */
    function ConnectNames(): seq<string>
      reads this`order
    {
      MenuNames(forcedOrder, ListedNames())
    }

    /** _connect: create the menu and add one entry per name, a separator for
        "." and a command labelled with the fancy name otherwise; a name that
        is not an attribute stops it with AttributeError. */
    method Connect(parent: MenuId, tearoff: bool) returns (r: Outcome)
      requires Valid()
      modifies this
      ensures Valid()
      ensures order == old(order) && replacementDict == old(replacementDict)
      ensures parentMenu == Some(parent)
      ensures var names := ConnectNames();
              var stop := FirstUnresolved(names, attributes);
        && (r == if stop < |names| then Fail(AttributeError(names[stop])) else Pass)
        && tkmenu == Some(TkMenu(tearoff, MenuEntries(names[..stop], replacementDict)))
        && addedMenuItems == old(addedMenuItems) + AddedItems(names[..stop], tearoff, replacementDict)
    {
      var listed := ListItems(false);
      var names := MenuNames(forcedOrder, listed.value);
      var entries, added, stop := BuildMenu(names, tearoff);
      // On an AttributeError the entries added so far stay in place.
      parentMenu := Some(parent);
      tkmenu := Some(TkMenu(tearoff, entries));
      addedMenuItems := addedMenuItems + added;
      r := if stop < |names| then Fail(AttributeError(names[stop])) else Pass;
    }

    /** The loop of _connect: walk the names up to the first one that is
        neither "." nor an attribute, collecting the menu entries and the
        recorded items; `stop` is where the walk ended. */
    method BuildMenu(names: seq<string>, tearoff: bool)
      returns (entries: seq<MenuEntry>, added: seq<AddedItem>, stop: nat)
      requires Valid()
      ensures stop == FirstUnresolved(names, attributes)
      ensures forall j :: 0 <= j < stop ==> names[j] != []
      ensures entries == MenuEntries(names[..stop], replacementDict)
      ensures added == AddedItems(names[..stop], tearoff, replacementDict)
      ensures |entries| == |added| == stop
    {
      entries, added := [], [];
      var i := 0;
      while i < |names| && (names[i] == "." || names[i] in attributes)
        invariant 0 <= i <= FirstUnresolved(names, attributes)
        invariant forall j :: 0 <= j < i ==> names[j] != []
        invariant |entries| == |added| == i
        invariant entries == MenuEntries(names[..i], replacementDict)
        invariant added == AddedItems(names[..i], tearoff, replacementDict)
      {
        assert names[..i + 1][..i] == names[..i];
        if names[i] == "." {
          entries := entries + [Separator];
          var index := |entries| - 1 + TearoffOffset(tearoff);
          added := added + [SeparatorIndex(index)];
        } else {
          var text := FancyName(names[i]);
          entries := entries + [Command(text)];
          added := added + [Label(text)];
        }
        i := i + 1;
      }
      stop := i;
    }

    /** _disconnect: ValueError when not connected; otherwise forget the menu. */
    method Disconnect() returns (r: Outcome)
      requires Valid()
      modifies this
      ensures Valid()
      ensures old(tkmenu).None? ==> r == Fail(ValueError(DisconnectMessage))
      ensures old(tkmenu).None? ==>
        parentMenu == old(parentMenu) && tkmenu == old(tkmenu) && addedMenuItems == old(addedMenuItems)
      ensures old(tkmenu).Some? ==> r == Pass
      ensures old(tkmenu).Some? ==> parentMenu == None && tkmenu == None && addedMenuItems == []
      ensures order == old(order) && replacementDict == old(replacementDict)
    {
      if tkmenu.None? {
        return Fail(ValueError(DisconnectMessage));
      }
      parentMenu := None;
      tkmenu := None;
      addedMenuItems := [];
      r := Pass;
    }

    /** _enable always raises: ValueError when not connected, otherwise
        NotImplementedError. */
    method Enable() returns (e: Error)
      ensures e.ValueError? <==> tkmenu.None?
      ensures e == if tkmenu.None? then ValueError(EnableMessage)
                   else NotImplementedError("Enabling not implemented yet")
    {
      if tkmenu.None? {
        return ValueError(EnableMessage);
      }
      e := NotImplementedError("Enabling not implemented yet");
    }

    /** _disable always raises: ValueError when not connected, otherwise
        NotImplementedError. */
    method Disable() returns (e: Error)
      ensures e.ValueError? <==> tkmenu.None?
      ensures e == if tkmenu.None? then ValueError(DisableMessage)
                   else NotImplementedError("Disabling not implemented yet")
    {
      if tkmenu.None? {
        return ValueError(DisableMessage);
      }
      e := NotImplementedError("Disabling not implemented yet");
    }
  }
}
