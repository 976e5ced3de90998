/** The bookkeeping of the widgets in tk_steroids/elements.py: the Listbox's
    selection lookup and item list, the Tabs page switching, and the line
    window of BufferShower. The Tk widgets are replaced by the state they
    hold: the rows of a listbox, which pages are gridded, the lines shown. */
module Elements {
  import opened Common

  // ---------------------------------------------------------------------
  // Listbox
  // ---------------------------------------------------------------------

  /** `self.selections[self.listbox.curselection()[0]]`, or None when that
      raises: nothing selected, or a selected row past the end. */
  function SelectedItem(selections: seq<Value>, curselection: seq<nat>): Option<Value> {
    if |curselection| > 0 && curselection[0] < |selections| then Some(selections[curselection[0]]) else None
  }

  /** `if colors:`, a list that is given and not empty. */
  predicate Colored(colors: Option<seq<string>>) {
    colors.Some? && colors.value != []
  }

  /** The background of each of the first n rows. */
  function Painted(n: nat, colors: Option<seq<string>>): seq<Option<string>>
    requires Colored(colors) ==> n <= |colors.value|
  {
    seq(n, i requires 0 <= i < n && (Colored(colors) ==> n <= |colors.value|) =>
      if Colored(colors) then Some(colors.value[i]) else None)
  }

  /** _errorchecked: the calls made to the callback, which gets the
      selected object once when there is one and it is not None. */
  method ErrorChecked(selections: seq<Value>, curselection: seq<nat>) returns (calls: seq<Value>)
    ensures |calls| <= 1
    ensures calls != [] <==>
      SelectedItem(selections, curselection).Some? && SelectedItem(selections, curselection).value != NoneValue
    ensures calls != [] ==> calls[0] == SelectedItem(selections, curselection).value
  {
    var argument := NoneValue;
    var sel := 0;
    if |curselection| > 0 && curselection[0] < |selections| {
      sel := curselection[0];
      argument := selections[sel];
    }
    calls := [];
    if argument != NoneValue {
      calls := [selections[sel]];
    }
  }

  class Listbox {
    /** `self.selections`: the objects behind the rows. */
    var selections: seq<Value>
    /** The rows of the Tk listbox. */
    var items: seq<Value>
    /** The background set on each row, if any. */
    var itemColors: seq<Option<string>>
    /** Tk's `curselection()`: the selected rows, set by the user. */
    var curselection: seq<nat>

    ghost predicate Valid()
      reads this
    {
      |itemColors| == |items|
    }

    constructor (selections: seq<Value>)
      ensures Valid()
      ensures this.selections == selections && items == selections
      ensures itemColors == Painted(|selections|, None) && curselection == []
    {
      this.selections := [];
      items := [];
      itemColors := [];
      curselection := [];
      new;
      var r := SetSelections(selections, None);
    }

    /** get_current: the selected object, or None. */
    method GetCurrent() returns (r: Value)
      ensures SelectedItem(selections, curselection).Some? ==> r == SelectedItem(selections, curselection).value
      ensures SelectedItem(selections, curselection).None? ==> r == NoneValue
    {
      if |curselection| == 0 {
        return NoneValue;
      }
      var sel := curselection[0];
      if sel >= |selections| {
        return NoneValue;
      }
      r := selections[sel];
    }

    /** set_selections: empty the listbox, then insert one row per object
        and colour it when colours are given; a colour list shorter than the
        selections raises IndexError at the first row without a colour. */
    method SetSelections(sels: seq<Value>, colors: Option<seq<string>>) returns (r: Outcome)
      modifies this
      ensures Valid()
      ensures selections == sels && curselection == []
      ensures r == if Colored(colors) && |colors.value| < |sels| then Fail(IndexError) else Pass
      ensures r.Pass? ==> items == sels && itemColors == Painted(|sels|, colors)
      ensures r.Fail? ==>
        && items == sels[..|colors.value| + 1]
        && itemColors == Painted(|colors.value|, colors) + [None]
    {
      items, itemColors, curselection := [], [], [];
      selections := sels;
      var i := 0;
      while i < |selections|
        invariant 0 <= i <= |sels| && selections == sels && curselection == []
        invariant Colored(colors) ==> i <= |colors.value|
        invariant items == sels[..i] && itemColors == Painted(i, colors)
      {
        items := items + [selections[i]];
        itemColors := itemColors + [None];
        if colors.Some? && colors.value != [] {
          if i >= |colors.value| {
            assert i == |colors.value|;
            return Fail(IndexError);
          }
          itemColors := itemColors[i := Some(colors.value[i])];
        }
        assert sels[..i + 1] == sels[..i] + [sels[i]];
        i := i + 1;
      }
      assert sels[..i] == sels;
      r := Pass;
    }
  }

  // ---------------------------------------------------------------------
  // Tabs
  // ---------------------------------------------------------------------

  /** A page created by calling an element class with the Tabs as parent. */
  datatype Widget = Widget(cls: string, position: nat)

  /** The element classes: the given ones, or a Frame per tab name. */
  function Classes(tabNames: seq<string>, elements: Option<seq<string>>): seq<string> {
    if elements.Some? then elements.value else seq(|tabNames|, i => "Frame")
  }

  /** The number of (name, element) pairs zip yields. */
  function TabCount(tabNames: seq<string>, classes: seq<string>): (n: nat)
    ensures n <= |tabNames| && n <= |classes|
    ensures n == |tabNames| || n == |classes|
  {
    if |tabNames| <= |classes| then |tabNames| else |classes|
  }

  /** The pages made from the first n classes, in order. */
  function Instantiate(classes: seq<string>, n: nat): seq<Widget>
    requires n <= |classes|
  {
    seq(n, i requires 0 <= i < n <= |classes| => Widget(classes[i], i))
  }

  /** The loop over `zip(tab_names, elements)`: one page made from each
      element class and one button labelled with each name, in order. */
  method MakeTabs(tabNames: seq<string>, classes: seq<string>) returns (labels: seq<string>, made: seq<Widget>)
    ensures var n := TabCount(tabNames, classes);
      labels == tabNames[..n] && made == Instantiate(classes, n)
  {
    var n := TabCount(tabNames, classes);
    made, labels := [], [];
    var i := 0;
    while i < n
      invariant 0 <= i <= n
      invariant made == Instantiate(classes, i) && labels == tabNames[..i]
    {
      made := made + [Widget(classes[i], i)];
      labels := labels + [tabNames[i]];
      assert tabNames[..i + 1] == tabNames[..i] + [tabNames[i]];
      i := i + 1;
    }
  }

  class Tabs {
    /** The button labels, one per page. */
    const buttons: seq<string>
    const pages: seq<Widget>
    const hasCallback: bool
    var iCurrent: int
    /** The positions of the pages currently gridded. */
    var gridded: set<nat>
    /** The arguments `on_select_callback` was called with. */
    var selectCalls: seq<int>

    ghost predicate Valid()
      reads this
    {
      && |pages| == |buttons| >= 1
      && (forall i :: 0 <= i < |pages| ==> pages[i].position == i)
      && (forall p :: p in gridded ==> p < |pages|)
    }

    /** Requires at least one (name, element) pair: with none, gridding
        `pages[0]` raises IndexError (CreateTabs models that case). */
    constructor (tabNames: seq<string>, elements: Option<seq<string>>, hasCallback: bool)
      requires TabCount(tabNames, Classes(tabNames, elements)) >= 1
      ensures Valid()
      ensures var classes := Classes(tabNames, elements);
              var n := TabCount(tabNames, classes);
        && buttons == tabNames[..n] && pages == Instantiate(classes, n)
      ensures this.hasCallback == hasCallback
      ensures iCurrent == 0 && gridded == {0} && selectCalls == []
    {
      var labels, made := MakeTabs(tabNames, Classes(tabNames, elements));
      buttons := labels;
      pages := made;
      this.hasCallback := hasCallback;
      iCurrent := 0;
      gridded := {0};
      selectCalls := [];
    }

    /** get_elements: the pages, one per tab, in the order they were made. */
    function GetElements(): (r: seq<Widget>)
      reads this
      requires Valid()
      ensures |r| == |buttons|
      ensures forall i :: 0 <= i < |r| ==> r[i].position == i
    {
      pages
    }

    /** set_page: record the new index, call the callback with it, hide the
        old page and show the new one; an index outside the pages raises
        IndexError at the first lookup that uses it. */
    method SetPage(iPage: int) returns (r: Outcome)
      requires Valid()
      modifies this
      ensures Valid()
      ensures iCurrent == iPage
      ensures selectCalls == old(selectCalls) + (if hasCallback then [iPage] else [])
      ensures r == if PyIndex(old(iCurrent), |pages|).Some? && PyIndex(iPage, |pages|).Some? then Pass
                   else Fail(IndexError)
      ensures PyIndex(old(iCurrent), |pages|).None? ==> gridded == old(gridded)
      ensures PyIndex(old(iCurrent), |pages|).Some? ==>
        gridded == old(gridded) - {PyIndex(old(iCurrent), |pages|).value}
                   + (if r.Pass? then {PyIndex(iPage, |pages|).value} else {})
      ensures r.Pass? && old(gridded) == {PyIndex(old(iCurrent), |pages|).value} ==>
        gridded == {PyIndex(iPage, |pages|).value}
    {
      var iOld := iCurrent;
      iCurrent := iPage;
      if hasCallback {
        selectCalls := selectCalls + [iCurrent];
      }
      var o := PyIndex(iOld, |pages|);
      if o.None? {
        return Fail(IndexError);
      }
      gridded := gridded - {o.value};
      var p := PyIndex(iCurrent, |pages|);
      if p.None? {
        return Fail(IndexError);
      }
      gridded := gridded + {p.value};
      r := Pass;
    }
  }

  /** `Tabs(parent, tab_names, elements, on_select_callback)`: IndexError
      when zip yields no pair, a new Tabs otherwise. */
  method CreateTabs(tabNames: seq<string>, elements: Option<seq<string>>, hasCallback: bool)
    returns (r: Result<Tabs>)
    ensures r.Err? <==> TabCount(tabNames, Classes(tabNames, elements)) == 0
    ensures r.Err? ==> r.error == IndexError
    ensures r.Ok? ==> fresh(r.value) && r.value.Valid()
    ensures r.Ok? ==> var classes := Classes(tabNames, elements);
                      var n := TabCount(tabNames, classes);
      && r.value.buttons == tabNames[..n] && r.value.pages == Instantiate(classes, n)
      && r.value.hasCallback == hasCallback
    ensures r.Ok? ==> r.value.iCurrent == 0 && r.value.gridded == {0} && r.value.selectCalls == []
  {
    if TabCount(tabNames, Classes(tabNames, elements)) == 0 {
      return Err(IndexError);
    }
    var tabs := new Tabs(tabNames, elements, hasCallback);
    r := Ok(tabs);
  }

  // ---------------------------------------------------------------------
  // BufferShower
  // ---------------------------------------------------------------------

  /** How many of the lines read so far the text shows. */
  function ShownCount(entries: nat, maxEntries: int): (n: nat)
    ensures n <= entries
    ensures n <= (if maxEntries < 0 then 0 else maxEntries) + 1
  {
    var cap := (if maxEntries < 0 then 0 else maxEntries) + 1;
    if entries < cap then entries else cap
  }

  /** The lines the text shows after reading `history`. */
  function Window(history: seq<string>, maxEntries: int): seq<string> {
    history[|history| - ShownCount(|history|, maxEntries)..]
  }

  /** The text shows at most `max_entries + 1` lines, the latest ones read,
      and every line read while no more than that many were read. */
  lemma WindowSpec(history: seq<string>, maxEntries: int)
    ensures var w := Window(history, maxEntries);
      && |w| <= (if maxEntries < 0 then 0 else maxEntries) + 1
      && |w| <= |history| && w == history[|history| - |w|..]
      && (|history| <= maxEntries + 1 ==> w == history)
  {
  }

  /** One line of the callback loop: drop the first shown line once more
      than `maxEntries` lines were read, then append the new one. */
  function ShowLine(text: seq<string>, entries: int, maxEntries: int, line: string): seq<string> {
    (if entries > maxEntries && text != [] then text[1..] else text) + [line]
  }

  /** Showing a line keeps the text equal to the window of the lines read. */
  lemma ShowLineKeepsWindow(history: seq<string>, maxEntries: int, line: string)
    ensures ShowLine(Window(history, maxEntries), |history|, maxEntries, line) == Window(history + [line], maxEntries)
  {
    var h' := history + [line];
    var w := Window(history, maxEntries);
    var w' := Window(h', maxEntries);
    if |history| > maxEntries && w != [] {
      assert |w'| == |w|;
      assert w' == w[1..] + [line] by {
        assert w' == h'[|h'| - |w'|..];
        assert forall i :: 0 <= i < |w'| - 1 ==> w'[i] == w[i + 1];
      }
    } else {
      assert |w'| == |w| + 1;
      assert w' == w + [line];
    }
  }

  /** The lines of the buffer after `offset`, one per iteration of
      `for line in self.string_buffer` after `seek(offset)`. */
  function Unread(buffer: seq<string>, offset: nat): seq<string> {
    if offset < |buffer| then buffer[offset..] else []
  }

  /** Showing the next unread line extends the window by that line. */
  lemma ShowNextLine(read: seq<string>, lines: seq<string>, i: nat, maxEntries: int)
    requires i < |lines|
    ensures ShowLine(Window(read + lines[..i], maxEntries), |read| + i, maxEntries, lines[i])
      == Window(read + lines[..i + 1], maxEntries)
  {
    ShowLineKeepsWindow(read + lines[..i], maxEntries, lines[i]);
    assert read + lines[..i + 1] == (read + lines[..i]) + [lines[i]];
  }

  /** The loop of callback: show each line in turn, counting it. */
  method ShowLines(ghost read: seq<string>, text: seq<string>, entries: nat, maxEntries: int, lines: seq<string>)
    returns (shown: seq<string>, count: nat)
    requires entries == |read| && text == Window(read, maxEntries)
    ensures count == entries + |lines|
    ensures shown == Window(read + lines, maxEntries)
  {
    shown, count := text, entries;
    var i := 0;
    assert read + lines[..0] == read;
    while i < |lines|
      invariant 0 <= i <= |lines|
      invariant count == entries + i && shown == Window(read + lines[..i], maxEntries)
    {
      ShowNextLine(read, lines, i, maxEntries);
      shown := ShowLine(shown, count, maxEntries, lines[i]);
      count := count + 1;
      i := i + 1;
    }
    assert lines[..i] == lines;
  }

  class BufferShower {
    const maxEntries: int
    var entries: nat
    /** The read position in the buffer, counted in lines. */
    var offset: nat
    /** The lines the text widget shows. */
    var text: seq<string>
    /** Every line read so far. */
    ghost var history: seq<string>

    ghost predicate Valid()
      reads this
    {
      entries == |history| && text == Window(history, maxEntries)
    }

    constructor (maxEntries: int)
      ensures Valid()
      ensures this.maxEntries == maxEntries && entries == 0 && offset == 0 && text == [] && history == []
    {
      this.maxEntries := maxEntries;
      entries := 0;
      offset := 0;
      text := [];
      history := [];
    }

    /** callback: show each unread line, dropping the oldest once the count
        passes `max_entries`, then move the offset to the end read. */
    method Callback(buffer: seq<string>)
      requires Valid()
      modifies this
      ensures Valid()
      ensures history == old(history) + Unread(buffer, old(offset))
      ensures entries == old(entries) + |Unread(buffer, old(offset))|
      ensures offset == if old(offset) < |buffer| then |buffer| else old(offset)
      ensures |text| <= (if maxEntries < 0 then 0 else maxEntries) + 1
    {
      var lines := Unread(buffer, offset);
      text, entries := ShowLines(history, text, entries, maxEntries, lines);
      history := history + lines;
      if offset < |buffer| {
        offset := |buffer|;
      }
    }
  }
}
