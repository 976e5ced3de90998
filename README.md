# tk-steroids bookkeeping, modelled in Dafny

tk-steroids adds widgets and helpers on top of tkinter. Most of it is GUI plumbing.
This project models the bookkeeping underneath: the state the widgets keep and the
rules they apply to it. Widgets are replaced by that state: the rows of a listbox,
the pages currently gridded, the lines a text box shows, the entries of a menu. The
Python reflection the library relies on becomes plain input, and so do the values
the user sets through the GUI:

- `dir()`, `callable()` and the class source lines
- `inspect.signature`
- the `states` of a settings widget
- the values of the tickbox variables

Modules, one per source file:

- `Common` (`common.dfy`): the shared building blocks.
  - `Option`, `Result` and `Outcome`.
  - The exceptions the code raises, as an `Error` datatype.
  - An abstract Python value type.
  - Filtering and subsequences.
  - Python's negative list indexing (`PyIndex`).
- `MenuMaker` (`menumaker.dfy`): `tk_steroids/menumaker.py`.
  - Turns method names into menu labels.
  - Orders menu entries alphabetically, in definition order, by a custom callable, or by a forced prefix.
  - Scans the class source for definition order.
  - Has a connected/disconnected state with its error guards.
  - The `MenuMaker` class keeps the fields `_connect` and `_disconnect` update.
  - What reflection would return (`dir`, `callable`, the source lines, `_force_order`) is held in constant fields. `_force_order` returns None by default.
- `Routines` (`routines.dfy`): `tk_steroids/routines.py`. Covers `inspect_booleans` and `extend_keywords`, over parameter records that have a name, a kind and a default.
  - Python dictionaries, which keep insertion order, are sequences keyed by name (`Put`, `Merge`).
  - The decorated function is a `FunctionObject` whose `signature` is reassigned.
- `Settings` (`settings.dfy`): `tk_steroids/settings.py`. The `SettingsManager` registers elements under groups and merges their states.
- `Elements` (`elements.dfy`): `tk_steroids/elements.py`.
  - Listbox: the selection lookup, `_errorchecked` and `set_selections`.
  - Tabs: page switching.
  - BufferShower: the bounded line window.
- `Dialogs` (`dialogs.dfy`): `TickSelect`, the tick-selection dialog.
  - `tk_steroids/dialogs.py` and `tk_steroids/elements.py:99-184` hold the same class, line for line.
  - One model stands for both.
- `LegacyElements` (`legacy_elements.dfy`): the older top-level `elements.py`.
  - Listbox and Tabs, whose `button_pressed` has no callback.
  - Its `_errorchecked` (elements.py:48-59) is the same code as the newer one. It is modelled by `Elements.ErrorChecked`.

Python's exceptions are results:
- `ValueError`, `NotImplementedError`, `AttributeError` (from `getattr`) and `IndexError` are values of `Error`.
- A method that can raise returns an `Outcome` or a `Result`.
- Where the exception is raised part-way through, the contract states what the state is at that point.

Python's `list.sort` and `sorted` are stable. They are specified by insertion sorts (`SortLex`, `SortByKey`), and the model proves each one sorts, permutes and, for `sorted` with a key, keeps ties in input order. Any stable sort gives the same result.

## Model

| member | source | states |
|---|---|---|
| Common.PyIndex | tk_steroids/elements.py:272-275 | `pages[i]` resolves iff `-n <= i < n`, to `i` or `i + n` (negative indices count from the end) |
| MenuMaker.ReplaceCharPointwise | tk_steroids/menumaker.py:145-146 | `str.replace` of one character by one character keeps the length and maps each position on its own |
| MenuMaker.DefaultFancyName | tk_steroids/menumaker.py:136-148 | with `{'_': ' '}` the label has the name's length, its first letter upper-cased and every underscore turned into a space |
| MenuMaker.FancyNameExample | tk_steroids/menumaker.py:23 | "use_underscore_names" becomes "Use underscore names" |
| MenuMaker.LexLeTotal | tk_steroids/menumaker.py:164 | any two strings are ordered one way or the other by `<=` |
| MenuMaker.LexLeTransitive | tk_steroids/menumaker.py:164 | string `<=` is transitive |
| MenuMaker.InsertLexMultiset | tk_steroids/menumaker.py:164 | inserting a name adds exactly one occurrence of it and nothing else |
| MenuMaker.InsertLexSorted | tk_steroids/menumaker.py:164 | inserting into a sorted list keeps it sorted |
| MenuMaker.SortLexCorrect | tk_steroids/menumaker.py:163-164 | `method_names.sort()` yields a sorted permutation of the names |
| MenuMaker.FirstMatch | tk_steroids/menumaker.py:233-236 | `matches.index(True)`: the first name whose `def` the line contains, with none before it; or "no match" |
| MenuMaker.RemoveAtSpec | tk_steroids/menumaker.py:238 | `names_to_look.pop(index)` removes exactly the matched name and keeps the rest distinct |
| MenuMaker.ScanLineKeepsInvariant | tk_steroids/menumaker.py:232-238 | one scanned line preserves the scan invariant. Looked-for names are distinct, unkeyed and listed. Every name is keyed or still looked for. Keys are earlier lines that contain the name's `def`. No two names share a key |
| MenuMaker.ScanInvariantHolds | tk_steroids/menumaker.py:226-238 | the invariant holds after any number of lines, for distinct names |
| MenuMaker.DefinitionIndicesSound | tk_steroids/menumaker.py:226-238 | every keyed name is keyed by a source line holding its `def`, and no line keys two names |
| MenuMaker.ScanLineKeepsFound | tk_steroids/menumaker.py:232-238 | when no line holds two names' `def`s, a name whose `def` was scanned is keyed at or before that line, and stays so |
| MenuMaker.FoundInvariantHolds | tk_steroids/menumaker.py:226-238 | the same, after any number of lines |
| MenuMaker.KeyIsFirstDefinition | tk_steroids/menumaker.py:226-240 | when no line holds two names' `def`s, a name is keyed by the first line holding its `def`, and keyed -1 iff no line holds it |
| MenuMaker.MissingCharNotContained | tk_steroids/menumaker.py:233 | `sub in s` is false when `s` lacks a character of `sub` |
| MenuMaker.ThreeLineScan | tk_steroids/menumaker.py:232-238 | a line matching the first looked-for name keys it even when that line defines another name |
| MenuMaker.PrefixNameExample | tk_steroids/menumaker.py:218-240 | the substring test keys "a" by the line `def ab():`, so lines defining ab, c, a order the names ab, a, c |
| MenuMaker.PrefixNameSort | tk_steroids/menumaker.py:240 | the keys a:0, c:1 (ab missing, so -1) sort a, ab, c into ab, a, c |
| MenuMaker.InsertByKeyMultiset | tk_steroids/menumaker.py:240 | keyed insertion adds exactly the inserted name |
| MenuMaker.InsertByKeySorted | tk_steroids/menumaker.py:240 | keyed insertion keeps a list ordered by key |
| MenuMaker.InsertByKeyStable | tk_steroids/menumaker.py:240 | keyed insertion puts the name after every name with the same key |
| MenuMaker.SortByKeySorted | tk_steroids/menumaker.py:240 | `sorted(..., key=...)` orders by key |
| MenuMaker.SortByKeyMultiset | tk_steroids/menumaker.py:240 | `sorted(..., key=...)` is a permutation |
| MenuMaker.SortByKeyStable | tk_steroids/menumaker.py:240 | names sharing a key keep their input order |
| MenuMaker.SortByKeyCorrect | tk_steroids/menumaker.py:240 | the three properties together |
| MenuMaker.SortByDefinitionCorrect | tk_steroids/menumaker.py:226-240 | definition order is a permutation. Unfound names (key -1) come first. Found names follow by line. Ties keep input order |
| MenuMaker.NonNegativeKeys | tk_steroids/menumaker.py:237 | every recorded key is a line number of the source |
| MenuMaker.OrderNamesPermutes | tk_steroids/menumaker.py:163-168 | every named order permutes the names. "alphabetical" sorts them. An unlisted string leaves them as listed, so a listing in `dir()`'s alphabetical order stays alphabetical. Under "as_defined", the unfound names that come first are alphabetical when the listing is |
| MenuMaker.InsertByKeyTies | tk_steroids/menumaker.py:240 | inserting a name no other name exceeds keeps names with equal keys in alphabetical order |
| MenuMaker.SortByKeyTies | tk_steroids/menumaker.py:240 | `sorted(..., key=...)` of an alphabetical list leaves names with equal keys alphabetical |
| MenuMaker.PublicCallablesSpec | tk_steroids/menumaker.py:160-161 | a name is listed iff it is in `dir()`, callable and not underscore-prefixed; the listing keeps `dir()` order |
| MenuMaker.PublicCallablesSorted | tk_steroids/menumaker.py:160-161 | since `dir()` is alphabetical, so is the listing |
| MenuMaker.NotForcedSpec | tk_steroids/menumaker.py:92 | the names appended after the forced list are exactly the listed names it misses, in listing order |
| MenuMaker.MenuNamesSpec | tk_steroids/menumaker.py:82-92 | without a forced order all listed names are used. With one, the forced list is a prefix, the rest is a subsequence of the listing, and every listed name appears |
| MenuMaker.AddedItemsSpec | tk_steroids/menumaker.py:95-110 | one recorded item and one menu entry per name. A separator for "." records its own index in the Tk menu, counting the tear-off entry. Any other name gets a command labelled with its fancy name |
| MenuMaker.FirstUnresolved | tk_steroids/menumaker.py:95-105 | the first name that is neither "." nor an attribute (where `getattr` raises), with every name before it resolvable |
| MenuMaker.MenuMaker.constructor | tk_steroids/menumaker.py:57-68 | a new menu maker is unconnected, with no added items, replacements `{'_': ' '}` and order "as_defined" by default. What `dir()` returns is distinct, non-empty and alphabetical |
| MenuMaker.MenuMaker.FancyName | tk_steroids/menumaker.py:136-148 | the loop computes the fancy name of the replacement dictionary in its order |
| MenuMaker.MenuMaker.SortByDefinitionOrder | tk_steroids/menumaker.py:214-240 | the scan loop and the keyed sort compute the definition order |
| MenuMaker.MenuMaker.ListItems | tk_steroids/menumaker.py:152-173 | the ordered listing. With fancy names: same length and order, each mapped through the fancy name, and IndexError iff some name is empty. Without fancy names, under "alphabetical" or an unlisted string, the listing is alphabetical |
| MenuMaker.MenuMaker.Connect | tk_steroids/menumaker.py:71-112 | connects to the parent. It adds the entries and items for the names up to the first unresolvable one, which raises AttributeError |
| MenuMaker.MenuMaker.BuildMenu | tk_steroids/menumaker.py:95-110 | the loop stops at the first unresolvable name, and what it collects is the entries and items of the names before it |
| MenuMaker.MenuMaker.Disconnect | tk_steroids/menumaker.py:116-132 | ValueError with nothing changed when unconnected; otherwise all three connection fields are reset |
| MenuMaker.MenuMaker.Enable | tk_steroids/menumaker.py:177-185 | always raises: ValueError iff unconnected, NotImplementedError otherwise |
| MenuMaker.MenuMaker.Disable | tk_steroids/menumaker.py:189-196 | always raises: ValueError iff unconnected, NotImplementedError otherwise |
| Routines.BoolOptionsSpec | tk_steroids/routines.py:26-30 | a parameter is reported iff it is positional-or-keyword or keyword-only, has a bool default and is not excluded; reported ones keep signature order |
| Routines.InspectBooleans | tk_steroids/routines.py:5-33 | the two lists have equal length. `options[i]` is the name of the i-th reported parameter and `defaults[i]` is its bool default |
| Routines.TestFunctionOptions | examples/settings_manager.py:7-11 | only `test_function_key1` (False) and `test_function_key2` (True) are reported; the int, str and missing defaults are not |
| Routines.PutFresh | tk_steroids/routines.py:74 | assigning a new key to a dict appends it |
| Routines.MergeFresh | tk_steroids/routines.py:87 | `{**d, **e}` with disjoint keys is `d` followed by `e` |
| Routines.BorrowedSpec | tk_steroids/routines.py:80-82 | a source parameter is added iff it is positional-or-keyword and its name is not the target's. It becomes keyword-only and names stay distinct |
| Routines.ExtendedKeepsTarget | tk_steroids/routines.py:72-87 | the new signature is: the target's parameters other than `**kwargs`, in order; then the borrowed ones; then `**kwargs` |
| Routines.ExtendedUniqueNames | tk_steroids/routines.py:86-87 | the new signature has distinct names |
| Routines.ExtendedKindsOrdered | tk_steroids/routines.py:86-87 | the new signature keeps parameter kinds in the order `inspect` requires |
| Routines.ExtendedWellFormed | tk_steroids/routines.py:86-87 | from valid signatures the decorator builds a valid one |
| Routines.SplitByKind | tk_steroids/routines.py:72-76 | the target loop fills the two dictionaries with the non-`**kwargs` and the `**kwargs` parameters, in order |
| Routines.AddBorrowed | tk_steroids/routines.py:80-82 | the source loop appends exactly the borrowed parameters |
| Routines.ExtendedParameters | tk_steroids/routines.py:63-87 | the body of `extended` computes the extended signature |
| Routines.ExtendKeywords | tk_steroids/routines.py:36-92 | the same function object is returned, with only its signature replaced by the extended one |
| Settings.UnionSpec | tk_steroids/settings.py:158-160 | the merged dict has exactly the keys of the merged dicts; each takes the value of the last dict holding it |
| Settings.GroupSettingsSpec | tk_steroids/settings.py:159-160 | a group's settings hold every option of its elements, with the value of the last element that has it |
| Settings.GroupSettingsAppend | tk_steroids/settings.py:159-160 | one more element puts its states over the group's settings |
| Settings.MergeStates | tk_steroids/settings.py:158-160 | the inner `update` loop computes the group's settings |
| Settings.RegisterSpec | tk_steroids/settings.py:47-50 | registering changes only its group's settings, by the element's states; other groups are untouched |
| Settings.SettingsManager.constructor | tk_steroids/settings.py:33-44 | a new manager has no groups |
| Settings.SettingsManager.AddSetting | tk_steroids/settings.py:47-50 | the group's list is created on first use and the element appended; other groups are unchanged |
| Settings.SettingsManager.AddTickboxes | tk_steroids/settings.py:53-73 | a new tickbox element is registered under the group and returned |
| Settings.SettingsManager.AddSliders | tk_steroids/settings.py:101-123 | a new slider element is registered under the group and returned |
| Settings.SettingsManager.AddTickboxesInspect | tk_steroids/settings.py:76-98 | the options and defaults `inspect_booleans` finds are passed on unchanged |
| Settings.SettingsManager.GetCurrent | tk_steroids/settings.py:146-162 | one entry per registered group, holding its merged settings; nothing is modified |
| Elements.ErrorChecked | tk_steroids/elements.py:52-63 | the callback is called at most once, iff an object is selected and it is not None, and with that object |
| Elements.Listbox.constructor | tk_steroids/elements.py:15-44 | the listbox starts with its selections as rows, uncoloured, with nothing selected |
| Elements.Listbox.GetCurrent | tk_steroids/elements.py:92-97 | the selected object, or None when the lookup fails |
| Elements.Listbox.SetSelections | tk_steroids/elements.py:65-81 | the selections are replaced and the rows are exactly the new list, coloured when colours are given. A colour list too short raises IndexError after inserting the first uncoloured row |
| Elements.TabCount | tk_steroids/elements.py:243 | `zip` yields as many pairs as the shorter list |
| Elements.MakeTabs | tk_steroids/elements.py:243-251 | one button label and one page per zipped pair, in order |
| Elements.Tabs.constructor | tk_steroids/elements.py:201-257 | `i_current` is 0, page 0 alone is gridded, and there is one button and one page per pair |
| Elements.Tabs.GetElements | tk_steroids/elements.py:278-282 | the pages, one per tab, in construction order |
| Elements.Tabs.SetPage | tk_steroids/elements.py:260-275 | sets `i_current` and calls the callback with it, before either lookup. Hides the old page and shows the new one. IndexError at the first out-of-range lookup |
| Elements.CreateTabs | tk_steroids/elements.py:239-254 | IndexError iff `zip` yields no pair. Otherwise a new Tabs with one button per zipped name, one page per zipped class, the callback flag given, `i_current` 0, page 0 alone gridded and no callback calls |
| Elements.ShownCount | tk_steroids/elements.py:349-354 | the text never shows more lines than were read, nor more than `max_entries + 1` |
| Elements.WindowSpec | tk_steroids/elements.py:344-354 | the text is the latest lines read, at most `max_entries + 1` of them, and all of them while no more were read |
| Elements.ShowLineKeepsWindow | tk_steroids/elements.py:349-354 | showing one line (dropping the oldest once `entries > max_entries`) keeps the text equal to the window of the lines read |
| Elements.ShowNextLine | tk_steroids/elements.py:347-354 | showing the next unread line extends the window by that line |
| Elements.ShowLines | tk_steroids/elements.py:347-354 | the loop counts every line read and leaves the window of all lines read |
| Elements.BufferShower.constructor | tk_steroids/elements.py:326-342 | no entries, offset 0, empty text |
| Elements.BufferShower.Callback | tk_steroids/elements.py:344-358 | each unread line is read once and counted. The text stays the window. The offset moves to the end of what was read |
| Dialogs.TicksSpec | tk_steroids/elements.py:144-153 | one variable per selection, 1 exactly for the selections listed in `ticked` |
| Dialogs.ChosenSpec | tk_steroids/elements.py:173-177 | a selection is made iff its variable is 1; the made selections keep selection order |
| Dialogs.TickedPositionsSpec | tk_steroids/elements.py:173-175 | the ticked positions are exactly the positions whose variable is 1, strictly increasing |
| Dialogs.ChosenAtPositions | tk_steroids/elements.py:173-177 | the made selections are the selections at the ticked positions, one per position, in position order |
| Dialogs.UntouchedOk | tk_steroids/elements.py:144-177 | Ok before any tickbox is touched passes exactly the ticked selections, in order |
| Dialogs.InitialTicks | tk_steroids/dialogs.py:48-57 | the construction loop sets the variables to their initial ticks |
| Dialogs.TickSelect.constructor | tk_steroids/dialogs.py:10-64 | stores the options and starts with the initial ticks, one per selection, undestroyed, with no calls |
| Dialogs.TickSelect.MadeSelections | tk_steroids/dialogs.py:77-81 | with one variable per selection, the loop over the zipped variables and selections collects the made selections |
| Dialogs.TickSelect.OnOk | tk_steroids/dialogs.py:72-88 | exactly one callback call, with the made selections, then the extra arguments. The toplevel is destroyed iff `close_on_ok` |
| LegacyElements.Listbox.constructor | elements.py:15-46 | the listbox starts with its selections as rows and nothing selected |
| LegacyElements.Listbox.SetSelections | elements.py:61-69 | selections replaced; rows exactly the new list |
| LegacyElements.Tabs.constructor | elements.py:75-102 | `current` is 0, page 0 alone is gridded, and one button and one page per zipped pair |
| LegacyElements.Tabs.GetElements | elements.py:111-115 | page i is made from class i, in construction order |
| LegacyElements.Tabs.ButtonPressed | elements.py:104-109 | hides the current page, sets `current`, shows the new page. An out-of-range current raises IndexError before anything changes. An out-of-range argument raises after `current` was set |
| LegacyElements.NewTabs | elements.py:91-102 | IndexError iff `zip` yields no pair. Otherwise a new Tabs with one button per zipped name, one page per zipped class, the given classes, `current` 0 and page 0 alone gridded |

## Left out

- Widget construction and all `grid`/layout calls. Event binding, scrollbars, `PhotoImage`/`Canvas` drawing and the `after()` polling loops are left out too. They are GUI and event-loop plumbing. Only the state they carry is modelled.
- Reflection is not modelled. `dir`, `callable`, `getattr`, `inspect.getsourcelines` and `inspect.signature` are foreign runtime calls. Their results are inputs: constant fields of `MenuMaker.MenuMaker`, and `seq<Param>` arguments in `Routines`.
- The parent menu's `add_cascade` in `_connect` and `delete` in `_disconnect`, and the deletion of the added items, are left out. The Tk menu is a value (`TkMenu`) and the parent an identity. `_connect`'s extra keyword arguments to `tk.Menu` are reduced to `tearoff`, the one that changes the entry indices.
- MenuMaker.Upper: `str.upper` is modelled on ASCII letters only, because Unicode case mapping (which can change a string's length) is outside the model.
- The list returned by an overridden `_force_order` is extended in place by `+=`. The model builds a new list, so that aliasing is not captured.
- The `print` call at elements.py:105 is left out.
- `add_sliders_inspect` and `inspect_types` are left out. `TickboxFrame`, `SliderFrame` and `inspect_types` are not part of this model.
- The element `states` are opaque maps given when an element is created. The user changes them through the widget, which the model does not show. `**kwargs` beyond `defaults` are not modelled.
- BufferShower reads the buffer through StringIO's `seek` and `tell`. The model reads it line by line, with the offset counted in lines rather than characters. Tk text indices and `yview` are not modelled.
- Tk's validation of colours (a `TclError` for an unknown colour) is left out.
- The callbacks' own behaviour is left out. They are recorded as calls. A callback that raises, which would stop `on_ok` before `destroy`, is not modelled.
- `callback_kwargs` is an ordered list of pairs rather than a dict.
- Elements.Tabs.constructor and LegacyElements.Tabs.constructor require at least one (name, element) pair. With none, the source raises IndexError when gridding the first page. That case is modelled by Elements.CreateTabs and LegacyElements.NewTabs.
- Routines.ExtendedParameters and Routines.ExtendKeywords require distinct parameter names in both signatures. `inspect.signature` always yields distinct names.
- MenuMaker.KeyIsFirstDefinition assumes no source line holds the `def` of two of the names. The scan tests `'def ' + name in line` as a substring, so "def a" also matches a line defining `ab`. MenuMaker.PrefixNameExample shows the resulting misordering. The docstring at tk_steroids/menumaker.py:218-219 accepts such wrong orderings.
- `colors.py` (float hue arithmetic and pixel writes), `matplotlib.py`, `setup.py` and the example scripts are outside the modelled core. The exception is the `test_function` signature used in Routines.TestFunctionOptions.
- The other widgets in tk_steroids/elements.py are not part of this model: `ButtonsFrame`, `Listbox.enable`/`disable` and the image and slider widgets.
