# Todo-sort edit handler, modelled in Dafny

This project models the edit-event handler of an Obsidian plugin that keeps a
checklist sorted. On every `editor-change` event the handler (`src/main.ts`)
compares the editor's new text with the text it saw last time. It sorts the
todo items only when exactly one line changed and that change flipped the
mark of a checkbox line (`- [ ]` to `- [x]`, say). A guard state then stops
the sort from feeding on its own output. The guard state is three fields:
the previous editor text, the time of the last sort and the text that sort
produced.

The model has four parts:

- `Lines` (`lines.dfy`): a JavaScript string as a sequence of UTF-16 code
  units, and `split("\n")` with its inverse `join("\n")`.
- `TodoLine` (`todo_line.dfy`): the line grammar `/^(\s*- \[)(.)(\]\s*.*)$/`
  as an explicit matcher `ParseTodo` that returns (prefix, mark, suffix).
  Beside it is the same grammar stated as a relation (`Decomposes`), and the
  toggle test `IsToggle`. `\s` and `.` follow ECMAScript 2023 (ECMA-262):
  WhiteSpace (section 12.2) plus LineTerminator (section 12.3) for `\s`, and
  any code unit but a LineTerminator for `.`. `TodoExamples`
  (`todo_examples.dfy`) works through checking, unchecking and editing an item
  "- [m] text": checking and unchecking are toggles for any item text that
  holds no line terminator (CR, U+2028, U+2029), and checking while changing
  the text never is.
- `ChangeDetection` (`change_detection.dfy`): the line-by-line scan for the
  single changed line. It exists both as the `for` loop of the handler
  (`FindChangedLine`) and as a specification function (`ChangedLine`).
  `DetectToggle` is the whole classification. `FindChangedLine` also returns
  how many line pairs it compared, which makes the early exit at the second
  difference visible.
- `TodoSortPlugin` (`plugin.dfy`): the plugin object as a class. Its
  `OnEditorChange` and `SortTodos` methods update the three guard fields in
  place. Each method is proved equal to a pure step function (`HandleEdit`,
  `GuardedSort`), and the lemmas about the handler are stated on those.
  `Replay` runs the handler over a series of events.

The line grammar, as src/main.ts:59 writes it:

- The bullet `- ` before the bracket is required, not optional.
- The mark is one UTF-16 code unit that is not a line terminator. A mark
  written as a surrogate pair never matches.
- The text after `]` is whitespace followed by text without line terminators.
  So a line `- [ ] a` followed by a carriage return does not match, while
  `- [ ]` followed by a carriage return does.

## Model

| member | source | states |
|---|---|---|
| `Lines.Split` | src/main.ts:36-37 | splitting on "\n" always yields at least one line ("" gives one empty line) |
| `Lines.SplitLength` | src/main.ts:36-40 | a text with k line feeds splits into k + 1 lines, so the line-count test compares line-feed counts |
| `Lines.SplitPiecesHaveNoLineFeed` | src/main.ts:36-37 | no line produced by the split contains "\n" |
| `Lines.JoinSplit` | src/main.ts:36-37 | joining the split lines with "\n" gives back the text exactly |
| `Lines.SplitJoin` | src/main.ts:36-37 | splitting the join of lines without "\n" gives back those lines |
| `Lines.SplitInjective` | src/main.ts:36-44 | two texts with the same lines are equal, so "no line differs" means "text unchanged" |
| `Lines.JoinUpdateUnit` | src/main.ts:36-37 | overwriting one code unit of line i overwrites exactly one code unit of the joined text, at the line's offset |
| `TodoLine.IsLineTerminator` | src/main.ts:59 | the units `.` excludes: LF (the split separator) among them, while " ", "x" and "]" are not terminators |
| `TodoLine.IsWhiteSpace` | src/main.ts:59 | the units `\s` matches: every line terminator is one, and "-", "[" and "]" are not, which fixes where `\s*` stops (used by `WhiteSpaceRun` and `Decomposes`) |
| `TodoLine.WhiteSpaceRun` | src/main.ts:59 | the greedy `\s*`: every unit before the result is whitespace, the unit at it is not |
| `TodoLine.WhiteSpaceRunUnique` | src/main.ts:59 | a whitespace run ending before a non-whitespace unit is the greedy run |
| `TodoLine.TrailerFromSplit` | src/main.ts:59 | any split of the text after "]" into whitespace and terminator-free text is found by the greedy check |
| `TodoLine.ParseTodo` | src/main.ts:59-61 | when the matcher succeeds, line == prefix + [mark] + suffix, the prefix is whitespace then "- [", the mark is no line terminator, the suffix is "]", whitespace, then no line terminator |
| `TodoLine.ParseTodoComplete` | src/main.ts:59-65 | whenever a line matches the anchored grammar with some capture groups, the matcher returns exactly those groups |
| `TodoLine.ParseTodoIff` | src/main.ts:59-63 | the matcher succeeds if and only if the line matches the grammar |
| `TodoLine.DecompositionUnique` | src/main.ts:59-65 | the capture groups of a matching line are unique |
| `TodoLine.IsToggle` | src/main.ts:63-71 | a toggle keeps the line length and changes the line (characterised by `IsToggleIff`) |
| `TodoLine.IsToggleIff` | src/main.ts:60-71 | a toggle holds iff both lines match with the same prefix and suffix and different marks; a non-todo line on either side is never a toggle |
| `TodoLine.ToggleChangesOnlyTheMark` | src/main.ts:60-71 | a toggle keeps the length and changes exactly one code unit, the mark; an edit after "]" or in the indentation is never a toggle |
| `TodoLine.MarkFlipIsToggle` | src/main.ts:60-71 | writing any other non-terminator over the mark of a todo line is a toggle |
| `TodoExamples.ItemParses` | src/main.ts:59-64 | "- [m] text" splits into "- [", the mark m and "] text" when m and text hold no line terminator |
| `TodoExamples.CheckingIsToggle` | src/main.ts:63-72 | "- [ ] text" to "- [x] text" is a toggle when text holds no line terminator (CR, U+2028, U+2029) |
| `TodoExamples.UncheckingIsToggle` | src/main.ts:63-72 | "- [x] text" to "- [ ] text" is a toggle when text holds no line terminator (CR, U+2028, U+2029) |
| `TodoExamples.CheckingAndEditingIsNotToggle` | src/main.ts:63-72 | checking an item while changing its text ("- [ ] buy milk" to "- [x] buy bread") is not a toggle: the suffix test, or the failed match, rejects it |
| `ChangeDetection.DiffIndices` | src/main.ts:43-44 | lists, in increasing order, exactly the scanned indices whose old and new lines differ |
| `ChangeDetection.DiffIndicesExtend` | src/main.ts:43-49 | scanning further only appends differences |
| `ChangeDetection.ChangedLine` | src/main.ts:42-57 | a returned index is in range and its old and new lines differ |
| `ChangeDetection.ChangedLineSome` | src/main.ts:42-54 | an index i is found iff line i differs and every other line is equal |
| `ChangeDetection.ChangedLineNone` | src/main.ts:42-54 | nothing is found iff no line differs or two distinct lines differ |
| `ChangeDetection.FindChangedLine` | src/main.ts:42-54 | the loop returns the unique changed line or nothing, and stops right after the second difference (it compares all lines otherwise) |
| `ChangeDetection.DetectToggle` | src/main.ts:28-73 | a reported index lies in both line lists, which have equal length, and names a changed line (characterised by `DetectToggleIff`) |
| `ChangeDetection.DetectToggleIff` | src/main.ts:28-73 | a toggle at line i is detected iff the previous text is non-empty, both texts have the same number of lines, line i is a toggle and every other line is unchanged |
| `ChangeDetection.DetectToggleKeepsLineCount` | src/main.ts:36-40 | no toggle is detected unless both texts hold the same number of line feeds |
| `ChangeDetection.UnchangedIsNoToggle` | src/main.ts:52-54 | an event with unchanged text is never a toggle |
| `ChangeDetection.ToggleIsOneUnitEdit` | src/main.ts:36-71 | after a detected toggle at line i, the texts have the same length and differ in exactly one code unit, the mark of line i at its offset in the document |
| `TodoSortPlugin.LineMapAt` | src/main.ts:99 | `lineMap[line]` when the line is an index of the map, `undefined` (None) otherwise |
| `TodoSortPlugin.GuardedSort` | src/main.ts:79-105 | the editor is written iff the text differs from the last sorted text, 100 ms have passed and the sorter changes the text; otherwise nothing changes; after a write, the editor gets the sorter's output with the cursor on lineMap[cursor line] (undefined if out of range) and the same column, the previous and last sorted texts are that output and the last sort time is now |
| `TodoSortPlugin.HandleEdit` | src/main.ts:27-75 | every event leaves the previous text equal to what the editor then holds: the new text, or the sort's output (characterised by `HandleEditWritesIff`, `AppliedSort`, `NoWriteRecordsOnly`) |
| `TodoSortPlugin.HandleEditWritesIff` | src/main.ts:27-92 | the editor is written iff the edit is a toggle, the text is not the last sorted text, 100 ms have passed since the last sort and the sorter changes the text |
| `TodoSortPlugin.NoWriteRecordsOnly` | src/main.ts:28-92 | an event that does not sort changes only the previous editor text, which becomes the new text |
| `TodoSortPlugin.AppliedSort` | src/main.ts:89-103 | after a sort, editor text, previous text and last sorted text equal the sorter's output, the last sort time is now, and the cursor goes to lineMap[cursor line] (undefined if out of range) with the same column |
| `TodoSortPlugin.WriteKeepsLineCount` | src/main.ts:32-40 | a sort only follows an event with a previous text and an unchanged number of lines |
| `TodoSortPlugin.EchoIsQuiet` | src/main.ts:95-98 | the event caused by the plugin's own write neither sorts nor changes the state |
| `TodoSortPlugin.ReplaySortsAfterLastSort` | src/main.ts:85-95 | every sort in a series of events comes at least 100 ms after the last sort before the series |
| `TodoSortPlugin.ReplaySortsSpaced` | src/main.ts:85-95 | two sorts in one series of events are at least 100 ms apart by the event clock |
| `TodoSortPlugin.Plugin.constructor` | src/main.ts:26-78 | a new plugin has no previous text, no sorted text, and its last sort stamped with the load time |
| `TodoSortPlugin.Plugin.OnEditorChange` | src/main.ts:27-75 | the handler's new fields and editor write are those of `HandleEdit` on the old fields; the sort order is not changed |
| `TodoSortPlugin.Plugin.SortTodos` | src/main.ts:79-105 | the guarded sort's new fields and editor write are those of `GuardedSort` on the old fields |

## Left out

- Plugin lifecycle and host wiring (`onload`, `onunload`, `loadSettings`, `saveSettings`, the settings tab, the event registration, src/main.ts:8-24): host I/O and settings persistence.
- The sorter `sortTodos` of `./sort` is not part of this model. It is an uninterpreted function parameter returning an output text and a line map. Its ordering policy and whether the line map is a permutation are not modelled.
- The settings module and the sort-order type are not part of this model. The order is an opaque type parameter handed to the sorter unchanged.
- The diagnostics `console.error` and `console.log` (src/main.ts:86, 94).
- `Date`: the clock is one integer number of milliseconds per event, and the model stamps `lastSort` with that instant. The source reads the clock again after the sorter returns (src/main.ts:93), so it stamps the time after the sort. With a clock that never goes backwards, the spacing between sorts in the source is at least the spacing in the model.
- The editor API: `getValue` and `getCursor` become the handler's parameters, and `setValue` and `setCursor` become the returned `EditorWrite`. The second `getValue` inside the sort is the text the handler received, since the editor does not change in between. What the host does with an `undefined` cursor line is outside the model.
