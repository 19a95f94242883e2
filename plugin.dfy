/**
 * The edit-event handler of the todo-sort plugin and the state that guards
 * its sort against feedback loops: the previous editor text, the time of the
 * last sort and the text that sort produced.
 *
 * The sorter itself (`sortTodos` of the `sort` module) and the sort-order
 * setting are not part of this model: the sorter is an uninterpreted
 * function from a text and an order to an output text and a line map, and
 * the order is an opaque type parameter. The clock is an integer number of
 * milliseconds supplied with each event, and the editor is reduced to the
 * text and cursor the handler reads and the text and cursor it writes back.
 */
module TodoSortPlugin {
  import opened Wrappers
  import opened Lines
  import opened TodoLine
  import opened ChangeDetection

  /** A cursor as `editor.getCursor()` reports it. */
  datatype Position = Position(line: int, ch: int)

  /** What `sortTodos` returns: the sorted text and, per original line, its new line number. */
  datatype SortResult = SortResult(output: Text, lineMap: seq<int>)

  /** The cursor passed to `editor.setCursor`; `line` is `None` when the line map has no entry (`undefined`). */
  datatype CursorTarget = CursorTarget(line: Option<int>, ch: int)

  /** The plugin's writes to the editor after a sort: `setValue` then `setCursor`. */
  datatype EditorWrite = EditorWrite(value: Text, cursor: CursorTarget)

  /** The three fields the handler keeps between events. */
  datatype GuardState = GuardState(previousEditorValue: Text, lastSort: int, lastSortedValue: Text)

  /** The state after an event and what, if anything, was written to the editor. */
  datatype Outcome = Outcome(guard: GuardState, write: Option<EditorWrite>)

  /** One `editor-change` notification: the editor's text and cursor, and the clock. */
  datatype Event = Event(value: Text, cursor: Position, now: int)

  /** Sorts closer together than this many milliseconds are taken for a runaway loop. */
  const MinSortIntervalMs: int := 100

  /** `lineMap[line]`, or `None` where JavaScript would read `undefined`. */
  function LineMapAt(lineMap: seq<int>, line: int): (r: Option<int>)
    ensures r.Some? <==> 0 <= line < |lineMap|
    ensures r.Some? ==> r.value == lineMap[line]
  {
    if 0 <= line < |lineMap| then Some(lineMap[line]) else None
  }

  /** The guarded sort of `_sortTodos`, on the current editor text `value`. */
  function GuardedSort<Order>(st: GuardState, value: Text, cursor: Position, now: int,
                              order: Order, sortTodos: (Text, Order) -> SortResult): (r: Outcome)
    ensures r.write.None? ==> r.guard == st
    ensures r.write.Some? ==> value != st.lastSortedValue && now - st.lastSort >= MinSortIntervalMs
    ensures r.write.Some? ==> r.guard.lastSort == now && r.write.value.value != value
    ensures r.write.Some? ==>
      r.guard == GuardState(sortTodos(value, order).output, now, sortTodos(value, order).output)
    ensures (value != st.lastSortedValue && now - st.lastSort >= MinSortIntervalMs &&
             sortTodos(value, order).output != value) ==> r.write.Some?
    ensures r.write.Some? ==>
      r.write.value == EditorWrite(sortTodos(value, order).output,
                                   CursorTarget(LineMapAt(sortTodos(value, order).lineMap, cursor.line), cursor.ch))
  {
    if value == st.lastSortedValue then Outcome(st, None)
    else if now - st.lastSort < MinSortIntervalMs then Outcome(st, None)
    else
      var result := sortTodos(value, order);
      if result.output == value then Outcome(st, None)
      else
        Outcome(GuardState(result.output, now, result.output),
                Some(EditorWrite(result.output, CursorTarget(LineMapAt(result.lineMap, cursor.line), cursor.ch))))
  }

  /** The whole `_onEditorChange` handler. */
  function HandleEdit<Order>(st: GuardState, newValue: Text, cursor: Position, now: int,
                             order: Order, sortTodos: (Text, Order) -> SortResult): (r: Outcome)
    ensures r.guard.previousEditorValue == if r.write.Some? then r.write.value.value else newValue
  {
    var recorded := st.(previousEditorValue := newValue);
    if DetectToggle(st.previousEditorValue, newValue).Some? then
      GuardedSort(recorded, newValue, cursor, now, order, sortTodos)
    else Outcome(recorded, None)
  }

  /** The handler run over a series of events, one outcome per event. */
  function Replay<Order>(st: GuardState, events: seq<Event>,
                         order: Order, sortTodos: (Text, Order) -> SortResult): (outs: seq<Outcome>)
    ensures |outs| == |events|
    decreases |events|
  {
    if events == [] then []
    else
      var first := HandleEdit(st, events[0].value, events[0].cursor, events[0].now, order, sortTodos);
      [first] + Replay(first.guard, events[1..], order, sortTodos)
  }

  /**
   * The editor is written exactly when the edit is a single-line toggle, the
   * text is not the one the last sort produced, at least 100 ms have passed
   * since the last sort, and the sorter changes the text.
   */
  lemma HandleEditWritesIff<Order>(st: GuardState, newValue: Text, cursor: Position, now: int,
                                   order: Order, sortTodos: (Text, Order) -> SortResult)
    ensures HandleEdit(st, newValue, cursor, now, order, sortTodos).write.Some? <==>
      && DetectToggle(st.previousEditorValue, newValue).Some?
      && newValue != st.lastSortedValue
      && now - st.lastSort >= MinSortIntervalMs
      && sortTodos(newValue, order).output != newValue
  {
  }

  /**
   * When nothing is written, only the previous editor text changes, and it
   * becomes the new text; this covers the first event, a change of line
   * count, zero or several changed lines, an edit that is not a toggle, and
   * the three guards of the sort.
   */
  lemma NoWriteRecordsOnly<Order>(st: GuardState, newValue: Text, cursor: Position, now: int,
                                  order: Order, sortTodos: (Text, Order) -> SortResult)
    requires HandleEdit(st, newValue, cursor, now, order, sortTodos).write.None?
    ensures HandleEdit(st, newValue, cursor, now, order, sortTodos).guard == st.(previousEditorValue := newValue)
  {
  }

  /**
   * After a sort is applied, the editor, the previous text and the last
   * sorted text all hold the sorter's output, the last sort time is `now`,
   * and the cursor moves to the line the line map gives, same column.
   */
  lemma AppliedSort<Order>(st: GuardState, newValue: Text, cursor: Position, now: int,
                           order: Order, sortTodos: (Text, Order) -> SortResult)
    requires HandleEdit(st, newValue, cursor, now, order, sortTodos).write.Some?
    ensures var out := HandleEdit(st, newValue, cursor, now, order, sortTodos);
      var result := sortTodos(newValue, order);
      && out.write.value.value == result.output != newValue
      && out.guard == GuardState(result.output, now, result.output)
      && out.write.value.cursor.ch == cursor.ch
      && (0 <= cursor.line < |result.lineMap| ==> out.write.value.cursor.line == Some(result.lineMap[cursor.line]))
      && (!(0 <= cursor.line < |result.lineMap|) ==> out.write.value.cursor.line == None)
  {
  }

  /** A sort is only ever applied after an edit that kept the number of lines. */
  lemma WriteKeepsLineCount<Order>(st: GuardState, newValue: Text, cursor: Position, now: int,
                                   order: Order, sortTodos: (Text, Order) -> SortResult)
    requires HandleEdit(st, newValue, cursor, now, order, sortTodos).write.Some?
    ensures st.previousEditorValue != []
    ensures LineFeeds(st.previousEditorValue) == LineFeeds(newValue)
  {
    DetectToggleKeepsLineCount(st.previousEditorValue, newValue);
  }

  /**
   * The editor-change event caused by the plugin's own write carries the
   * sorted text; it neither sorts again nor changes the state.
   */
  lemma EchoIsQuiet<Order>(st: GuardState, newValue: Text, cursor: Position, now: int,
                           order: Order, sortTodos: (Text, Order) -> SortResult,
                           cursor': Position, now': int)
    requires HandleEdit(st, newValue, cursor, now, order, sortTodos).write.Some?
    ensures var out := HandleEdit(st, newValue, cursor, now, order, sortTodos);
      HandleEdit(out.guard, out.write.value.value, cursor', now', order, sortTodos) == Outcome(out.guard, None)
  {
    var out := HandleEdit(st, newValue, cursor, now, order, sortTodos);
    UnchangedIsNoToggle(out.write.value.value);
  }

  /** Every sort in a series of events comes at least 100 ms after the last sort before the series. */
  lemma {:induction false} ReplaySortsAfterLastSort<Order>(st: GuardState, events: seq<Event>,
                                                          order: Order, sortTodos: (Text, Order) -> SortResult)
    ensures var outs := Replay(st, events, order, sortTodos);
      forall j :: 0 <= j < |events| && outs[j].write.Some? ==> events[j].now - st.lastSort >= MinSortIntervalMs
    decreases |events|
  {
    if events != [] {
      var first := HandleEdit(st, events[0].value, events[0].cursor, events[0].now, order, sortTodos);
      var rest := Replay(first.guard, events[1..], order, sortTodos);
      ReplaySortsAfterLastSort(first.guard, events[1..], order, sortTodos);
      var outs := Replay(st, events, order, sortTodos);
      forall j | 0 <= j < |events| && outs[j].write.Some?
        ensures events[j].now - st.lastSort >= MinSortIntervalMs
      {
        if j > 0 {
          assert outs[j] == rest[j - 1] && events[j] == events[1..][j - 1];
        }
      }
    }
  }

  /**
   * The rate guard: two sorts applied in one series of events are at least
   * 100 ms apart by the event clock, even if the clock goes backwards.
   */
  lemma {:induction false} ReplaySortsSpaced<Order>(st: GuardState, events: seq<Event>,
                                                   order: Order, sortTodos: (Text, Order) -> SortResult)
    ensures var outs := Replay(st, events, order, sortTodos);
      forall i, j :: 0 <= i < j < |events| && outs[i].write.Some? && outs[j].write.Some? ==>
        events[j].now - events[i].now >= MinSortIntervalMs
    decreases |events|
  {
    if events != [] {
      var first := HandleEdit(st, events[0].value, events[0].cursor, events[0].now, order, sortTodos);
      var rest := Replay(first.guard, events[1..], order, sortTodos);
      ReplaySortsSpaced(first.guard, events[1..], order, sortTodos);
      ReplaySortsAfterLastSort(first.guard, events[1..], order, sortTodos);
      var outs := Replay(st, events, order, sortTodos);
      forall i, j | 0 <= i < j < |events| && outs[i].write.Some? && outs[j].write.Some?
        ensures events[j].now - events[i].now >= MinSortIntervalMs
      {
        assert outs[j] == rest[j - 1] && events[j] == events[1..][j - 1];
        if i > 0 {
          assert outs[i] == rest[i - 1] && events[i] == events[1..][i - 1];
        }
      }
    }
  }

  /**
   * The plugin object. `sortTodos` is the imported sorter and `settings` the
   * sort order; the three guard fields are updated in place by the handler.
   */
  class Plugin<Order> {
    var settings: Order
    const sortTodos: (Text, Order) -> SortResult
    var previousEditorValue: Text
    var lastSort: int
    var lastSortedValue: Text

    function Guard(): GuardState
      reads this
    {
      GuardState(previousEditorValue, lastSort, lastSortedValue)
    }

    /** The plugin as loaded at time `loadTime`: no previous text, and the last sort stamped with the load time. */
    constructor(settings: Order, sortTodos: (Text, Order) -> SortResult, loadTime: int)
      ensures this.settings == settings && this.sortTodos == sortTodos
      ensures Guard() == GuardState([], loadTime, [])
    {
      this.settings := settings;
      this.sortTodos := sortTodos;
      previousEditorValue := [];
      lastSort := loadTime;
      lastSortedValue := [];
    }

    /** `_onEditorChange`: the editor now holds `newValue` with the cursor at `cursor`. */
    method OnEditorChange(newValue: Text, cursor: Position, now: int) returns (write: Option<EditorWrite>)
      modifies this`previousEditorValue, this`lastSort, this`lastSortedValue
      ensures Outcome(Guard(), write) == HandleEdit(old(Guard()), newValue, cursor, now, settings, sortTodos)
    {
      var oldValue := previousEditorValue;
      previousEditorValue := newValue;
      write := None;

      if oldValue == [] {
        return;
      }

      var newLines := Split(newValue);
      var oldLines := Split(oldValue);
      if |newLines| != |oldLines| {
        return;
      }

      var changed, _ := FindChangedLine(oldLines, newLines);
      if changed.None? {
        return;
      }

      var newLine := newLines[changed.value];
      var oldLine := oldLines[changed.value];
      var newLineMatch := ParseTodo(newLine);
      var oldLineMatch := ParseTodo(oldLine);
      if newLineMatch.Some? && oldLineMatch.Some? {
        var n, o := newLineMatch.value, oldLineMatch.value;
        if n.prefix == o.prefix && n.suffix == o.suffix && n.mark != o.mark {
          write := SortTodos(newValue, cursor, now);
        }
      }
    }

    /** `_sortTodos`: the editor holds `value`; sort it unless a guard says not to. */
    method SortTodos(value: Text, cursor: Position, now: int) returns (write: Option<EditorWrite>)
      modifies this`previousEditorValue, this`lastSort, this`lastSortedValue
      ensures Outcome(Guard(), write) == GuardedSort(old(Guard()), value, cursor, now, settings, sortTodos)
    {
      if value == lastSortedValue {
        return None;
      }
      if now - lastSort < MinSortIntervalMs {
        return None;
      }
      var lineNumber := cursor.line;
      var result := sortTodos(value, settings);
      if result.output != value {
        lastSort := now;
        lastSortedValue := result.output;
        previousEditorValue := result.output;
        var newLine := LineMapAt(result.lineMap, lineNumber);
        return Some(EditorWrite(result.output, CursorTarget(newLine, cursor.ch)));
      }
      return None;
    }
  }
}
