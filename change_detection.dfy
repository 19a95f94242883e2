/**
 * The first half of the edit handler: compare the previous and the current
 * document line by line and decide whether the edit flipped the mark of a
 * single todo line.
 */
module ChangeDetection {
  import opened Wrappers
  import opened Lines
  import opened TodoLine

  /** The indices below `n` at which the two line sequences differ, in increasing order. */
  function DiffIndices(a: seq<Text>, b: seq<Text>, n: nat): (d: seq<nat>)
    requires |a| == |b| && n <= |a|
    ensures forall x {:trigger x in d} :: x in d <==> 0 <= x < n && a[x] != b[x]
    ensures Increasing(d)
  {
    if n == 0 then []
    else
      var earlier := DiffIndices(a, b, n - 1);
      assert forall k :: 0 <= k < |earlier| ==> earlier[k] in earlier;
      earlier + (if a[n - 1] != b[n - 1] then [n - 1] else [])
  }

  predicate Increasing(d: seq<nat>)
  {
    forall i, j :: 0 <= i < j < |d| ==> d[i] < d[j]
  }

  /** The first two entries of an increasing sequence differ. */
  lemma IncreasingHeadsDiffer(d: seq<nat>)
    requires Increasing(d)
    ensures |d| >= 2 ==> d[0] != d[1]
  {
  }

  /** Scanning further only appends to the differences found so far. */
  lemma {:induction false} DiffIndicesExtend(a: seq<Text>, b: seq<Text>, m: nat, n: nat)
    requires |a| == |b| && m <= n <= |a|
    ensures DiffIndices(a, b, m) <= DiffIndices(a, b, n)
  {
    if m < n {
      DiffIndicesExtend(a, b, m, n - 1);
      assert DiffIndices(a, b, n - 1) <= DiffIndices(a, b, n);
    }
  }

  /** The one line index at which the documents differ, or `None` when no line or several lines differ. */
  function ChangedLine(a: seq<Text>, b: seq<Text>): (r: Option<nat>)
    requires |a| == |b|
    ensures r.Some? ==> r.value < |a| && a[r.value] != b[r.value]
  {
    var d := DiffIndices(a, b, |a|);
    if |d| == 1 then
      assert d[0] in d;
      Some(d[0])
    else None
  }

  /** `ChangedLine` finds `i` exactly when line `i` differs and every other line is equal. */
  lemma ChangedLineSome(a: seq<Text>, b: seq<Text>, i: nat)
    requires |a| == |b|
    ensures ChangedLine(a, b) == Some(i) <==>
      i < |a| && a[i] != b[i] && forall j :: 0 <= j < |a| && j != i ==> a[j] == b[j]
  {
    var d := DiffIndices(a, b, |a|);
    if ChangedLine(a, b) == Some(i) {
      forall j | 0 <= j < |a| && j != i ensures a[j] == b[j] {
        assert a[j] != b[j] ==> j in d;
      }
    }
    if i < |a| && a[i] != b[i] && forall j :: 0 <= j < |a| && j != i ==> a[j] == b[j] {
      assert i in d;
      assert d == [i] by {
        forall k | 0 <= k < |d| ensures d[k] == i {
          assert d[k] in d;
        }
        IncreasingHeadsDiffer(d);
      }
    }
  }

  /** `ChangedLine` gives up exactly when no line differs or two lines differ. */
  lemma ChangedLineNone(a: seq<Text>, b: seq<Text>)
    requires |a| == |b|
    ensures ChangedLine(a, b) == None <==>
      a == b || exists j, k :: 0 <= j < k < |a| && a[j] != b[j] && a[k] != b[k]
  {
    var d := DiffIndices(a, b, |a|);
    if |d| == 0 {
      assert a == b by {
        forall j | 0 <= j < |a| ensures a[j] == b[j] {
          assert a[j] != b[j] ==> j in d;
        }
      }
    } else if |d| >= 2 {
      assert d[0] in d && d[1] in d && d[0] < d[1];
    } else {
      assert d[0] in d;
      ChangedLineSome(a, b, d[0]);
    }
  }

  /**
   * The scan of the handler's `for` loop. It stops at the second differing
   * line; `scanned` is the number of line pairs it compared.
   */
  method FindChangedLine(oldLines: seq<Text>, newLines: seq<Text>) returns (changed: Option<nat>, scanned: nat)
    requires |oldLines| == |newLines|
    ensures changed == ChangedLine(oldLines, newLines)
    ensures var d := DiffIndices(oldLines, newLines, |newLines|);
      scanned == if |d| >= 2 then d[1] + 1 else |newLines|
  {
    var changedLineIndex := -1;
    for i := 0 to |newLines|
      invariant var d := DiffIndices(oldLines, newLines, i);
        if changedLineIndex == -1 then d == [] else 0 <= changedLineIndex && d == [changedLineIndex]
    {
      if newLines[i] != oldLines[i] {
        if changedLineIndex != -1 {
          // More than one line changed
          DiffIndicesExtend(oldLines, newLines, i + 1, |newLines|);
          return None, i + 1;
        }
        changedLineIndex := i;
      }
    }
    if changedLineIndex == -1 {
      return None, |newLines|;
    }
    return Some(changedLineIndex), |newLines|;
  }

  /**
   * The whole classification: the index of the toggled line, or `None` when
   * the edit is not a single checkbox toggle. An empty previous text (the
   * first event, or a document that was empty) is never a toggle.
   */
  function DetectToggle(oldValue: Text, newValue: Text): (r: Option<nat>)
    ensures r.Some? ==> oldValue != [] && r.value < |Split(oldValue)| == |Split(newValue)|
    ensures r.Some? ==> Split(oldValue)[r.value] != Split(newValue)[r.value]
  {
    if oldValue == [] then None
    else
      var oldLines, newLines := Split(oldValue), Split(newValue);
      if |newLines| != |oldLines| then None
      else
        match ChangedLine(oldLines, newLines)
        case None => None
        case Some(i) => if IsToggle(oldLines[i], newLines[i]) then Some(i) else None
  }

  /**
   * A toggle is detected at line `i` exactly when there is a previous text,
   * both texts have the same number of lines, line `i` went from one todo
   * mark to another, and every other line is unchanged.
   */
  lemma DetectToggleIff(oldValue: Text, newValue: Text, i: nat)
    ensures DetectToggle(oldValue, newValue) == Some(i) <==>
      && oldValue != []
      && |Split(oldValue)| == |Split(newValue)|
      && i < |Split(oldValue)|
      && IsToggle(Split(oldValue)[i], Split(newValue)[i])
      && forall j :: 0 <= j < |Split(oldValue)| && j != i ==> Split(oldValue)[j] == Split(newValue)[j]
  {
    var oldLines, newLines := Split(oldValue), Split(newValue);
    if oldValue != [] && |oldLines| == |newLines| {
      ChangedLineSome(oldLines, newLines, i);
      if i < |oldLines| && IsToggle(oldLines[i], newLines[i]) {
        ToggleChangesOnlyTheMark(oldLines[i], newLines[i]);
      }
    }
  }

  /** No toggle is detected unless both texts contain the same number of line feeds. */
  lemma DetectToggleKeepsLineCount(oldValue: Text, newValue: Text)
    requires DetectToggle(oldValue, newValue).Some?
    ensures LineFeeds(oldValue) == LineFeeds(newValue)
  {
    SplitLength(oldValue);
    SplitLength(newValue);
  }

  /** An event that does not change the text is never a toggle. */
  lemma UnchangedIsNoToggle(value: Text)
    ensures DetectToggle(value, value) == None
  {
    if value != [] {
      var lines := Split(value);
      var d := DiffIndices(lines, lines, |lines|);
      assert |d| > 0 ==> d[0] in d;
    }
  }

  /**
   * A detected toggle changes one code unit of the document, the mark of
   * line `i`: the new text is the old text with the unit at `pos`
   * overwritten, and line `i` is the old line `i` with its mark overwritten.
   */
  lemma ToggleIsOneUnitEdit(oldValue: Text, newValue: Text)
    requires DetectToggle(oldValue, newValue).Some?
    ensures var i := DetectToggle(oldValue, newValue).value;
      var oldLines, newLines := Split(oldValue), Split(newValue);
      && i < |oldLines| == |newLines|
      && newLines == oldLines[i := newLines[i]]
      && |newLines[i]| == |oldLines[i]|
      && newValue == Join(oldLines[i := newLines[i]])
    ensures var i := DetectToggle(oldValue, newValue).value;
      var oldLines := Split(oldValue);
      i < |oldLines| && ParseTodo(oldLines[i]).Some? &&
      var pos := LineStart(oldLines, i) + |ParseTodo(oldLines[i]).value.prefix|;
      && |newValue| == |oldValue|
      && pos < |oldValue|
      && oldValue[pos] != newValue[pos]
      && newValue == oldValue[pos := newValue[pos]]
  {
    var i := DetectToggle(oldValue, newValue).value;
    var oldLines, newLines := Split(oldValue), Split(newValue);
    DetectToggleIff(oldValue, newValue, i);
    ToggleChangesOnlyTheMark(oldLines[i], newLines[i]);
    JoinSplit(oldValue);
    JoinSplit(newValue);
    var k := |ParseTodo(oldLines[i]).value.prefix|;
    var c := newLines[i][k];
    assert newLines == oldLines[i := oldLines[i][k := c]];
    JoinUpdateUnit(oldLines, i, k, c);
  }
}
