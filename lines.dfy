/**
 * Documents as JavaScript sees them: a string is a sequence of UTF-16 code
 * units, and `text.split("\n")` cuts it into lines.
 */
module Lines {

  /** One UTF-16 code unit, the element type of a JavaScript string. */
  newtype CodeUnit = x: int | 0 <= x < 0x1_0000

  type Text = seq<CodeUnit>

  /** U+000A LINE FEED, the separator the handler splits on. */
  const LF: CodeUnit := 0x000A

  /**
   * `s.split("\n")`: k line feeds give k + 1 pieces, and the empty string
   * gives one empty piece.
   */
  function Split(s: Text): (lines: seq<Text>)
    ensures |lines| >= 1
  {
    if s == [] then [[]]
    else
      var rest := Split(s[1..]);
      if s[0] == LF then [[]] + rest
      else [[s[0]] + rest[0]] + rest[1..]
  }

  /** `lines.join("\n")`, the inverse of Split. */
  function Join(lines: seq<Text>): Text
    requires |lines| >= 1
  {
    if |lines| == 1 then lines[0]
    else lines[0] + [LF] + Join(lines[1..])
  }

  /** The number of line feeds in `s`. */
  function LineFeeds(s: Text): nat
  {
    multiset(s)[LF]
  }

  /** No piece produced by Split contains the separator. */
  lemma {:induction false} SplitPiecesHaveNoLineFeed(s: Text)
    ensures forall i :: 0 <= i < |Split(s)| ==> LF !in Split(s)[i]
  {
    if s != [] {
      SplitPiecesHaveNoLineFeed(s[1..]);
    }
  }

  /** A text with k line feeds splits into k + 1 lines. */
  lemma {:induction false} SplitLength(s: Text)
    ensures |Split(s)| == LineFeeds(s) + 1
  {
    if s != [] {
      SplitLength(s[1..]);
      assert s == [s[0]] + s[1..];
      assert multiset(s) == multiset{s[0]} + multiset(s[1..]);
    }
  }

  /** Joining the pieces gives back the text: no code unit is lost or added. */
  lemma {:induction false} JoinSplit(s: Text)
    ensures Join(Split(s)) == s
  {
    if s != [] {
      var rest := Split(s[1..]);
      JoinSplit(s[1..]);
      if s[0] == LF {
        assert Split(s) == [[]] + rest;
        assert Join(Split(s)) == [] + [LF] + Join(rest);
      } else {
        var lines := Split(s);
        assert lines == [[s[0]] + rest[0]] + rest[1..];
        if |rest| == 1 {
          assert Join(lines) == [s[0]] + rest[0];
        } else {
          assert lines[1..] == rest[1..];
          assert Join(rest) == rest[0] + [LF] + Join(rest[1..]);
          assert Join(lines) == ([s[0]] + rest[0]) + [LF] + Join(rest[1..]);
        }
        assert s == [s[0]] + s[1..];
      }
    }
  }

  /** Split is injective: two texts with the same lines are the same text. */
  lemma SplitInjective(s: Text, t: Text)
    requires Split(s) == Split(t)
    ensures s == t
  {
    JoinSplit(s);
    JoinSplit(t);
  }

  /** A text without line feeds is a single line. */
  lemma {:induction false} SplitSingleLine(a: Text)
    requires LF !in a
    ensures Split(a) == [a]
  {
    if a != [] {
      assert LF !in a[1..] by {
        forall i | 0 <= i < |a[1..]| ensures a[1..][i] != LF {
          assert a[1..][i] == a[i + 1];
        }
      }
      SplitSingleLine(a[1..]);
      assert a == [a[0]] + a[1..];
    }
  }

  /** The first line of `a + "\n" + b` is `a` when `a` has no line feed. */
  lemma {:induction false} SplitAfterLine(a: Text, b: Text)
    requires LF !in a
    ensures Split(a + [LF] + b) == [a] + Split(b)
  {
    if a == [] {
      assert a + [LF] + b == [LF] + b;
      assert ([LF] + b)[1..] == b;
    } else {
      var s := a + [LF] + b;
      assert s[1..] == a[1..] + [LF] + b;
      assert LF !in a[1..] by {
        forall i | 0 <= i < |a[1..]| ensures a[1..][i] != LF {
          assert a[1..][i] == a[i + 1];
        }
      }
      SplitAfterLine(a[1..], b);
      assert a == [a[0]] + a[1..];
    }
  }

  /** Splitting the join of lines without line feeds gives back those lines. */
  lemma {:induction false} SplitJoin(lines: seq<Text>)
    requires |lines| >= 1
    requires forall i :: 0 <= i < |lines| ==> LF !in lines[i]
    ensures Split(Join(lines)) == lines
  {
    if |lines| == 1 {
      SplitSingleLine(lines[0]);
    } else {
      SplitJoin(lines[1..]);
      SplitAfterLine(lines[0], Join(lines[1..]));
      assert lines == [lines[0]] + lines[1..];
    }
  }

  /** The offset in `Join(lines)` at which line `i` begins. */
  function LineStart(lines: seq<Text>, i: nat): nat
    requires i <= |lines|
  {
    if i == 0 then 0 else |lines[0]| + 1 + LineStart(lines[1..], i - 1)
  }

  /**
   * Overwriting code unit `k` of line `i` overwrites one code unit of the
   * joined text, the one at `LineStart(lines, i) + k`.
   */
  lemma {:induction false} JoinUpdateUnit(lines: seq<Text>, i: nat, k: nat, c: CodeUnit)
    requires i < |lines| && k < |lines[i]|
    ensures LineStart(lines, i) + k < |Join(lines)|
    ensures Join(lines)[LineStart(lines, i) + k] == lines[i][k]
    ensures Join(lines[i := lines[i][k := c]]) == Join(lines)[LineStart(lines, i) + k := c]
  {
    var u := lines[i := lines[i][k := c]];
    if i == 0 {
      if |lines| > 1 {
        assert u[1..] == lines[1..];
        assert Join(u) == lines[0][k := c] + [LF] + Join(lines[1..]);
        assert Join(lines) == lines[0] + [LF] + Join(lines[1..]);
      }
    } else {
      var rest := lines[1..];
      JoinUpdateUnit(rest, i - 1, k, c);
      assert u[1..] == rest[i - 1 := rest[i - 1][k := c]];
      assert Join(u) == lines[0] + [LF] + Join(u[1..]);
      assert Join(lines) == lines[0] + [LF] + Join(rest);
    }
  }
}
