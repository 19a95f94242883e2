/**
 * The todo-line grammar of the edit handler: the regular expression
 * `/^(\s*- \[)(.)(\]\s*.*)$/` written out as an explicit matcher that splits
 * a line into (prefix, mark, suffix), and the test that decides whether an
 * edit of one line was a status toggle.
 *
 * Character classes follow ECMAScript 2023 (ECMA-262, 14th edition): `\s`
 * matches WhiteSpace (section 12.2) and LineTerminator (section 12.3), and
 * `.` without the `s` flag matches one code unit that is not a
 * LineTerminator (section 22.2).
 */
module TodoLine {
  import opened Wrappers
  import opened Lines

  /** LF, CR, LINE SEPARATOR and PARAGRAPH SEPARATOR. */
  predicate IsLineTerminator(c: CodeUnit)
    ensures c == LF ==> IsLineTerminator(c)
    ensures IsLineTerminator(c) ==> c != 0x0020 && c != 0x0078 && c != 0x005D
  {
    c == 0x000A || c == 0x000D || c == 0x2028 || c == 0x2029
  }

  /**
   * The code units `\s` matches: TAB, VT, FF, SPACE, NO-BREAK SPACE, ZERO
   * WIDTH NO-BREAK SPACE, the other space separators of category Zs, and
   * the line terminators.
   */
  predicate IsWhiteSpace(c: CodeUnit)
    ensures IsLineTerminator(c) ==> IsWhiteSpace(c)
    ensures IsWhiteSpace(c) ==> c != 0x002D && c != 0x005B && c != 0x005D
  {
    c == 0x0009 || c == 0x000B || c == 0x000C || c == 0x0020 || c == 0x00A0 || c == 0xFEFF
    || c == 0x1680 || (0x2000 <= c <= 0x200A) || c == 0x202F || c == 0x205F || c == 0x3000
    || IsLineTerminator(c)
  }

  predicate AllWhiteSpace(s: Text)
  {
    forall i :: 0 <= i < |s| ==> IsWhiteSpace(s[i])
  }

  predicate NoLineTerminator(s: Text)
  {
    forall i :: 0 <= i < |s| ==> !IsLineTerminator(s[i])
  }

  /** "- [" : the bullet and the opening bracket of a checkbox. */
  const BulletOpen: Text := [0x002D, 0x0020, 0x005B]

  /** "]" : the closing bracket of a checkbox. */
  const CloseBracket: CodeUnit := 0x005D

  /** A todo line cut into its three capture groups. */
  datatype Todo = Todo(prefix: Text, mark: CodeUnit, suffix: Text)

  /** The length of the longest run of whitespace at the start of `s` (what a greedy `\s*` takes). */
  function WhiteSpaceRun(s: Text): (n: nat)
    ensures n <= |s|
    ensures AllWhiteSpace(s[..n])
    ensures n < |s| ==> !IsWhiteSpace(s[n])
  {
    if s != [] && IsWhiteSpace(s[0]) then
      var k := WhiteSpaceRun(s[1..]);
      assert s[..k + 1] == [s[0]] + s[1..][..k];
      1 + k
    else 0
  }

  /** `\s*.*$` : what follows the closing bracket. */
  predicate IsTrailer(t: Text)
  {
    NoLineTerminator(t[WhiteSpaceRun(t)..])
  }

  /** The matcher: `Some` with the three capture groups, or `None` when the line does not match. */
  function ParseTodo(line: Text): (r: Option<Todo>)
    ensures r.Some? ==> Decomposes(line, r.value)
  {
    var w := WhiteSpaceRun(line);
    if w + 5 <= |line| && line[w..w + 3] == BulletOpen && !IsLineTerminator(line[w + 3])
       && line[w + 4] == CloseBracket && IsTrailer(line[w + 5..])
    then
      var t := Todo(line[..w + 3], line[w + 3], line[w + 4..]);
      assert line == t.prefix + [t.mark] + t.suffix;
      assert t.prefix[..|t.prefix| - 3] == line[..w];
      assert SuffixSplit(t.suffix, 1 + WhiteSpaceRun(line[w + 5..])) by {
        var u := line[w + 5..];
        var n := WhiteSpaceRun(u);
        assert t.suffix[1..] == u;
        assert t.suffix[1..1 + n] == u[..n];
        assert t.suffix[1 + n..] == u[n..];
      }
      Some(t)
    else None
  }

  // The grammar as a relation, independent of how ParseTodo scans.

  /** `\s*- \[` : whitespace, then "- [". */
  ghost predicate PrefixShape(p: Text)
  {
    |p| >= 3 && p[|p| - 3..] == BulletOpen && AllWhiteSpace(p[..|p| - 3])
  }

  /** `\]\s*.*$` split at `k`: "]" and whitespace before `k`, no line terminator from `k` on. */
  ghost predicate SuffixSplit(s: Text, k: int)
  {
    1 <= k <= |s| && s[0] == CloseBracket && AllWhiteSpace(s[1..k]) && NoLineTerminator(s[k..])
  }

  ghost predicate SuffixShape(s: Text)
  {
    exists k :: SuffixSplit(s, k)
  }

  /** `line` matches the regular expression with these three capture groups. */
  ghost predicate Decomposes(line: Text, t: Todo)
  {
    && line == t.prefix + [t.mark] + t.suffix
    && PrefixShape(t.prefix)
    && !IsLineTerminator(t.mark)
    && SuffixShape(t.suffix)
  }

  /** A greedy `\s*` takes at least every whitespace run at the start. */
  lemma {:induction false} WhiteSpaceRunCovers(s: Text, n: nat)
    requires n <= |s| && AllWhiteSpace(s[..n])
    ensures n <= WhiteSpaceRun(s)
  {
    if n > 0 {
      assert s[..n][0] == s[0];
      assert s[1..][..n - 1] == s[..n][1..];
      WhiteSpaceRunCovers(s[1..], n - 1);
    }
  }

  /** The greedy run is the only whitespace run that ends before a non-whitespace unit. */
  lemma {:induction false} WhiteSpaceRunUnique(s: Text, n: nat)
    requires n <= |s| && AllWhiteSpace(s[..n]) && (n < |s| ==> !IsWhiteSpace(s[n]))
    ensures WhiteSpaceRun(s) == n
  {
    if n > 0 {
      assert s[..n][0] == s[0];
      assert s[1..][..n - 1] == s[..n][1..];
      assert n - 1 < |s| - 1 ==> s[1..][n - 1] == s[n];
      WhiteSpaceRunUnique(s[1..], n - 1);
    }
  }

  /** Any way of reading `\s*.*$` gives the greedy one: backtracking cannot make the trailer match. */
  lemma TrailerFromSplit(t: Text, k: nat)
    requires k <= |t| && AllWhiteSpace(t[..k]) && NoLineTerminator(t[k..])
    ensures IsTrailer(t)
  {
    var w := WhiteSpaceRun(t);
    WhiteSpaceRunCovers(t, k);
    forall i | 0 <= i < |t[w..]| ensures !IsLineTerminator(t[w..][i]) {
      assert t[w..][i] == t[k..][i + w - k];
    }
  }

  /** Completeness: whenever the line matches, ParseTodo finds exactly those capture groups. */
  lemma ParseTodoComplete(line: Text, t: Todo)
    requires Decomposes(line, t)
    ensures ParseTodo(line) == Some(t)
  {
    var p := |t.prefix|;
    var w := p - 3;
    assert line[..w] == t.prefix[..w];
    assert line[w] == 0x002D;
    WhiteSpaceRunUnique(line, w);
    assert line[w..w + 3] == BulletOpen;
    assert line[w + 3] == t.mark;
    var k :| SuffixSplit(t.suffix, k);
    assert line[w + 4..] == t.suffix;
    assert line[w + 4] == CloseBracket;
    var u := line[w + 5..];
    assert u == t.suffix[1..];
    assert u[..k - 1] == t.suffix[1..k];
    assert u[k - 1..] == t.suffix[k..];
    TrailerFromSplit(u, k - 1);
    assert line[..w + 3] == t.prefix;
  }

  /** The line matches exactly when ParseTodo succeeds. */
  lemma ParseTodoIff(line: Text)
    ensures ParseTodo(line).Some? <==> exists t :: Decomposes(line, t)
  {
    if t :| Decomposes(line, t) {
      ParseTodoComplete(line, t);
    }
  }

  /** The capture groups of a matching line are determined by the line. */
  lemma DecompositionUnique(line: Text, t1: Todo, t2: Todo)
    requires Decomposes(line, t1) && Decomposes(line, t2)
    ensures t1 == t2
  {
    ParseTodoComplete(line, t1);
    ParseTodoComplete(line, t2);
  }

  /** The edited line is a status toggle: both versions match, prefix and suffix are unchanged, the mark is not. */
  predicate IsToggle(oldLine: Text, newLine: Text)
    ensures IsToggle(oldLine, newLine) ==> |oldLine| == |newLine| && oldLine != newLine
  {
    match (ParseTodo(newLine), ParseTodo(oldLine))
    case (Some(n), Some(o)) => n.prefix == o.prefix && n.suffix == o.suffix && n.mark != o.mark
    case _ => false
  }

  /** A toggle is exactly two matching lines that share prefix and suffix and differ in the mark. */
  lemma IsToggleIff(oldLine: Text, newLine: Text)
    ensures IsToggle(oldLine, newLine) <==>
      exists p, m, m', s :: m != m' && Decomposes(oldLine, Todo(p, m, s)) && Decomposes(newLine, Todo(p, m', s))
  {
    if IsToggle(oldLine, newLine) {
      var o, n := ParseTodo(oldLine).value, ParseTodo(newLine).value;
      assert Decomposes(oldLine, Todo(o.prefix, o.mark, o.suffix));
      assert Decomposes(newLine, Todo(o.prefix, n.mark, o.suffix));
    }
    if exists p, m, m', s :: m != m' && Decomposes(oldLine, Todo(p, m, s)) && Decomposes(newLine, Todo(p, m', s)) {
      var p, m, m', s :| m != m' && Decomposes(oldLine, Todo(p, m, s)) && Decomposes(newLine, Todo(p, m', s));
      ParseTodoComplete(oldLine, Todo(p, m, s));
      ParseTodoComplete(newLine, Todo(p, m', s));
    }
  }

  /**
   * A toggle rewrites one code unit, the mark, and nothing else: an edit of
   * the text after "]" or of the indentation is never a toggle.
   */
  lemma ToggleChangesOnlyTheMark(oldLine: Text, newLine: Text)
    requires IsToggle(oldLine, newLine)
    ensures |oldLine| == |newLine|
    ensures var k := |ParseTodo(oldLine).value.prefix|;
      k < |oldLine| && oldLine[k] != newLine[k] && newLine == oldLine[k := newLine[k]]
  {
    var o, n := ParseTodo(oldLine).value, ParseTodo(newLine).value;
    assert oldLine == o.prefix + [o.mark] + o.suffix;
    assert newLine == o.prefix + [n.mark] + o.suffix;
    MarkReplaced(o.prefix, o.mark, n.mark, o.suffix);
  }

  /** Overwriting the unit between `p` and `s`. */
  lemma MarkReplaced(p: Text, m: CodeUnit, m': CodeUnit, s: Text)
    ensures (p + [m] + s)[|p|] == m
    ensures (p + [m] + s)[|p| := m'] == p + [m'] + s
  {
  }

  /** Conversely, writing any other non-terminator over the mark of a todo line is a toggle. */
  lemma MarkFlipIsToggle(line: Text, t: Todo, c: CodeUnit)
    requires ParseTodo(line) == Some(t)
    requires c != t.mark && !IsLineTerminator(c)
    ensures IsToggle(line, line[|t.prefix| := c])
  {
    var flipped := line[|t.prefix| := c];
    assert flipped == t.prefix + [c] + t.suffix;
    ParseTodoComplete(flipped, t.(mark := c));
  }
}
