/**
 * The document editor's positions: offset to line and column, and the arithmetic of a Markdown insertion.
 */
module LineCol {
  import opened TextLines

  datatype Position = Position(line: nat, col: nat)

  /** Lexicographic order of positions. */
  predicate Before(p: Position, q: Position) {
    p.line < q.line || (p.line == q.line && p.col < q.col)
  }

  function Clamp(offset: int, n: nat): (o: nat)
    ensures o <= n
  {
    if offset < 0 then 0 else if offset > n then n else offset
  }

  function GetLineAndCol(content: string, offset: int): Position {
    var lines := SplitLines(content[..Clamp(offset, |content|)]);
    Position(|lines|, |lines[|lines| - 1]| + 1)
  }

  /** Where a line starts: the lengths of the lines above it, each with its newline. */
  function LineStart(lines: seq<string>, line: nat): nat
    requires line < |lines|
  {
    if line == 0 then 0 else LineStart(lines, line - 1) + |lines[line - 1]| + 1
  }

  /** A position of the text: an existing line, and a column up to one past its end. */
  predicate Valid(content: string, p: Position) {
    var lines := SplitLines(content);
    1 <= p.line <= |lines| && 1 <= p.col <= |lines[p.line - 1]| + 1
  }

  function OffsetOf(content: string, p: Position): nat
    requires Valid(content, p)
  {
    LineStart(SplitLines(content), p.line - 1) + p.col - 1
  }

  // ---- One character at a time ----

  /** A character put in front of the lines. */
  function Pushed(c: char, lines: seq<string>): seq<string>
    requires |lines| > 0
  {
    if c == '\n' then [""] + lines else [[c] + lines[0]] + lines[1..]
  }

  /** A character put behind them: a newline opens a line, anything else lengthens the last one. */
  function Typed(lines: seq<string>, c: char): (r: seq<string>)
    requires |lines| > 0
    ensures |r| > 0
  {
    if c == '\n' then lines + [""] else lines[..|lines| - 1] + [lines[|lines| - 1] + [c]]
  }

  lemma PushedThenTyped(a: char, lines: seq<string>, c: char)
    requires |lines| > 0
    ensures Pushed(a, Typed(lines, c)) == Typed(Pushed(a, lines), c)
  {
    var n := |lines|;
    if c == '\n' {
      assert (lines + [""])[1..] == lines[1..] + [""];
    } else if a == '\n' {
      assert ([""] + lines)[..n] == [""] + lines[..n - 1];
    } else if n == 1 {
      assert [a] + (lines[0] + [c]) == ([a] + lines[0]) + [c];
    } else {
      TypedRest(lines, c);
      var pushed := [[a] + lines[0]] + lines[1..];
      assert pushed[..n - 1] == [[a] + lines[0]] + lines[1..n - 1];
    }
  }

  lemma TypedRest(lines: seq<string>, c: char)
    requires |lines| > 1 && c != '\n'
    ensures Typed(lines, c)[0] == lines[0]
    ensures Typed(lines, c)[1..] == lines[1..|lines| - 1] + [lines[|lines| - 1] + [c]]
  {
  }

  lemma OnlyLine(lines: seq<string>, c: char)
    requires lines == [""]
    ensures Pushed(c, lines) == Typed(lines, c)
  {
    assert [c] + lines[0] == lines[0] + [c];
    assert lines[1..] == lines[..0];
  }

  /** Splitting seen from the end. */
  lemma {:induction false} SplitAppends(s: string, c: char)
    ensures SplitLines(s + [c]) == Typed(SplitLines(s), c)
  {
    var t := s + [c];
    if s == "" {
      assert t[1..] == "" && SplitLines("") == [""];
      assert SplitLines(t) == Pushed(c, [""]);
      OnlyLine([""], c);
    } else {
      assert t[1..] == s[1..] + [c] && t[0] == s[0];
      SplitAppends(s[1..], c);
      PushedThenTyped(s[0], SplitLines(s[1..]), c);
    }
  }

  /** Moving one character right: the next column, or the first column of the next line. */
  lemma StepRight(s: string, o: nat)
    requires o < |s|
    ensures var p := GetLineAndCol(s, o);
      GetLineAndCol(s, o + 1) == if s[o] == '\n' then Position(p.line + 1, 1) else Position(p.line, p.col + 1)
  {
    SplitAppends(s[..o], s[o]);
    assert s[..o + 1] == s[..o] + [s[o]];
  }

  /** Positions strictly increase, line first, with the clamped offset. */
  lemma {:induction false} PositionsIncrease(s: string, a: int, b: int)
    requires Clamp(a, |s|) < Clamp(b, |s|)
    ensures Before(GetLineAndCol(s, a), GetLineAndCol(s, b))
    decreases Clamp(b, |s|)
  {
    var m := Clamp(b, |s|) - 1;
    StepRight(s, m);
    assert GetLineAndCol(s, m + 1) == GetLineAndCol(s, b);
    if Clamp(a, |s|) == m {
      assert GetLineAndCol(s, a) == GetLineAndCol(s, m);
    } else {
      PositionsIncrease(s, a, m);
    }
  }

  /** Two offsets share a position exactly when they clamp to the same place. */
  lemma SamePositionIff(s: string, a: int, b: int)
    ensures GetLineAndCol(s, a) == GetLineAndCol(s, b) <==> Clamp(a, |s|) == Clamp(b, |s|)
  {
    if Clamp(a, |s|) < Clamp(b, |s|) {
      PositionsIncrease(s, a, b);
    } else if Clamp(b, |s|) < Clamp(a, |s|) {
      PositionsIncrease(s, b, a);
    }
  }

  // ---- The inverse ----

  /** The lines of a prefix are the lines of the text, the last one cut short. */
  ghost predicate CutOf(front: seq<string>, lines: seq<string>) {
    && 0 < |front| <= |lines|
    && front[..|front| - 1] == lines[..|front| - 1]
    && front[|front| - 1] <= lines[|front| - 1]
  }

  lemma {:induction false} PrefixCutsLines(s: string, o: nat)
    requires o <= |s|
    ensures CutOf(SplitLines(s[..o]), SplitLines(s))
    decreases |s| - o
  {
    if o == |s| {
      assert s[..o] == s;
    } else {
      PrefixCutsLines(s, o + 1);
      SplitAppends(s[..o], s[o]);
      assert s[..o + 1] == s[..o] + [s[o]];
      var front, next := SplitLines(s[..o]), SplitLines(s[..o + 1]);
      CutIsTransitive(front, next, SplitLines(s), s[o]);
    }
  }

  lemma CutIsTransitive(front: seq<string>, next: seq<string>, lines: seq<string>, c: char)
    requires CutOf(next, lines) && |front| > 0
    requires next == Typed(front, c)
    ensures CutOf(front, lines)
  {
    var k := |front| - 1;
    if c == '\n' {
      assert next[..|next| - 1] == front;
      assert front[k] == next[..|next| - 1][k] == lines[..|next| - 1][k] == lines[k];
      assert front[..k] == lines[..|next| - 1][..k] == lines[..k];
    } else {
      assert front[..k] == next[..k] == lines[..k];
      assert front[k] <= next[k] <= lines[k];
    }
  }

  lemma {:induction false} StartsAgree(front: seq<string>, lines: seq<string>, k: nat)
    requires CutOf(front, lines) && k < |front|
    ensures LineStart(front, k) == LineStart(lines, k)
  {
    if k > 0 {
      StartsAgree(front, lines, k - 1);
      assert front[k - 1] == front[..|front| - 1][k - 1] == lines[..|front| - 1][k - 1] == lines[k - 1];
    }
  }

  /** A text is as long as the start of its last line plus that line. */
  lemma {:induction false} LengthIs(s: string)
    ensures var lines := SplitLines(s); |s| == LineStart(lines, |lines| - 1) + |lines[|lines| - 1]|
  {
    if s != "" {
      var init, c := s[..|s| - 1], s[|s| - 1];
      LengthIs(init);
      SplitAppends(init, c);
      assert s == init + [c];
      LongerBy(SplitLines(init), SplitLines(s), c);
    }
  }

  lemma LongerBy(front: seq<string>, next: seq<string>, c: char)
    requires |front| > 0 && next == Typed(front, c)
    ensures LineStart(next, |next| - 1) + |next[|next| - 1]| == LineStart(front, |front| - 1) + |front[|front| - 1]| + 1
  {
    var k := |front| - 1;
    TypedCuts(front, c);
    StartsAgree(front, next, k);
    if c == '\n' {
      assert next[k] == front[k] && next[k + 1] == "";
    }
  }

  lemma TypedCuts(front: seq<string>, c: char)
    requires |front| > 0
    ensures CutOf(front, Typed(front, c))
  {
  }

  /** From an offset to its position and back. */
  lemma OffsetOfPosition(s: string, offset: int)
    ensures Valid(s, GetLineAndCol(s, offset))
    ensures OffsetOf(s, GetLineAndCol(s, offset)) == if offset < 0 then 0 else if offset > |s| then |s| else offset
  {
    var o := Clamp(offset, |s|);
    var front := SplitLines(s[..o]);
    PrefixCutsLines(s, o);
    StartsAgree(front, SplitLines(s), |front| - 1);
    LengthIs(s[..o]);
  }

  lemma {:induction false} StartsIncrease(lines: seq<string>, i: nat, j: nat)
    requires i < j < |lines|
    ensures LineStart(lines, i) + |lines[i]| < LineStart(lines, j)
  {
    if i < j - 1 {
      StartsIncrease(lines, i, j - 1);
    }
  }

  lemma {:induction false} StartsFit(lines: seq<string>, i: nat)
    requires i < |lines|
    ensures LineStart(lines, i) + |lines[i]| <= LineStart(lines, |lines| - 1) + |lines[|lines| - 1]|
  {
    if i < |lines| - 1 {
      StartsIncrease(lines, i, |lines| - 1);
    }
  }

  /** From a position of the text to its offset and back. */
  lemma PositionOfOffset(s: string, p: Position)
    requires Valid(s, p)
    ensures OffsetOf(s, p) <= |s| && GetLineAndCol(s, OffsetOf(s, p)) == p
  {
    var lines := SplitLines(s);
    LengthIs(s);
    StartsFit(lines, p.line - 1);
    OffsetOfPosition(s, OffsetOf(s, p));
    OffsetsDiffer(lines, p, GetLineAndCol(s, OffsetOf(s, p)));
  }

  /** Positions of one text with the same offset are the same. */
  lemma OffsetsDiffer(lines: seq<string>, p: Position, q: Position)
    requires 1 <= p.line <= |lines| && 1 <= p.col <= |lines[p.line - 1]| + 1
    requires 1 <= q.line <= |lines| && 1 <= q.col <= |lines[q.line - 1]| + 1
    requires LineStart(lines, p.line - 1) + p.col == LineStart(lines, q.line - 1) + q.col
    ensures p == q
  {
    if q.line < p.line {
      StartsIncrease(lines, q.line - 1, p.line - 1);
    } else if p.line < q.line {
      StartsIncrease(lines, p.line - 1, q.line - 1);
    }
  }

  // ---- insertMarkdown ----

  /** String.prototype.substring swaps and clamps its arguments. */
  function Substring(s: string, a: int, b: int): string {
    var i, j := Clamp(a, |s|), Clamp(b, |s|);
    if i <= j then s[i..j] else s[j..i]
  }

  const PLACEHOLDER: string := "text"

  /** The new text and cursor for a selection `[start, end)`, which the text area keeps in range and in order. */
  method InsertMarkdown(text: string, start: nat, end: nat, prefix: string, suffix: string)
    returns (nextText: string, cursor: nat, position: Position)
    requires start <= end <= |text|
    ensures var body := if start == end then PLACEHOLDER else text[start..end];
      && nextText == text[..start] + prefix + body + suffix + text[end..]
      && cursor == start + |prefix| + |body|
    ensures nextText[..cursor] == text[..start] + prefix + (if start == end then PLACEHOLDER else text[start..end])
    ensures nextText[cursor..] == suffix + text[end..]
    ensures Valid(nextText, position) && OffsetOf(nextText, position) == cursor
  {
    var selected := Substring(text, start, end);
    var replacement := prefix + (if selected != "" then selected else "text") + suffix;
    nextText := Substring(text, 0, start) + replacement + Substring(text, end, |text|);
    cursor := start + |prefix| + (if selected != "" then |selected| else 4);
    position := GetLineAndCol(nextText, cursor);
    OffsetOfPosition(nextText, cursor);
    Assembled(text[..start], prefix, if start == end then PLACEHOLDER else text[start..end], suffix, text[end..]);
  }

  lemma Assembled(a: string, prefix: string, body: string, suffix: string, z: string)
    ensures a + (prefix + body + suffix) + z == a + prefix + body + suffix + z
    ensures (a + prefix + body + suffix + z)[..|a| + |prefix| + |body|] == a + prefix + body
    ensures (a + prefix + body + suffix + z)[|a| + |prefix| + |body|..] == suffix + z
  {
    assert a + prefix + body + suffix + z == (a + prefix + body) + (suffix + z);
  }
}
