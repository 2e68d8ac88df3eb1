/**
 Block Markdown: one pass over the lines with code-fence state. A line's
 element is keyed by the line's index, as in the source.
 */
module Blocks {
  import opened JsStrings
  import opened TextLines

  type Line = string

  datatype Block =
    | Heading(level: nat, text: string)
    | Rule
    | Quote(text: string)
    | Task(checked: bool, text: string)
    | Bullet(text: string)
    | Spacer
    | Paragraph(text: string)

  /** A pushed element, keyed by the index of the line that pushed it. */
  datatype Element =
    | Element(index: nat, block: Block)
    | CodeElement(index: nat, lang: string, lines: seq<Line>)

  // ----- One line

  /** What the fold needs to know of a line: its fence language, or the block it is outside code. */
  datatype Row = Fence(lang: string) | Text(line: Line, block: Block)

  function Classify(line: Line): Row {
    var trimmed := Trim(line);
    if StartsWith(trimmed, "```") then Fence(trimmed[3..]) else Text(line, BlockOf(line))
  }

  /** The element of a line outside code blocks that is no fence: the first rule that fits. */
  function BlockOf(line: Line): Block {
    if StartsWith(line, "# ") then Heading(1, line[2..])
    else if StartsWith(line, "## ") then Heading(2, line[3..])
    else if StartsWith(line, "### ") then Heading(3, line[4..])
    else if Trim(line) == "---" || Trim(line) == "***" then Rule
    else if StartsWith(line, "> ") then Quote(line[2..])
    else if StartsWith(line, "- [ ] ") || StartsWith(line, "- [x] ") || StartsWith(line, "- [X] ") then
      Task(StartsWith(line, "- [x] ") || StartsWith(line, "- [X] "), line[6..])
    else if StartsWith(line, "- ") || StartsWith(line, "* ") then Bullet(line[2..])
    else if Trim(line) == "" then Spacer
    else Paragraph(line)
  }

  // ----- What a line reads as

  const MARKERS: set<string> := {"# ", "## ", "### ", "> ", "- [ ] ", "- [x] ", "- [X] ", "- ", "* "}

  /** The block's kind is that of the line's marker, and marker and text make up the line. */
  ghost predicate Reads(line: Line, block: Block) {
    match block
    case Heading(level, text) =>
      (level == 1 && line == "# " + text) || (level == 2 && line == "## " + text) || (level == 3 && line == "### " + text)
    case Rule => Trim(line) in {"---", "***"}
    case Quote(text) => line == "> " + text
    case Task(checked, text) =>
      if checked then line == "- [x] " + text || line == "- [X] " + text else line == "- [ ] " + text
    case Bullet(text) => (line == "- " + text || line == "* " + text) && !IsTask(line)
    case Spacer => Trim(line) == ""
    case Paragraph(text) => text == line && Trim(line) !in {"", "---", "***"} && Unmarked(line)
  }

  ghost predicate IsTask(line: Line) {
    exists text: string :: line == "- [ ] " + text || line == "- [x] " + text || line == "- [X] " + text
  }

  ghost predicate Unmarked(line: Line) {
    forall m, text: string :: m in MARKERS ==> line != m + text
  }

  lemma MarkerIff(line: Line, m: string, text: string)
    ensures line == m + text <==> StartsWith(line, m) && text == line[|m|..]
  {
  }

  lemma UnmarkedIff(line: Line)
    ensures Unmarked(line) <==> forall m :: m in MARKERS ==> !StartsWith(line, m)
  {
    forall m: string, text: string
      ensures line == m + text <==> StartsWith(line, m) && text == line[|m|..]
    {
      MarkerIff(line, m, text);
    }
    forall m | m in MARKERS && StartsWith(line, m)
      ensures !Unmarked(line)
    {
      assert line == m + line[|m|..];
    }
  }

  lemma TaskIff(line: Line)
    ensures IsTask(line) <==> StartsWith(line, "- [ ] ") || StartsWith(line, "- [x] ") || StartsWith(line, "- [X] ")
  {
    if StartsWith(line, "- [ ] ") || StartsWith(line, "- [x] ") || StartsWith(line, "- [X] ") {
      var text := line[6..];
      assert line == line[..6] + text;
    }
  }

  /** A marked line is neither blank nor a rule. */
  lemma MarkedIsSolid(line: Line)
    requires |line| >= 2 && !IsSpace(line[0]) && (line[0] in {'-', '*'} ==> line[1] == ' ')
    ensures Trim(line) !in {"", "---", "***"}
  {
    var a, b := TrimIsPiece(line);
    assert a == 0 && b > 0;
    assert b > 1 ==> Trim(line)[1] == line[1];
  }

  /** Every line outside code reads as exactly one block, and that block is the one it is rendered as. */
  lemma BlockIff(line: Line, block: Block)
    ensures BlockOf(line) == block <==> Reads(line, block)
  {
    UnmarkedIff(line);
    TaskIff(line);
    Markers(line);
    if exists m :: m in MARKERS && StartsWith(line, m) {
      MarkedIsSolid(line);
    }
    match block
    case Heading(level, text) => MarkerIff(line, "# ", text); MarkerIff(line, "## ", text); MarkerIff(line, "### ", text);
    case Quote(text) => MarkerIff(line, "> ", text);
    case Task(_, text) =>
      MarkerIff(line, "- [ ] ", text);
      MarkerIff(line, "- [x] ", text);
      MarkerIff(line, "- [X] ", text);
    case Bullet(text) => MarkerIff(line, "- ", text); MarkerIff(line, "* ", text);
    case _ =>
  }

  /** What the first characters of a marked line are. */
  lemma Markers(line: Line)
    ensures StartsWith(line, "# ") <==> |line| >= 2 && line[0] == '#' && line[1] == ' '
    ensures StartsWith(line, "## ") <==> |line| >= 3 && line[0] == '#' && line[1] == '#' && line[2] == ' '
    ensures StartsWith(line, "### ") <==> |line| >= 4 && line[0] == '#' && line[1] == '#' && line[2] == '#' && line[3] == ' '
    ensures StartsWith(line, "> ") <==> |line| >= 2 && line[0] == '>' && line[1] == ' '
    ensures StartsWith(line, "- ") <==> |line| >= 2 && line[0] == '-' && line[1] == ' '
    ensures StartsWith(line, "* ") <==> |line| >= 2 && line[0] == '*' && line[1] == ' '
    ensures StartsWith(line, "- [ ] ") ==> StartsWith(line, "- ") && line[3] == ' '
    ensures StartsWith(line, "- [x] ") ==> StartsWith(line, "- ") && line[3] == 'x'
    ensures StartsWith(line, "- [X] ") ==> StartsWith(line, "- ") && line[3] == 'X'
  {
  }

  function Rows(lines: seq<Line>): seq<Row> {
    seq(|lines|, k requires 0 <= k < |lines| => Classify(lines[k]))
  }

  function Texts(rows: seq<Row>): seq<Line> {
    seq(|rows|, k requires 0 <= k < |rows| => if rows[k].Text? then rows[k].line else "")
  }

  // ----- The whole document, described without a loop

  /** Number of fence lines among the first i rows. */
  function Fences(rows: seq<Row>, i: nat): nat
    requires i <= |rows|
  {
    if i == 0 then 0 else Fences(rows, i - 1) + if rows[i - 1].Fence? then 1 else 0
  }

  /** Row i stands inside a code block: an odd number of fences precede it. */
  predicate InCode(rows: seq<Row>, i: nat)
    requires i <= |rows|
  {
    Fences(rows, i) % 2 == 1
  }

  /** The nearest fence before i. */
  function LastFence(rows: seq<Row>, i: nat): (k: nat)
    requires i <= |rows| && Fences(rows, i) > 0
    ensures k < i && rows[k].Fence? && forall j :: k < j < i ==> !rows[j].Fence?
  {
    if rows[i - 1].Fence? then i - 1 else LastFence(rows, i - 1)
  }

  /** A line pushes an element iff it is ordinary text outside code, or the fence that closes a code block. */
  predicate Pushes(rows: seq<Row>, i: nat)
    requires i < |rows|
  {
    rows[i].Fence? <==> InCode(rows, i)
  }

  /** The element line i pushes: a code block holds exactly the lines between its two fences. */
  function ElementAt(rows: seq<Row>, i: nat): Element
    requires i < |rows| && Pushes(rows, i)
  {
    if rows[i].Text? then Element(i, rows[i].block)
    else
      var open := LastFence(rows, i);
      CodeElement(i, rows[open].lang, Texts(rows[open + 1..i]))
  }

  /** The elements of the first i lines. */
  function Elements(rows: seq<Row>, i: nat): seq<Element>
    requires i <= |rows|
  {
    if i == 0 then []
    else Elements(rows, i - 1) + if Pushes(rows, i - 1) then [ElementAt(rows, i - 1)] else []
  }

  lemma OneTextMore(rows: seq<Row>, from: nat, i: nat)
    requires from <= i < |rows| && rows[i].Text?
    ensures Texts(rows[from..i + 1]) == Texts(rows[from..i]) + [rows[i].line]
  {
  }

  /** The loop of MarkdownViewer: fence state, a code buffer and the pushed elements. */
  method RenderBlocks(rows: seq<Row>) returns (elements: seq<Element>)
    ensures elements == Elements(rows, |rows|)
  {
    elements := [];
    var inCodeBlock := false;
    var codeBuffer: seq<Line> := [];
    var codeLang := "";
    for idx := 0 to |rows|
      invariant inCodeBlock == InCode(rows, idx)
      invariant inCodeBlock ==>
        var open := LastFence(rows, idx);
        codeLang == rows[open].lang && codeBuffer == Texts(rows[open + 1..idx])
      invariant !inCodeBlock ==> codeBuffer == [] && codeLang == ""
      invariant elements == Elements(rows, idx)
    {
      match rows[idx]
      case Fence(lang) =>
        if inCodeBlock {
          elements := elements + [CodeElement(idx, codeLang, codeBuffer)];
          codeBuffer := [];
          inCodeBlock := false;
          codeLang := "";
        } else {
          inCodeBlock := true;
          codeLang := lang;
        }
      case Text(line, block) =>
        if inCodeBlock {
          OneTextMore(rows, LastFence(rows, idx) + 1, idx);
          codeBuffer := codeBuffer + [line];
        } else {
          elements := elements + [Element(idx, block)];
        }
    }
  }

  datatype Page = EmptyNotice | Page(elements: seq<Element>)

  /** MarkdownViewer: a blank document shows a notice, any other its blocks. */
  method MarkdownViewer(content: string) returns (page: Page)
    ensures page == if Trim(content) == "" then EmptyNotice
                    else Page(Elements(Rows(SplitLines(content)), |SplitLines(content)|))
    ensures page.Page? ==>
      var lines := SplitLines(content);
      forall i: nat :: i < |lines| && !IsFence(lines[i]) ==> (Shown(page.elements, lines, i) <==> !Lost(lines, i))
  {
    if Trim(content) == "" {
      return EmptyNotice;
    }
    var elements := RenderBlocks(Rows(SplitLines(content)));
    page := Page(elements);
    forall i: nat | i < |SplitLines(content)| && !IsFence(SplitLines(content)[i]) {
      LostLines(SplitLines(content), i);
    }
  }

  // ----- What the reader gets

  /** Keys are unique and in line order. */
  lemma {:induction false} KeysIncrease(rows: seq<Row>, i: nat)
    requires i <= |rows|
    ensures forall a :: 0 <= a < |Elements(rows, i)| ==> Elements(rows, i)[a].index < i
    ensures forall a, b :: 0 <= a < b < |Elements(rows, i)| ==> Elements(rows, i)[a].index < Elements(rows, i)[b].index
  {
    if i > 0 {
      KeysIncrease(rows, i - 1);
    }
  }

  /** An element is on the page exactly when its line pushes it. */
  lemma {:induction false} ElementIff(rows: seq<Row>, n: nat, e: Element)
    requires n <= |rows|
    ensures e in Elements(rows, n) <==> e.index < n && Pushes(rows, e.index) && e == ElementAt(rows, e.index)
  {
    if n > 0 {
      ElementIff(rows, n - 1, e);
      var before := Elements(rows, n - 1);
      assert Elements(rows, n) == if Pushes(rows, n - 1) then before + [ElementAt(rows, n - 1)] else before;
    }
  }

  lemma {:induction false} FencesBetween(rows: seq<Row>, i: nat, j: nat)
    requires i <= j <= |rows| && forall k :: i <= k < j ==> !rows[k].Fence?
    ensures Fences(rows, i) == Fences(rows, j)
  {
    if i < j {
      FencesBetween(rows, i, j - 1);
    }
  }

  /** The nearest fence at or after i, or the number of lines. */
  function NextFence(rows: seq<Row>, i: nat): (k: nat)
    requires i <= |rows|
    ensures i <= k <= |rows| && (k < |rows| ==> rows[k].Fence?)
    ensures forall j :: i <= j < k ==> !rows[j].Fence?
    decreases |rows| - i
  {
    if i == |rows| || rows[i].Fence? then i else NextFence(rows, i + 1)
  }

  ghost predicate IsFence(line: Line) {
    StartsWith(Trim(line), "```")
  }

  lemma FenceIff(line: Line)
    ensures Classify(line).Fence? <==> IsFence(line)
    ensures Classify(line).Fence? ==> Trim(line) == "```" + Classify(line).lang
    ensures Classify(line).Text? ==> Classify(line).line == line && Reads(line, Classify(line).block)
  {
    var trimmed := Trim(line);
    if StartsWith(trimmed, "```") {
      assert trimmed == "```" + trimmed[3..];
    }
    BlockIff(line, BlockOf(line));
  }

  /** Row i stands at its place in a code block on the page. */
  ghost predicate ShownInCode(rows: seq<Row>, i: nat)
    requires i < |rows| && rows[i].Text?
  {
    exists e: Element :: e in Elements(rows, |rows|) && e.CodeElement?
      && e.index - |e.lines| <= i < e.index && e.lines[i - (e.index - |e.lines|)] == rows[i].line
  }

  /** A text row is on the page, by itself or in code, unless it is in code and no fence follows. */
  lemma LostRows(rows: seq<Row>, i: nat)
    requires i < |rows| && rows[i].Text?
    ensures Pushes(rows, i) || ShownInCode(rows, i) <==>
      !(InCode(rows, i) && forall j :: i <= j < |rows| ==> !rows[j].Fence?)
  {
    if InCode(rows, i) {
      var k := NextFence(rows, i);
      FencesBetween(rows, i, k);
      if k < |rows| {
        ClosedBlockShowsItsLines(rows, i, k);
      } else {
        forall e: Element | e in Elements(rows, |rows|) && e.CodeElement? ensures e.index <= i {
          ElementIff(rows, |rows|, e);
          CodeCloses(rows, e.index);
        }
      }
    }
  }

  /** The page shows line i: as the block it reads as, or word for word at its place in a code block. */
  ghost predicate Shown(elements: seq<Element>, lines: seq<Line>, i: nat)
    requires i < |lines|
  {
    exists e: Element :: e in elements &&
      match e
      case Element(index, block) => index == i && Reads(lines[i], block)
      case CodeElement(index, _, code) => index - |code| <= i < index && code[i - (index - |code|)] == lines[i]
  }

  /** The line is in code, after an odd number of fences, and no fence follows. */
  ghost predicate Lost(lines: seq<Line>, i: nat)
    requires i <= |lines|
  {
    InCode(Rows(lines), i) && forall j :: i <= j < |lines| ==> !IsFence(lines[j])
  }

  /**
   No text is lost except after a fence that is never closed: a line that is no
   fence is missing from the page exactly when it is in code and no fence follows.
   */
  lemma LostLines(lines: seq<Line>, i: nat)
    requires i < |lines| && !IsFence(lines[i])
    ensures Shown(Elements(Rows(lines), |lines|), lines, i) <==> !Lost(lines, i)
  {
    RowsAre(lines);
    LostRows(Rows(lines), i);
    ShownIff(lines, i);
  }

  lemma ShownIff(lines: seq<Line>, i: nat)
    requires i < |lines| && Rows(lines)[i].Text?
    ensures Shown(Elements(Rows(lines), |lines|), lines, i) <==> Pushes(Rows(lines), i) || ShownInCode(Rows(lines), i)
  {
    var rows := Rows(lines);
    FenceIff(lines[i]);
    if Pushes(rows, i) {
      ElementIff(rows, |rows|, ElementAt(rows, i));
    }
    if Shown(Elements(rows, |rows|), lines, i) {
      var e: Element :| e in Elements(rows, |lines|) &&
        match e
        case Element(index, block) => index == i && Reads(lines[i], block)
        case CodeElement(index, _, code) => index - |code| <= i < index && code[i - (index - |code|)] == lines[i];
      ElementIff(rows, |rows|, e);
    }
  }

  lemma RowsAre(lines: seq<Line>)
    ensures forall k :: 0 <= k < |lines| ==>
      && (Rows(lines)[k].Fence? <==> IsFence(lines[k]))
      && (if Rows(lines)[k].Fence? then Trim(lines[k]) == "```" + Rows(lines)[k].lang else Rows(lines)[k].line == lines[k])
  {
    forall k | 0 <= k < |lines| {
      FenceIff(lines[k]);
    }
  }

  lemma TextsAre(lines: seq<Line>, from: nat, to: nat)
    requires from <= to <= |lines| && forall j :: from <= j < to ==> Rows(lines)[j].Text? && Rows(lines)[j].line == lines[j]
    ensures Texts(Rows(lines)[from..to]) == lines[from..to]
  {
  }

  /** The `from`-th to the last line before line i, as a code block that line `open` begins and line i closes. */
  ghost predicate IsCode(lines: seq<Line>, e: Element, open: nat, from: nat)
    requires e.CodeElement?
  {
    && open + 1 == from <= e.index < |lines|
    && IsFence(lines[open]) && IsFence(lines[e.index]) && (forall j :: from <= j < e.index ==> !IsFence(lines[j]))
    && Trim(lines[open]) == "```" + e.lang && e.lines == lines[from..e.index]
  }

  lemma PushedCodeIs(lines: seq<Line>, i: nat, open: nat, from: nat)
    requires i < |lines| && Pushes(Rows(lines), i) && Rows(lines)[i].Fence?
    requires open == LastFence(Rows(lines), i) && from == open + 1
    ensures IsCode(lines, ElementAt(Rows(lines), i), open, from)
  {
    RowsAre(lines);
    TextsAre(lines, from, i);
  }

  /** A code block on the page: the lines between its two fences, under what follows the first fence's backticks. */
  lemma CodeBlockIs(lines: seq<Line>, e: Element) returns (open: nat, from: nat)
    requires e in Elements(Rows(lines), |lines|) && e.CodeElement?
    ensures IsCode(lines, e, open, from)
  {
    ElementIff(Rows(lines), |lines|, e);
    open := LastFence(Rows(lines), e.index);
    from := open + 1;
    PushedCodeIs(lines, e.index, open, from);
  }

  lemma ClosedBlockShowsItsLines(rows: seq<Row>, i: nat, k: nat)
    requires i < k < |rows| && InCode(rows, i) && rows[k].Fence?
    requires forall j :: i <= j < k ==> !rows[j].Fence?
    ensures ShownInCode(rows, i)
    ensures Pushes(rows, k) && ElementAt(rows, k).CodeElement? && rows[i].line in ElementAt(rows, k).lines
  {
    FencesBetween(rows, i, k);
    var open := LastFence(rows, k);
    assert open < i;
    var e := ElementAt(rows, k);
    ElementIff(rows, |rows|, e);
    assert e.lines == Texts(rows[open + 1..k]);
    assert Texts(rows[open + 1..k])[i - open - 1] == rows[i].line;
  }

  /** A code line is shown in one block only. */
  lemma CodeBlocksAreDisjoint(rows: seq<Row>, e: Element, f: Element)
    requires e in Elements(rows, |rows|) && f in Elements(rows, |rows|)
    requires e.CodeElement? && f.CodeElement? && e.index < f.index
    ensures e.index < f.index - |f.lines|
  {
    ElementIff(rows, |rows|, e);
    ElementIff(rows, |rows|, f);
    CodeCloses(rows, e.index);
    CodeCloses(rows, f.index);
  }

  /** A code element's line is a fence in code, and its lines run back to the nearest fence. */
  lemma CodeCloses(rows: seq<Row>, i: nat)
    requires i < |rows| && Pushes(rows, i) && ElementAt(rows, i).CodeElement?
    ensures rows[i].Fence? && InCode(rows, i)
    ensures var n := |ElementAt(rows, i).lines|;
      n < i && rows[i - n - 1].Fence? && forall j :: i - n <= j < i ==> !rows[j].Fence?
    ensures var n := |ElementAt(rows, i).lines|;
      ElementAt(rows, i) == CodeElement(i, rows[i - n - 1].lang, Texts(rows[i - n..i]))
  {
  }
}
