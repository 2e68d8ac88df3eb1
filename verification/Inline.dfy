/** Inline Markdown: the tokenizer loop for bold, inline code and links. */
module Inline {
  import opened JsStrings
  import opened Options
  import opened Regex
  import opened Sequences

  /** /(\*\*.*?\*\*|`.*?`|\[.*?\]\(.*?\))/g */
  const BOLD := Cat(Lit("**"), Cat(LazyDots, Lit("**")))
  const CODE := Cat(Lit("`"), Cat(LazyDots, Lit("`")))
  const URL_END := Cat(LazyDots, Lit(")"))
  const LINK := Cat(Lit("["), Cat(LazyDots, Cat(Lit("]("), URL_END)))
  const TOKEN := Alt(BOLD, Alt(CODE, LINK))

  datatype Part =
    | Text(text: string)
    | Bold(text: string)
    | Code(text: string)
    | Link(text: string, url: string)
  {
    /** The Markdown this part came from. */
    function Print(): string {
      match this
      case Text(t) => t
      case Bold(t) => "**" + t + "**"
      case Code(t) => "`" + t + "`"
      case Link(t, u) => "[" + t + "](" + u + ")"
    }
  }

  /** A node list, or the text itself when there is no node. */
  datatype Rendered = Parts(parts: seq<Part>) | Raw(text: string)

  // ----- Reading one token, with the source's string operations

  /** String.prototype.indexOf, with the length standing for "absent". */
  function IndexOf(s: string, w: string): (k: nat)
    ensures k < |s| ==> WordAt(s, k, w)
    ensures k <= |s| && forall j: nat :: j < k ==> !WordAt(s, j, w)
  {
    IndexFrom(s, w, 0)
  }

  function IndexFrom(s: string, w: string, i: nat): (k: nat)
    requires i <= |s|
    ensures i <= k <= |s|
    ensures k < |s| ==> WordAt(s, k, w)
    ensures forall j: nat :: i <= j < k ==> !WordAt(s, j, w)
    decreases |s| - i
  {
    if i == |s| || WordAt(s, i, w) then i else IndexFrom(s, w, i + 1)
  }

  /** `s.slice(front, -back)`. */
  function Trimmed(s: string, front: nat, back: nat): string {
    if front + back <= |s| then s[front..|s| - back] else ""
  }

  /** `s.substring(a, b)`: bounds clamped to the string and put in order. */
  function Substring(s: string, a: nat, b: int): string {
    var lo := if a > |s| then |s| else a;
    var hi := if b < 0 then 0 else if b > |s| then |s| else b;
    if lo <= hi then s[lo..hi] else s[hi..lo]
  }

  /** The node pushed for a matched token; no branch may apply. */
  function PartOf(token: string): Option<Part> {
    if StartsWith(token, "**") && EndsWith(token, "**") then Some(Bold(Trimmed(token, 2, 2)))
    else if StartsWith(token, "`") && EndsWith(token, "`") then Some(Code(Trimmed(token, 1, 1)))
    else
      var k := IndexOf(token, "](");
      if StartsWith(token, "[") && k < |token| && EndsWith(token, ")")
      then Some(Link(Substring(token, 1, k), Substring(token, k + 2, |token| - 1)))
      else None
  }

  // ----- The whole line

  function PrintAll(parts: seq<Part>): string {
    Flatten(seq(|parts|, k requires 0 <= k < |parts| => parts[k].Print()))
  }

  function PlainText(s: string): seq<Part> {
    if s == "" then [] else [Text(s)]
  }

  /** `regex.exec(text)` with `regex.lastIndex` as its second argument. */
  type Scanner = (string, nat) -> Option<Match>

  /** Every match lies ahead and has at least two characters, so the loop ends. */
  ghost predicate Progresses(exec: Scanner) {
    forall s, i: nat :: i <= |s| && exec(s, i).Some? ==>
      var m := exec(s, i).value;
      i <= m.index && m.index + 2 <= m.end <= |s|
  }

  /** The parts of s from position `from` on. */
  ghost function Parse(exec: Scanner, s: string, from: nat): seq<Part>
    requires from <= |s| && Progresses(exec)
    decreases |s| - from
  {
    if exec(s, from).None? then PlainText(s[from..])
    else
      var m := exec(s, from).value;
      Pushes(s[from..m.index], PartOf(s[m.index..m.end])) + Parse(exec, s, m.end)
  }

  /** What one turn of the loop pushes. */
  function Pushes(plain: string, part: Option<Part>): seq<Part> {
    PlainText(plain) + if part.Some? then [part.value] else []
  }

  /** The loop of `formatInline`, for the matches of any scanner that makes progress. */
  method FormatWith(exec: Scanner, text: string) returns (r: Rendered)
    requires Progresses(exec)
    ensures Parse(exec, text, 0) == if r.Raw? then [] else r.parts
    ensures r.Raw? ==> r.text == text
    ensures r.Parts? ==> r.parts != []
  {
    var parts := [];
    var lastIdx := 0;
    var m := exec(text, lastIdx);
    ghost var rest := Parse(exec, text, 0);
    while m.Some?
      invariant lastIdx <= |text| && m == exec(text, lastIdx) && rest == Parse(exec, text, lastIdx)
      invariant parts + rest == Parse(exec, text, 0)
      decreases |text| - lastIdx
    {
      ghost var before := parts;
      var plain := text[lastIdx..m.value.index];
      if m.value.index > lastIdx {
        parts := parts + [Text(plain)];
      }
      var part := PartOf(text[m.value.index..m.value.end]);
      if part.Some? {
        parts := parts + [part.value];
      }
      assert parts == before + Pushes(plain, part);
      lastIdx := m.value.end;
      rest := Parse(exec, text, lastIdx);
      ConcatAssociates(before, Pushes(plain, part), rest);
      m := exec(text, lastIdx);
    }
    if lastIdx < |text| {
      parts := parts + [Text(text[lastIdx..])];
    }
    r := if |parts| > 0 then Parts(parts) else Raw(text);
  }

  /** `formatInline`: the parts of the text, or the text itself when it is empty. */
  method FormatInline(text: string) returns (r: Rendered)
    ensures r == if text == "" then Raw(text) else Parts(InlineParts(text))
  {
    NextTokenProgresses();
    RoundTrip(text);
    r := FormatWith(NextToken, text);
  }

  function NextToken(s: string, from: nat): Option<Match> {
    if from <= |s| then Exec(TOKEN, s, from) else None
  }

  ghost function InlineParts(s: string): seq<Part> {
    NextTokenProgresses();
    Parse(NextToken, s, 0)
  }

  // ----- What a token is

  /** The nearest closing delimiters of a token that starts at i. */
  datatype Token = NoToken | BoldToken(close: nat) | CodeToken(close: nat) | LinkToken(middle: nat, close: nat) {
    function End(): nat
      requires !NoToken?
    {
      if BoldToken? then close + 2 else close + 1
    }
  }

  ghost predicate BoldAt(s: string, i: nat, j: nat) {
    WordAt(s, i, "**") && Closes(s, i + 2, "**", j)
  }

  ghost predicate CodeAt(s: string, i: nat, j: nat) {
    WordAt(s, i, "`") && Closes(s, i + 1, "`", j)
  }

  ghost predicate LinkAt(s: string, i: nat, j: nat, k: nat) {
    WordAt(s, i, "[") && Closes(s, i + 1, "](", j) && Closes(s, j + 2, ")", k)
  }

  ghost predicate IsToken(s: string, i: nat, t: Token) {
    match t
    case BoldToken(j) => BoldAt(s, i, j)
    case CodeToken(j) => CodeAt(s, i, j)
    case LinkToken(j, k) => LinkAt(s, i, j, k)
    case NoToken =>
      && (forall j: nat :: !BoldAt(s, i, j) && !CodeAt(s, i, j))
      && (forall j: nat, k: nat :: !LinkAt(s, i, j, k))
  }

  ghost predicate NeverReaches(s: string, i: nat, w: string) {
    forall k: nat :: !Reaches(s, i, w, k)
  }

  /** The ends of a token with one delimiter: the nearest closing one, or none when there is no opening or closing. */
  ghost predicate DelimitedFits(w: string, s: string, i: nat, j: nat, ends: seq<nat>) {
    if ends == [] then !WordAt(s, i, w) || NeverReaches(s, i + |w|, w)
    else WordAt(s, i, w) && Closes(s, i + |w|, w, j) && ends[0] == j + |w|
  }

  lemma NearestFits(w: string, s: string, i: nat, j: nat, ends: seq<nat>)
    requires WordAt(s, i, w) && Nearest(w, s, i + |w|, j, ends)
    ensures DelimitedFits(w, s, i, j, ends)
  {
  }

  lemma DelimitedMeaning(w: string, s: string, i: nat) returns (j: nat)
    requires i <= |s|
    ensures DelimitedFits(w, s, i, j, Ends(Cat(Lit(w), Cat(LazyDots, Lit(w))), s, i))
  {
    var tail := Cat(LazyDots, Lit(w));
    LitThen(w, tail, s, i);
    j := 0;
    if WordAt(s, i, w) {
      j := LazyFindsNearest(w, s, i + |w|);
      NearestFits(w, s, i, j, Ends(tail, s, i + |w|));
    }
  }

  ghost predicate LinkTail(s: string, m: nat, j: nat, k: nat, ends: seq<nat>) {
    if ends == [] then forall a: nat :: Reaches(s, m, "](", a) ==> NeverReaches(s, a + 2, ")")
    else Closes(s, m, "](", j) && Closes(s, j + 2, ")", k) && ends[0] == k + 1
  }

  lemma LinkTailUnfolds(s: string, m: nat)
    requires m <= |s|
    ensures Ends(Cat(LazyDots, Cat(Lit("]("), URL_END)), s, m) ==
            (if WordAt(s, m, "](") then Ends(URL_END, s, m + 2) else [])
            + (if m < |s| && Dot(s[m]) then Ends(Cat(LazyDots, Cat(Lit("]("), URL_END)), s, m + 1) else [])
  {
    LazyUnfolds(Cat(Lit("]("), URL_END), s, m);
    LitThen("](", URL_END, s, m);
  }

  lemma UrlEnd(s: string, m: nat) returns (k: nat, ends: seq<nat>)
    requires m <= |s|
    ensures ends == if WordAt(s, m, "](") then Ends(URL_END, s, m + 2) else []
    ensures WordAt(s, m, "](") ==> Nearest(")", s, m + 2, k, ends)
  {
    k, ends := 0, [];
    if WordAt(s, m, "](") {
      k := LazyFindsNearest(")", s, m + 2);
      ends := Ends(URL_END, s, m + 2);
    }
  }

  /** The first "](" is the right one: a later one could only succeed where the first does. */
  lemma {:induction false} LinkTailMeaning(s: string, m: nat) returns (j: nat, k: nat)
    requires m <= |s|
    ensures LinkTail(s, m, j, k, Ends(Cat(LazyDots, Cat(Lit("]("), URL_END)), s, m))
    decreases |s| - m
  {
    LinkTailUnfolds(s, m);
    var first;
    k, first := UrlEnd(s, m);
    j := m;
    if m < |s| && Dot(s[m]) {
      var j', k' := LinkTailMeaning(s, m + 1);
      LinkTailStep(s, m, k, j', k', first, Ends(Cat(LazyDots, Cat(Lit("]("), URL_END)), s, m + 1));
      if first == [] {
        j, k := j', k';
      }
    } else {
      MiddleIsDots(s, m);
    }
  }

  lemma MiddleIsDots(s: string, m: nat)
    ensures WordAt(s, m, "](") ==> Dot(s[m])
    ensures !(m < |s| && Dot(s[m])) ==> NeverReaches(s, m, "](")
  {
    if WordAt(s, m, "](") {
      assert s[m..m + 2][0] == s[m];
    }
    forall k: nat | Reaches(s, m, "](", k) ensures k == m || Dot(s[m]) {
    }
  }

  lemma LinkTailStep(s: string, m: nat, k: nat, j': nat, k': nat, first: seq<nat>, later: seq<nat>)
    requires m < |s| && Dot(s[m]) && LinkTail(s, m + 1, j', k', later)
    requires WordAt(s, m, "](") ==> Nearest(")", s, m + 2, k, first)
    requires !WordAt(s, m, "](") ==> first == []
    ensures if first != [] then LinkTail(s, m, m, k, first + later) else LinkTail(s, m, j', k', first + later)
  {
    if first == [] {
      forall a: nat | Reaches(s, m, "](", a) && a != m ensures Reaches(s, m + 1, "](", a) {
      }
      if WordAt(s, m, "](") && later != [] {
        DotsThroughMiddle(s, m + 1, j', k');
        assert Reaches(s, m + 2, ")", k');
      }
    }
  }

  lemma DotsThroughMiddle(s: string, m: nat, j: nat, k: nat)
    requires Reaches(s, m, "](", j) && Reaches(s, j + 2, ")", k)
    ensures AllDots(s, m, k)
  {
    assert s[j..j + 2] == "](";
    assert s[j] == ']' && s[j + 1] == '(';
  }

  ghost predicate LinkFits(s: string, i: nat, j: nat, k: nat, ends: seq<nat>) {
    if ends == [] then forall a: nat, b: nat :: !LinkAt(s, i, a, b)
    else LinkAt(s, i, j, k) && ends[0] == k + 1
  }

  lemma TailFits(s: string, i: nat, j: nat, k: nat, ends: seq<nat>)
    requires WordAt(s, i, "[") && LinkTail(s, i + 1, j, k, ends)
    ensures LinkFits(s, i, j, k, ends)
  {
  }

  lemma LinkMeaning(s: string, i: nat) returns (j: nat, k: nat)
    requires i <= |s|
    ensures LinkFits(s, i, j, k, Ends(LINK, s, i))
  {
    var tail := Cat(LazyDots, Cat(Lit("]("), URL_END));
    LitThen("[", tail, s, i);
    j, k := 0, 0;
    if WordAt(s, i, "[") {
      j, k := LinkTailMeaning(s, i + 1);
      TailFits(s, i, j, k, Ends(tail, s, i + 1));
    }
  }

  /** Of three alternatives the first that matches decides. */
  lemma FirstAlternative(s: string, i: nat, b: nat, c: nat, j: nat, k: nat, bold: seq<nat>, code: seq<nat>, link: seq<nat>)
    returns (t: Token)
    requires DelimitedFits("**", s, i, b, bold) && DelimitedFits("`", s, i, c, code) && LinkFits(s, i, j, k, link)
    ensures IsToken(s, i, t)
    ensures t.NoToken? <==> bold + (code + link) == []
    ensures !t.NoToken? ==> (bold + (code + link))[0] == t.End()
  {
    if bold != [] {
      t := BoldToken(b);
    } else if code != [] {
      t := CodeToken(c);
    } else if link != [] {
      t := LinkToken(j, k);
    } else {
      t := NoToken;
    }
  }

  lemma AltEnds(a: Regex, b: Regex, s: string, i: nat)
    requires i <= |s|
    ensures Ends(Alt(a, b), s, i) == Ends(a, s, i) + Ends(b, s, i)
  {
  }

  /**
   The regular expression means what the Markdown rule says: its match at i is
   bold, else code, else a link, each closed at the nearest delimiter on the line.
   */
  lemma TokenMeaning(s: string, i: nat) returns (t: Token)
    requires i <= |s|
    ensures IsToken(s, i, t)
    ensures t.NoToken? <==> Ends(TOKEN, s, i) == []
    ensures !t.NoToken? ==> Ends(TOKEN, s, i)[0] == t.End()
  {
    var b := DelimitedMeaning("**", s, i);
    var c := DelimitedMeaning("`", s, i);
    var j, k := LinkMeaning(s, i);
    t := FirstAlternative(s, i, b, c, j, k, Ends(BOLD, s, i), Ends(CODE, s, i), Ends(LINK, s, i));
    AltEnds(CODE, LINK, s, i);
    AltEnds(BOLD, Alt(CODE, LINK), s, i);
  }

  lemma NextTokenProgresses()
    ensures Progresses(NextToken)
  {
    forall s, i: nat | i <= |s| && NextToken(s, i).Some?
      ensures NextToken(s, i).value.index + 2 <= NextToken(s, i).value.end <= |s|
    {
      var t := TokenMeaning(s, NextToken(s, i).value.index);
    }
  }

  /** The matched text becomes a styled node that prints back to it. */
  ghost predicate TokenPrintsBack(token: string) {
    PartOf(token).Some? && PartOf(token).value.Print() == token && !PartOf(token).value.Text?
  }

  ghost predicate PrintsBack(exec: Scanner, s: string)
    requires Progresses(exec)
  {
    forall i: nat :: i <= |s| && exec(s, i).Some? ==> TokenPrintsBack(s[exec(s, i).value.index..exec(s, i).value.end])
  }

  lemma Delimited(s: string, i: nat, w: string, j: nat)
    requires WordAt(s, i, w) && WordAt(s, j, w) && i + |w| <= j
    ensures s[i..j + |w|] == w + s[i + |w|..j] + w
  {
    SplitSlice(s, i, i + |w|, j);
    SplitSlice(s, i, j, j + |w|);
  }

  lemma BoldPrintsBack(inner: string)
    ensures TokenPrintsBack("**" + inner + "**")
  {
    var token := "**" + inner + "**";
    assert token[..2] == "**" && token[|token| - 2..] == "**" && token[2..|token| - 2] == inner;
  }

  lemma CodePrintsBack(inner: string)
    ensures TokenPrintsBack("`" + inner + "`")
  {
    var token := "`" + inner + "`";
    assert token[..1] == "`" && token[|token| - 1..] == "`" && token[1..|token| - 1] == inner;
    assert token[0] == '`' && !StartsWith(token, "**");
  }

  lemma LinkPrintsBack(text: string, url: string)
    requires IndexOf("[" + text + "](" + url + ")", "](") == |text| + 1
    ensures TokenPrintsBack("[" + text + "](" + url + ")")
  {
    var token := "[" + text + "](" + url + ")";
    assert token[..1] == "[" && token[|token| - 1..] == ")";
    assert token[0] == '[' && !StartsWith(token, "**") && !StartsWith(token, "`");
    assert token[1..|text| + 1] == text && token[|text| + 3..|token| - 1] == url;
  }

  /** The link text ends where the regular expression found it: nothing before is "](". */
  lemma LinkTextEnds(s: string, i: nat, j: nat, k: nat)
    requires LinkAt(s, i, j, k)
    ensures IndexOf(s[i..k + 1], "](") == j - i
  {
    var token := s[i..k + 1];
    SliceOfSlice(s, i, k + 1, j - i, j - i + 2);
    assert WordAt(token, j - i, "](");
    assert token[0] == s[i..i + 1][0] == '[';
    forall x: nat | x < j - i ensures !WordAt(token, x, "](") {
      assert x > 0 ==> !WordAt(s, i + x, "](");
      if x + 2 <= |token| {
        SliceOfSlice(s, i, k + 1, x, x + 2);
        assert token[x..x + 2][0] == token[x];
      }
    }
  }

  lemma LinkPieces(s: string, i: nat, j: nat, k: nat)
    requires LinkAt(s, i, j, k)
    ensures s[i..k + 1] == "[" + s[i + 1..j] + "](" + s[j + 2..k] + ")"
  {
    SplitSlice(s, i, i + 1, j);
    SplitSlice(s, i, j, j + 2);
    SplitSlice(s, i, j + 2, k);
    SplitSlice(s, i, k, k + 1);
  }

  lemma BoldAtPrintsBack(s: string, i: nat, j: nat, e: nat)
    requires BoldAt(s, i, j) && e == j + 2
    ensures i + 2 <= e <= |s| && TokenPrintsBack(s[i..e])
  {
    Delimited(s, i, "**", j);
    BoldPrintsBack(s[i + 2..j]);
  }

  lemma CodeAtPrintsBack(s: string, i: nat, j: nat, e: nat)
    requires CodeAt(s, i, j) && e == j + 1
    ensures i + 2 <= e <= |s| && TokenPrintsBack(s[i..e])
  {
    CodePieces(s, i, j);
    CodePrintsBack(s[i + 1..j]);
    PrintsBackAs(s[i..e], "`" + s[i + 1..j] + "`");
  }

  lemma CodePieces(s: string, i: nat, j: nat)
    requires CodeAt(s, i, j)
    ensures i + 1 <= j < |s| && s[i..j + 1] == "`" + s[i + 1..j] + "`"
  {
    Delimited(s, i, "`", j);
  }

  lemma PrintsBackAs(token: string, printed: string)
    requires token == printed && TokenPrintsBack(printed)
    ensures TokenPrintsBack(token)
  {
  }

  lemma LinkAtPrintsBack(s: string, i: nat, j: nat, k: nat, e: nat)
    requires LinkAt(s, i, j, k) && e == k + 1
    ensures i + 2 <= e <= |s| && TokenPrintsBack(s[i..e])
  {
    LinkPieces(s, i, j, k);
    LinkTextEnds(s, i, j, k);
    LinkPrintsBack(s[i + 1..j], s[j + 2..k]);
  }

  lemma KindPrintsBack(s: string, i: nat, t: Token, e: nat)
    requires !t.NoToken? && IsToken(s, i, t) && e == t.End()
    ensures i + 2 <= e <= |s| && TokenPrintsBack(s[i..e])
  {
    match t
    case BoldToken(j) => BoldAtPrintsBack(s, i, j, e);
    case CodeToken(j) => CodeAtPrintsBack(s, i, j, e);
    case LinkToken(j, k) => LinkAtPrintsBack(s, i, j, k, e);
  }

  /** Some branch of the token test always applies, and none loses a character. */
  lemma TokensPrintBack(s: string)
    requires Progresses(NextToken)
    ensures PrintsBack(NextToken, s)
  {
    forall i: nat | i <= |s| && NextToken(s, i).Some?
      ensures TokenPrintsBack(s[NextToken(s, i).value.index..NextToken(s, i).value.end])
    {
      var m := NextToken(s, i).value;
      var t := TokenMeaning(s, m.index);
      KindPrintsBack(s, m.index, t, m.end);
    }
  }

  lemma PrintConcat(a: seq<Part>, b: seq<Part>)
    ensures PrintAll(a + b) == PrintAll(a) + PrintAll(b)
  {
    var pa := seq(|a|, k requires 0 <= k < |a| => a[k].Print());
    var pb := seq(|b|, k requires 0 <= k < |b| => b[k].Print());
    assert seq(|a + b|, k requires 0 <= k < |a + b| => (a + b)[k].Print()) == pa + pb;
    FlattenConcat(pa, pb);
  }

  lemma PrintOne(part: Part)
    ensures PrintAll([part]) == part.Print()
  {
    assert seq(1, k requires 0 <= k < 1 => [part][k].Print()) == [part.Print()];
    FlattenOne(part.Print());
  }

  lemma PrintPlain(s: string)
    ensures PrintAll(PlainText(s)) == s
  {
    if s != "" {
      PrintOne(Text(s));
    }
  }

  lemma PrintStep(plain: string, token: string, tail: string, part: Part, rest: seq<Part>)
    requires part.Print() == token && PrintAll(rest) == tail
    ensures PrintAll(Pushes(plain, Some(part)) + rest) == plain + token + tail
  {
    PrintConcat(PlainText(plain) + [part], rest);
    PrintConcat(PlainText(plain), [part]);
    PrintPlain(plain);
    PrintOne(part);
  }

  lemma {:induction false} PrintParse(exec: Scanner, s: string, from: nat)
    requires from <= |s| && Progresses(exec) && PrintsBack(exec, s)
    ensures PrintAll(Parse(exec, s, from)) == s[from..]
    decreases |s| - from
  {
    if exec(s, from).None? {
      PrintPlain(s[from..]);
    } else {
      var m := exec(s, from).value;
      PrintParse(exec, s, m.end);
      PrintStep(s[from..m.index], s[m.index..m.end], s[m.end..], PartOf(s[m.index..m.end]).value, Parse(exec, s, m.end));
      SplitTwice(s, from, m.index, m.end);
    }
  }

  /** Printing the parts of a line gives the line back. */
  lemma RoundTrip(s: string)
    ensures PrintAll(InlineParts(s)) == s
  {
    NextTokenProgresses();
    TokensPrintBack(s);
    PrintParse(NextToken, s, 0);
  }

  /** Plain parts are non-empty, hold no complete token, and never stand side by side. */
  ghost predicate PlainIsMaximal(tokenFree: string -> bool, parts: seq<Part>) {
    && (forall k :: 0 <= k < |parts| && parts[k].Text? ==> parts[k].text != "" && tokenFree(parts[k].text))
    && (forall k :: 0 <= k < |parts| - 1 ==> !(parts[k].Text? && parts[k + 1].Text?))
  }

  predicate TokenFree(s: string) {
    Exec(TOKEN, s, 0).None?
  }

  /** Between two matches, and after the last, the text is free of tokens. */
  ghost predicate GapsAreFree(exec: Scanner, tokenFree: string -> bool, s: string) {
    forall i :: 0 <= i <= |s| ==>
      var to := if exec(s, i).Some? then exec(s, i).value.index else |s|;
      i <= to <= |s| ==> tokenFree(s[i..to])
  }

  lemma NoTokenAtEnd(s: string)
    ensures Ends(TOKEN, s, |s|) == []
  {
    var t := TokenMeaning(s, |s|);
  }

  lemma GapIsTokenFree(s: string, i: nat, to: nat)
    requires i <= to <= |s| && NoneBetween(TOKEN, s, i, to)
    ensures TokenFree(s[i..to])
  {
    NoTokenAtEnd(s[i..to]);
    NoMatchInside(TOKEN, s, i, s[i..to]);
  }

  lemma AllGapsAreFree(s: string)
    ensures GapsAreFree(NextToken, TokenFree, s)
  {
    forall i | 0 <= i <= |s|
      ensures var to := if NextToken(s, i).Some? then NextToken(s, i).value.index else |s|;
        i <= to <= |s| && TokenFree(s[i..to])
    {
      GapIsTokenFree(s, i, if NextToken(s, i).Some? then NextToken(s, i).value.index else |s|);
    }
  }

  lemma MaximalStep(tokenFree: string -> bool, plain: string, part: Part, rest: seq<Part>)
    requires tokenFree(plain) && !part.Text? && PlainIsMaximal(tokenFree, rest)
    ensures PlainIsMaximal(tokenFree, Pushes(plain, Some(part)) + rest)
  {
    var before := PlainText(plain) + [part];
    assert forall k :: 0 <= k < |rest| ==> (before + rest)[|before| + k] == rest[k];
    assert forall k :: 0 <= k < |before| ==> (before + rest)[k] == before[k];
  }

  lemma {:induction false} ParseIsMaximal(exec: Scanner, tokenFree: string -> bool, s: string, from: nat)
    requires from <= |s| && Progresses(exec) && PrintsBack(exec, s) && GapsAreFree(exec, tokenFree, s)
    ensures PlainIsMaximal(tokenFree, Parse(exec, s, from))
    decreases |s| - from
  {
    if exec(s, from).Some? {
      var m := exec(s, from).value;
      ParseIsMaximal(exec, tokenFree, s, m.end);
      MaximalStep(tokenFree, s[from..m.index], PartOf(s[m.index..m.end]).value, Parse(exec, s, m.end));
    } else {
      assert s[from..|s|] == s[from..];
    }
  }

  /** No token is missed: what stays plain text holds none, and plain parts are never split. */
  lemma EveryTokenIsFound(s: string)
    ensures PlainIsMaximal(TokenFree, InlineParts(s))
  {
    NextTokenProgresses();
    TokensPrintBack(s);
    AllGapsAreFree(s);
    ParseIsMaximal(NextToken, TokenFree, s, 0);
  }
}
