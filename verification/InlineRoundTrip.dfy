/**
 The other round trip of inline Markdown: a list of parts, printed and read again, is that list. It says which texts come
 out bold, as code and as links.
 */
module InlineRoundTrip {
  import opened JsStrings
  import opened Options
  import opened Regex
  import opened Sequences
  import opened Inline

  ghost predicate OneLine(t: string) {
    forall c :: c in t ==> c != '\n' && c != '\r' && c != '\U{2028}' && c != '\U{2029}'
  }

  /** Nothing inside the part reads as the end of it, and nothing in plain text as the start of a token. */
  ghost predicate Clean(p: Part) {
    match p
    case Text(t) => t != "" && '*' !in t && '`' !in t && '[' !in t
    case Bold(t) => '*' !in t && OneLine(t)
    case Code(t) => '`' !in t && OneLine(t)
    case Link(t, u) => ']' !in t && ')' !in u && OneLine(t) && OneLine(u)
  }

  ghost predicate CleanList(ps: seq<Part>) {
    && (forall p :: p in ps ==> Clean(p))
    && forall k :: 0 <= k < |ps| - 1 ==> !(ps[k].Text? && ps[k + 1].Text?)
  }

  // ----- One token

  /** From position i on, s reads `inner` and then w. */
  lemma InnerCloses(s: string, i: nat, inner: string, w: string, j: nat)
    requires j == i + |inner| && j + |w| <= |s| && s[i..j] == inner && s[j..j + |w|] == w && w != ""
    requires w[0] !in inner && OneLine(inner)
    ensures Closes(s, i, w, j)
  {
    forall k | i <= k < j
      ensures Dot(s[k]) && !WordAt(s, k, w)
    {
      assert s[k] == inner[k - i] && inner[k - i] in inner;
      assert k + |w| <= |s| ==> s[k..k + |w|][0] == s[k];
    }
  }

  lemma ClosesOnce(s: string, i: nat, w: string, j: nat, k: nat)
    requires Closes(s, i, w, j) && Closes(s, i, w, k)
    ensures j == k
  {
  }

  lemma FirstChar(s: string, i: nat, w: string)
    requires WordAt(s, i, w) && w != ""
    ensures i < |s| && s[i] == w[0]
  {
    assert s[i..i + |w|][0] == s[i];
  }

  /** Which tokens a character can begin. */
  lemma TokenBegins(s: string, i: nat, t: Token)
    requires IsToken(s, i, t) && !t.NoToken?
    ensures i < |s| && s[i] == (if t.BoldToken? then '*' else if t.CodeToken? then '`' else '[')
  {
    FirstChar(s, i, if t.BoldToken? then "**" else if t.CodeToken? then "`" else "[");
  }

  lemma BoldMatches(s: string, i: nat, inner: string, j: nat)
    requires j == i + 2 + |inner| && j + 2 <= |s| && s[i..i + 2] == "**" && s[i + 2..j] == inner && s[j..j + 2] == "**"
    requires Clean(Bold(inner))
    ensures Ends(TOKEN, s, i) != [] && Ends(TOKEN, s, i)[0] == j + 2
  {
    InnerCloses(s, i + 2, inner, "**", j);
    assert BoldAt(s, i, j);
    FirstChar(s, i, "**");
    var t := TokenMeaning(s, i);
    if !t.NoToken? {
      TokenBegins(s, i, t);
      ClosesOnce(s, i + 2, "**", j, t.close);
    }
  }

  lemma CodeMatches(s: string, i: nat, inner: string, j: nat)
    requires j == i + 1 + |inner| && j + 1 <= |s| && s[i..i + 1] == "`" && s[i + 1..j] == inner && s[j..j + 1] == "`"
    requires Clean(Code(inner))
    ensures Ends(TOKEN, s, i) != [] && Ends(TOKEN, s, i)[0] == j + 1
  {
    InnerCloses(s, i + 1, inner, "`", j);
    assert CodeAt(s, i, j);
    FirstChar(s, i, "`");
    var t := TokenMeaning(s, i);
    if !t.NoToken? {
      TokenBegins(s, i, t);
      ClosesOnce(s, i + 1, "`", j, t.close);
    }
  }

  lemma LinkMatches(s: string, i: nat, text: string, j: nat, url: string, k: nat)
    requires j == i + 1 + |text| && k == j + 2 + |url| && k + 1 <= |s|
    requires s[i..i + 1] == "[" && s[i + 1..j] == text && s[j..j + 2] == "](" && s[j + 2..k] == url && s[k..k + 1] == ")"
    requires Clean(Link(text, url))
    ensures Ends(TOKEN, s, i) != [] && Ends(TOKEN, s, i)[0] == k + 1 && LinkAt(s, i, j, k)
  {
    InnerCloses(s, i + 1, text, "](", j);
    InnerCloses(s, j + 2, url, ")", k);
    assert LinkAt(s, i, j, k);
    FirstChar(s, i, "[");
    var t := TokenMeaning(s, i);
    if !t.NoToken? {
      TokenBegins(s, i, t);
      ClosesOnce(s, i + 1, "](", j, t.middle);
      ClosesOnce(s, j + 2, ")", k, t.close);
    }
  }

  lemma BoldPart(t: string)
    ensures PartOf("**" + t + "**") == Some(Bold(t))
  {
    var token := "**" + t + "**";
    assert token[..2] == "**" && token[|token| - 2..] == "**" && token[2..|token| - 2] == t;
  }

  lemma CodePart(t: string)
    ensures PartOf("`" + t + "`") == Some(Code(t))
  {
    var token := "`" + t + "`";
    assert token[..1] == "`" && token[|token| - 1..] == "`" && token[1..|token| - 1] == t;
    assert token[0] == '`' && !StartsWith(token, "**");
  }

  lemma LinkPart(t: string, u: string)
    requires IndexOf("[" + t + "](" + u + ")", "](") == |t| + 1
    ensures PartOf("[" + t + "](" + u + ")") == Some(Link(t, u))
  {
    var token := "[" + t + "](" + u + ")";
    assert token[..1] == "[" && token[|token| - 1..] == ")";
    assert token[0] == '[' && !StartsWith(token, "**") && !StartsWith(token, "`");
    assert token[1..|t| + 1] == t && token[|t| + 3..|token| - 1] == u;
  }

  /** At i the regular expression takes the whole of [i, e), and the node pushed for it is p. */
  ghost predicate Matches(s: string, i: nat, e: nat, p: Part) {
    i <= e <= |s| && Ends(TOKEN, s, i) != [] && Ends(TOKEN, s, i)[0] == e && PartOf(s[i..e]) == Some(p)
  }

  /** s from i on reads as the pieces, one after the other, up to e. */
  lemma PiecesAre(s: string, i: nat, e: nat, a: string, b: string, c: string)
    requires i <= e <= |s| && s[i..e] == a + b + c
    ensures e == i + |a| + |b| + |c|
    ensures s[i..i + |a|] == a && s[i + |a|..i + |a| + |b|] == b && s[i + |a| + |b|..e] == c
  {
    var t := s[i..e];
    assert t[..|a|] == a && t[|a|..|a| + |b|] == b && t[|a| + |b|..] == c;
    SliceOfSlice(s, i, e, 0, |a|);
    SliceOfSlice(s, i, e, |a|, |a| + |b|);
    SliceOfSlice(s, i, e, |a| + |b|, |t|);
  }

  lemma BoldPrinted(s: string, i: nat, e: nat, t: string)
    requires Clean(Bold(t)) && i <= e <= |s| && s[i..e] == "**" + t + "**"
    ensures Matches(s, i, e, Bold(t))
  {
    PiecesAre(s, i, e, "**", t, "**");
    BoldMatches(s, i, t, i + 2 + |t|);
    BoldPart(t);
  }

  lemma CodePrinted(s: string, i: nat, e: nat, t: string)
    requires Clean(Code(t)) && i <= e <= |s| && s[i..e] == "`" + t + "`"
    ensures Matches(s, i, e, Code(t))
  {
    PiecesAre(s, i, e, "`", t, "`");
    CodeMatches(s, i, t, i + 1 + |t|);
    CodePart(t);
  }

  lemma LinkPiecesAre(s: string, i: nat, e: nat, t: string, u: string)
    requires i <= e <= |s| && s[i..e] == "[" + t + "](" + u + ")"
    ensures var j := i + 1 + |t|;
      var k := j + 2 + |u|;
      e == k + 1 && s[i..i + 1] == "[" && s[i + 1..j] == t && s[j..j + 2] == "](" && s[j + 2..k] == u && s[k..e] == ")"
  {
    var j := i + 1 + |t|;
    ConcatAssociates("[" + t, "](" + u, ")");
    ConcatAssociates("[" + t, "](", u);
    PiecesAre(s, i, e, "[" + t, "](" + u, ")");
    TwoPiecesAre(s, i, j, "[", t);
    TwoPiecesAre(s, j, j + 2 + |u|, "](", u);
  }

  lemma TwoPiecesAre(s: string, i: nat, e: nat, a: string, b: string)
    requires i <= e <= |s| && s[i..e] == a + b
    ensures e == i + |a| + |b| && s[i..i + |a|] == a && s[i + |a|..e] == b
  {
    assert a + b + "" == a + b;
    PiecesAre(s, i, e, a, b, "");
  }

  lemma LinkPrinted(s: string, i: nat, e: nat, t: string, u: string)
    requires Clean(Link(t, u)) && i <= e <= |s| && s[i..e] == "[" + t + "](" + u + ")"
    ensures Matches(s, i, e, Link(t, u))
  {
    var j := i + 1 + |t|;
    var k := j + 2 + |u|;
    LinkPiecesAre(s, i, e, t, u);
    LinkMatches(s, i, t, j, u, k);
    LinkTextEnds(s, i, j, k);
    LinkPart(t, u);
  }

  lemma StyledMatches(s: string, i: nat, e: nat, p: Part)
    requires Clean(p) && !p.Text? && i <= e <= |s| && s[i..e] == p.Print()
    ensures Matches(s, i, e, p)
  {
    match p
    case Bold(t) => BoldPrinted(s, i, e, t);
    case Code(t) => CodePrinted(s, i, e, t);
    case Link(t, u) => LinkPrinted(s, i, e, t, u);
  }

  // ----- Whole lists

  lemma TextBeginsNothing(s: string, i: nat, e: nat, t: string)
    requires Clean(Text(t)) && i <= e <= |s| && s[i..e] == t
    ensures NoneBetween(TOKEN, s, i, e)
  {
    forall k | i <= k < e ensures Ends(TOKEN, s, k) == [] {
      var token := TokenMeaning(s, k);
      assert s[k] == t[k - i] && t[k - i] in t;
      if !token.NoToken? {
        TokenBegins(s, k, token);
      }
    }
  }

  lemma {:induction false} Constant<T>(f: nat -> T, i: nat, e: nat)
    requires i <= e && forall k: nat :: i <= k < e ==> f(k) == f(k + 1)
    ensures f(i) == f(e)
    decreases e - i
  {
    if i < e {
      Constant(f, i + 1, e);
    }
  }

  lemma NextTokenSkips(s: string, i: nat)
    requires i < |s| && Ends(TOKEN, s, i) == []
    ensures NextToken(s, i) == NextToken(s, i + 1)
  {
  }

  lemma NextTokenSkipsAll(s: string, i: nat, e: nat)
    requires i <= e <= |s| && NoneBetween(TOKEN, s, i, e)
    ensures NextToken(s, i) == NextToken(s, e)
  {
    var from: nat -> Option<Match> := (k: nat) => NextToken(s, k);
    forall k: nat | i <= k < e ensures from(k) == from(k + 1) {
      NextTokenSkips(s, k);
    }
    Constant(from, i, e);
  }

  lemma PrintCons(p: Part, rest: seq<Part>)
    ensures PrintAll([p] + rest) == p.Print() + PrintAll(rest)
  {
    PrintConcat([p], rest);
    PrintOne(p);
  }

  lemma TailPrints(s: string, from: nat, printed: string, tail: string)
    requires from <= |s| && s[from..] == printed + tail
    ensures from + |printed| <= |s| && s[from..from + |printed|] == printed && s[from + |printed|..] == tail
  {
    var t := s[from..];
    assert t[..|printed|] == printed && t[|printed|..] == tail;
  }

  lemma CleanTail(ps: seq<Part>)
    requires CleanList(ps) && ps != []
    ensures Clean(ps[0]) && CleanList(ps[1..]) && ps == [ps[0]] + ps[1..]
    ensures ps[0].Text? && |ps| > 1 ==> !ps[1].Text?
  {
    assert ps[0] in ps;
    assert forall p :: p in ps[1..] ==> p in ps;
  }

  lemma StyledNext(s: string, from: nat, p: Part, rest: seq<Part>) returns (e: nat)
    requires from <= |s| && s[from..] == PrintAll([p] + rest) && Clean(p) && !p.Text?
    ensures Matches(s, from, e, p) && s[e..] == PrintAll(rest) && NextToken(s, from) == Some(Match(from, e))
  {
    PrintCons(p, rest);
    TailPrints(s, from, p.Print(), PrintAll(rest));
    e := from + |p.Print()|;
    StyledMatches(s, from, e, p);
  }

  lemma TextNext(s: string, from: nat, t: string, rest: seq<Part>) returns (e: nat)
    requires from <= |s| && s[from..] == PrintAll([Text(t)] + rest) && Clean(Text(t))
    ensures from <= e <= |s| && s[from..e] == t && s[e..] == PrintAll(rest) && NextToken(s, from) == NextToken(s, e)
  {
    PrintCons(Text(t), rest);
    TailPrints(s, from, t, PrintAll(rest));
    e := from + |t|;
    TextBeginsNothing(s, from, e, t);
    NextTokenSkipsAll(s, from, e);
  }

  lemma AtEnd(s: string, from: nat)
    requires from <= |s| && s[from..] == PrintAll([])
    ensures from == |s| && NextToken(s, from) == None
  {
    assert PrintAll([]) == "";
    NoTokenAtEnd(s);
  }

  /** One turn of the parse: the text before the match, and the match. */
  lemma ParseTurn(s: string, from: nat, i: nat, e: nat, p: Part, rest: seq<Part>)
    requires Progresses(NextToken) && from <= i && Matches(s, i, e, p) && NextToken(s, from) == Some(Match(i, e))
    requires Parse(NextToken, s, e) == rest
    ensures Parse(NextToken, s, from) == PlainText(s[from..i]) + [p] + rest
  {
  }

  lemma ParseOfStyled(s: string, from: nat, e: nat, p: Part, rest: seq<Part>)
    requires Progresses(NextToken) && Matches(s, from, e, p) && NextToken(s, from) == Some(Match(from, e))
    requires Parse(NextToken, s, e) == rest
    ensures Parse(NextToken, s, from) == [p] + rest
  {
    ParseTurn(s, from, from, e, p, rest);
    assert s[from..from] == "" && PlainText("") + [p] == [p];
  }

  lemma ParseOfText(s: string, from: nat, i: nat, e: nat, t: string, p: Part, rest: seq<Part>)
    requires Progresses(NextToken) && from <= i && Matches(s, i, e, p) && NextToken(s, from) == Some(Match(i, e))
    requires s[from..i] == t && t != "" && Parse(NextToken, s, e) == rest
    ensures Parse(NextToken, s, from) == [Text(t)] + ([p] + rest)
  {
    ParseTurn(s, from, i, e, p, rest);
    ConcatAssociates([Text(t)], [p], rest);
  }

  lemma ParseOfLastText(s: string, from: nat, t: string)
    requires Progresses(NextToken) && from <= |s| && NextToken(s, from) == None && s[from..] == t && t != ""
    ensures Parse(NextToken, s, from) == [Text(t)]
  {
  }

  lemma {:induction false} ParsePrinted(s: string, from: nat, ps: seq<Part>)
    requires Progresses(NextToken) && from <= |s| && s[from..] == PrintAll(ps) && CleanList(ps)
    ensures Parse(NextToken, s, from) == ps
    decreases |ps|
  {
    if ps == [] {
      AtEnd(s, from);
    } else {
      CleanTail(ps);
      var p, rest := ps[0], ps[1..];
      if !p.Text? {
        var e := StyledNext(s, from, p, rest);
        ParsePrinted(s, e, rest);
        ParseOfStyled(s, from, e, p, rest);
      } else {
        TextPrinted(s, from, p.text, rest);
      }
    }
  }

  lemma {:induction false} TextPrinted(s: string, from: nat, t: string, rest: seq<Part>)
    requires Progresses(NextToken) && from <= |s| && s[from..] == PrintAll([Text(t)] + rest)
    requires Clean(Text(t)) && CleanList(rest) && (rest != [] ==> !rest[0].Text?)
    ensures Parse(NextToken, s, from) == [Text(t)] + rest
    decreases |rest|
  {
    var i := TextNext(s, from, t, rest);
    if rest == [] {
      AtEnd(s, i);
      assert s[from..] == s[from..i];
      ParseOfLastText(s, from, t);
    } else {
      CleanTail(rest);
      var e := StyledNext(s, i, rest[0], rest[1..]);
      ParsePrinted(s, e, rest[1..]);
      ParseOfText(s, from, i, e, t, rest[0], rest[1..]);
    }
  }

  /**
   Printing parts and reading the text gives the parts back: bold, code and links with any text on one line that does not
   hold their own closing character, with any plain text between them that holds no opening one.
   */
  lemma PrintThenParse(ps: seq<Part>)
    requires CleanList(ps)
    ensures InlineParts(PrintAll(ps)) == ps
  {
    NextTokenProgresses();
    ParsePrinted(PrintAll(ps), 0, ps);
  }

  lemma FirstPushed(plain: string, q: Part, rest: seq<Part>)
    ensures (Pushes(plain, Some(q)) + rest)[0] == if plain != "" then Text(plain) else q
  {
  }

  lemma OnlyPush(plain: string, q: Part, rest: seq<Part>, p: Part)
    requires Pushes(plain, Some(q)) + rest == [p] && !p.Text?
    ensures plain == "" && q == p
  {
    FirstPushed(plain, q, rest);
  }

  lemma WholeSlice(s: string, i: nat, e: nat)
    requires i <= e <= |s| && s[i..e] == s
    ensures i == 0 && e == |s|
  {
    assert |s[i..e]| == e - i;
  }

  /** A line that is one styled part is matched as a whole. */
  lemma SpansAll(exec: Scanner, s: string, p: Part)
    requires Progresses(exec) && PrintsBack(exec, s) && Parse(exec, s, 0) == [p] && !p.Text? && p.Print() == s
    ensures exec(s, 0) == Some(Match(0, |s|))
  {
    if exec(s, 0).Some? {
      var m := exec(s, 0).value;
      assert TokenPrintsBack(s[m.index..m.end]);
      OnlyPush(s[0..m.index], PartOf(s[m.index..m.end]).value, Parse(exec, s, m.end), p);
      WholeSlice(s, m.index, m.end);
    }
  }

  lemma DotsAreOneLine(s: string, i: nat, j: nat)
    requires AllDots(s, i, j)
    ensures OneLine(s[i..j])
  {
    forall c | c in s[i..j] ensures Dot(c) {
      var k :| 0 <= k < j - i && s[i..j][k] == c;
      assert s[i + k] == c;
    }
  }

  /** A bold text without an asterisk is bold exactly when it stands on one line. */
  lemma BoldIff(t: string)
    requires '*' !in t
    ensures InlineParts("**" + t + "**") == [Bold(t)] <==> OneLine(t)
  {
    var s := "**" + t + "**";
    NextTokenProgresses();
    if OneLine(t) {
      PrintOne(Bold(t));
      PrintThenParse([Bold(t)]);
    } else if InlineParts(s) == [Bold(t)] {
      TokensPrintBack(s);
      SpansAll(NextToken, s, Bold(t));
      var token := TokenMeaning(s, 0);
      TokenBegins(s, 0, token);
      assert s[2..|s| - 2] == t;
      DotsAreOneLine(s, 2, |s| - 2);
    }
  }
}
