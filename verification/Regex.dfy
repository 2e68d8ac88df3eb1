/**
 Backtracking regular expressions as section 22.2 of ECMA-262 gives them: a
 pattern at a position has its ends in order of preference, and the first one
 is the match. Only the constructs of the inline Markdown pattern are needed.
 */
module Regex {
  import opened Options

  datatype Regex =
    | Lit(word: string)
    | LazyDots               // .*?
    | GreedyNot(stop: char)  // [^c]*
    | Cat(first: Regex, second: Regex)
    | Alt(left: Regex, right: Regex)

  /** `.` without the s flag: everything but the four line terminators. */
  predicate Dot(c: char) {
    c !in {'\n', '\r', '\U{2028}', '\U{2029}'}
  }

  predicate WordAt(s: string, i: nat, w: string) {
    i + |w| <= |s| && s[i..i + |w|] == w
  }

  ghost predicate AtMost(ends: seq<nat>, n: nat) {
    forall k :: 0 <= k < |ends| ==> ends[k] <= n
  }

  /** The ends of all matches of r in s from i, the preferred one first. */
  function Ends(r: Regex, s: string, i: nat): (ends: seq<nat>)
    requires i <= |s|
    ensures AtMost(ends, |s|)
    decreases r, 0, |s| - i
  {
    match r
    case Lit(w) => if WordAt(s, i, w) then [i + |w|] else []
    case LazyDots => [i] + if i < |s| && Dot(s[i]) then Ends(LazyDots, s, i + 1) else []
    case GreedyNot(c) => (if i < |s| && s[i] != c then Ends(GreedyNot(c), s, i + 1) else []) + [i]
    case Alt(a, b) => Ends(a, s, i) + Ends(b, s, i)
    case Cat(a, b) => EndsFrom(b, s, Ends(a, s, i))
  }

  function EndsFrom(r: Regex, s: string, starts: seq<nat>): (ends: seq<nat>)
    requires AtMost(starts, |s|)
    ensures AtMost(ends, |s|)
    decreases r, 1, |starts|
  {
    if starts == [] then [] else Ends(r, s, starts[0]) + EndsFrom(r, s, starts[1..])
  }

  ghost predicate NoneBetween(r: Regex, s: string, lo: nat, hi: nat)
    requires hi <= |s|
  {
    forall i :: lo <= i < hi ==> Ends(r, s, i) == []
  }

  datatype Match = Match(index: nat, end: nat)

  /** RegExp.prototype.exec with the g flag: the leftmost position that matches, from `from` on. */
  function Exec(r: Regex, s: string, from: nat): (m: Option<Match>)
    requires from <= |s|
    ensures m.Some? ==>
      && from <= m.value.index <= |s|
      && Ends(r, s, m.value.index) != [] && m.value.end == Ends(r, s, m.value.index)[0]
    ensures NoneBetween(r, s, from, if m.Some? then m.value.index else |s|)
    decreases |s| - from
  {
    if Ends(r, s, from) != [] then Some(Match(from, Ends(r, s, from)[0]))
    else if from < |s| then Exec(r, s, from + 1)
    else None
  }

  lemma {:induction false} EndsFromMember(r: Regex, s: string, starts: seq<nat>, e: nat) returns (k: nat)
    requires AtMost(starts, |s|) && e in EndsFrom(r, s, starts)
    ensures k < |starts| && e in Ends(r, s, starts[k])
    decreases |starts|
  {
    if e in Ends(r, s, starts[0]) {
      k := 0;
    } else {
      var j := EndsFromMember(r, s, starts[1..], e);
      k := j + 1;
    }
  }

  lemma {:induction false} MemberOfEndsFrom(r: Regex, s: string, starts: seq<nat>, k: nat, e: nat)
    requires AtMost(starts, |s|) && k < |starts| && e in Ends(r, s, starts[k])
    ensures e in EndsFrom(r, s, starts)
    decreases |starts|
  {
    if k > 0 {
      MemberOfEndsFrom(r, s, starts[1..], k - 1, e);
    }
  }

  /** t is the part of s that starts at lo. */
  ghost predicate Piece(s: string, lo: nat, t: string) {
    lo + |t| <= |s| && forall k :: 0 <= k < |t| ==> t[k] == s[lo + k]
  }

  /** A match inside a piece of the text is a match of the whole text. */
  lemma {:induction false} MatchEmbeds(r: Regex, s: string, lo: nat, t: string, i: nat, e: nat)
    requires Piece(s, lo, t) && i <= |t|
    requires e in Ends(r, t, i)
    ensures lo + e in Ends(r, s, lo + i)
    decreases r
  {
    match r
    case Lit(w) =>
      LitEmbeds(w, s, lo, t, i);
    case LazyDots =>
      DotsStart(t, i, e);
      DotsEmbed(s, lo, t, i, e);
    case GreedyNot(c) =>
      NotEmbeds(c, s, lo, t, i, e);
    case Alt(a, b) =>
      if e in Ends(a, t, i) {
        MatchEmbeds(a, s, lo, t, i, e);
      } else {
        MatchEmbeds(b, s, lo, t, i, e);
      }
    case Cat(a, b) =>
      var k := CatMiddle(a, b, t, i, e);
      MatchEmbeds(a, s, lo, t, i, k);
      MatchEmbeds(b, s, lo, t, k, e);
      CatJoins(a, b, s, lo + i, lo + k, lo + e);
  }

  lemma LitEmbeds(w: string, s: string, lo: nat, t: string, i: nat)
    requires Piece(s, lo, t) && WordAt(t, i, w)
    ensures WordAt(s, lo + i, w)
  {
    assert t[i..i + |w|] == s[lo + i..lo + i + |w|];
  }

  lemma DotsEmbed(s: string, lo: nat, t: string, i: nat, e: nat)
    requires Piece(s, lo, t) && AllDots(t, i, e)
    ensures lo + e in Ends(LazyDots, s, lo + i)
  {
    DotsShift(s, lo, t, i, e);
    DotsLand(s, lo + i, lo + e);
  }

  lemma DotsStart(s: string, i: nat, e: nat)
    requires i <= |s| && e in Ends(LazyDots, s, i)
    ensures AllDots(s, i, e)
  {
    DotsReach(s, i, e);
  }

  lemma DotsLand(s: string, i: nat, e: nat)
    requires AllDots(s, i, e)
    ensures e in Ends(LazyDots, s, i)
  {
    DotsReach(s, i, e);
  }

  lemma DotsShift(s: string, lo: nat, t: string, i: nat, e: nat)
    requires Piece(s, lo, t) && AllDots(t, i, e)
    ensures AllDots(s, lo + i, lo + e)
  {
    forall k | lo + i <= k < lo + e ensures Dot(s[k]) {
      assert t[k - lo] == s[lo + (k - lo)];
    }
  }

  ghost predicate AllDots(s: string, i: nat, j: nat) {
    i <= j <= |s| && forall k :: i <= k < j ==> Dot(s[k])
  }

  lemma {:induction false} DotsReach(s: string, i: nat, e: nat)
    requires i <= |s|
    ensures e in Ends(LazyDots, s, i) <==> AllDots(s, i, e)
    decreases |s| - i
  {
    if i < |s| && Dot(s[i]) {
      DotsReach(s, i + 1, e);
      assert AllDots(s, i, e) <==> e == i || AllDots(s, i + 1, e);
    }
  }

  ghost predicate AllNot(c: char, s: string, i: nat, j: nat) {
    i <= j <= |s| && forall k :: i <= k < j ==> s[k] != c
  }

  lemma {:induction false} NotReach(c: char, s: string, i: nat, e: nat)
    requires i <= |s|
    ensures e in Ends(GreedyNot(c), s, i) <==> AllNot(c, s, i, e)
    decreases |s| - i
  {
    if i < |s| && s[i] != c {
      NotReach(c, s, i + 1, e);
      assert AllNot(c, s, i, e) <==> e == i || AllNot(c, s, i + 1, e);
    }
  }

  lemma NotEmbeds(c: char, s: string, lo: nat, t: string, i: nat, e: nat)
    requires Piece(s, lo, t) && i <= |t| && e in Ends(GreedyNot(c), t, i)
    ensures lo + e in Ends(GreedyNot(c), s, lo + i)
  {
    NotReach(c, t, i, e);
    NotShift(c, s, lo, t, i, e);
    NotReach(c, s, lo + i, lo + e);
  }

  lemma NotShift(c: char, s: string, lo: nat, t: string, i: nat, e: nat)
    requires Piece(s, lo, t) && AllNot(c, t, i, e)
    ensures AllNot(c, s, lo + i, lo + e)
  {
    forall k | lo + i <= k < lo + e ensures s[k] != c {
      assert t[k - lo] == s[lo + (k - lo)];
    }
  }

  lemma CatMiddle(a: Regex, b: Regex, s: string, i: nat, e: nat) returns (k: nat)
    requires i <= |s| && e in Ends(Cat(a, b), s, i)
    ensures k <= |s| && k in Ends(a, s, i) && e in Ends(b, s, k)
  {
    var starts := Ends(a, s, i);
    var m := EndsFromMember(b, s, starts, e);
    k := starts[m];
  }

  lemma CatJoins(a: Regex, b: Regex, s: string, i: nat, k: nat, e: nat)
    requires i <= |s| && k <= |s| && k in Ends(a, s, i) && e in Ends(b, s, k)
    ensures e in Ends(Cat(a, b), s, i)
  {
    var m :| 0 <= m < |Ends(a, s, i)| && Ends(a, s, i)[m] == k;
    MemberOfEndsFrom(b, s, Ends(a, s, i), m, e);
  }

  /** A piece of text between two matches, in which nothing matched, matches nothing by itself. */
  lemma NoMatchInside(r: Regex, s: string, lo: nat, t: string)
    requires Piece(s, lo, t) && NoneBetween(r, s, lo, lo + |t|)
    requires Ends(r, t, |t|) == []
    ensures Exec(r, t, 0).None?
  {
    var found := Exec(r, t, 0);
    if found.Some? {
      MatchEmbeds(r, s, lo, t, found.value.index, found.value.end);
      assert false;
    }
  }

  // ----- What a lazy run followed by a word means

  /** w stands at j and nothing but dots separates i from it. */
  ghost predicate Reaches(s: string, i: nat, w: string, j: nat) {
    i <= j && WordAt(s, j, w) && AllDots(s, i, j)
  }

  /** The nearest such j: the closing delimiter a lazy run finds. */
  ghost predicate Closes(s: string, i: nat, w: string, j: nat) {
    Reaches(s, i, w, j) && forall k :: i <= k < j ==> !WordAt(s, k, w)
  }

  lemma EndsFromCons(r: Regex, s: string, k: nat, starts: seq<nat>)
    requires k <= |s| && AtMost(starts, |s|)
    ensures AtMost([k] + starts, |s|)
    ensures EndsFrom(r, s, [k] + starts) == Ends(r, s, k) + EndsFrom(r, s, starts)
  {
    assert ([k] + starts)[1..] == starts;
  }

  lemma CatEnds(a: Regex, b: Regex, s: string, i: nat)
    requires i <= |s|
    ensures Ends(Cat(a, b), s, i) == EndsFrom(b, s, Ends(a, s, i))
  {
  }

  lemma DotsEnds(s: string, i: nat)
    requires i <= |s|
    ensures Ends(LazyDots, s, i) == [i] + if i < |s| && Dot(s[i]) then Ends(LazyDots, s, i + 1) else []
  {
  }

  /** A lazy run tries what follows first, then takes one more character. */
  lemma LazyUnfolds(r: Regex, s: string, i: nat)
    requires i <= |s|
    ensures Ends(Cat(LazyDots, r), s, i) ==
            Ends(r, s, i) + (if i < |s| && Dot(s[i]) then Ends(Cat(LazyDots, r), s, i + 1) else [])
  {
    CatEnds(LazyDots, r, s, i);
    DotsEnds(s, i);
    if i < |s| && Dot(s[i]) {
      CatEnds(LazyDots, r, s, i + 1);
      EndsFromCons(r, s, i, Ends(LazyDots, s, i + 1));
    } else {
      EndsFromCons(r, s, i, []);
    }
  }

  lemma LitThen(w: string, r: Regex, s: string, i: nat)
    requires i <= |s|
    ensures Ends(Cat(Lit(w), r), s, i) == if WordAt(s, i, w) then Ends(r, s, i + |w|) else []
  {
    if WordAt(s, i, w) {
      EndsFromCons(r, s, i + |w|, []);
      assert [i + |w|] + [] == Ends(Lit(w), s, i);
    }
  }

  /** The preferred match of `.*?w` ends at the nearest w that dots reach; there is none otherwise. */
  lemma {:induction false} LazyFindsNearest(w: string, s: string, i: nat) returns (j: nat)
    requires i <= |s|
    ensures Nearest(w, s, i, j, Ends(Cat(LazyDots, Lit(w)), s, i))
    decreases |s| - i
  {
    LazyUnfolds(Lit(w), s, i);
    if i < |s| && Dot(s[i]) {
      var k := LazyFindsNearest(w, s, i + 1);
      j := if WordAt(s, i, w) then i else k;
      NearestStep(w, s, i, k, Ends(Cat(LazyDots, Lit(w)), s, i + 1));
    } else {
      j := i;
      NearestStop(w, s, i);
    }
  }

  ghost predicate Nearest(w: string, s: string, i: nat, j: nat, ends: seq<nat>) {
    if ends == [] then forall k: nat :: !Reaches(s, i, w, k)
    else Closes(s, i, w, j) && ends[0] == j + |w|
  }

  lemma NearestStop(w: string, s: string, i: nat)
    requires i <= |s| && !(i < |s| && Dot(s[i]))
    ensures Nearest(w, s, i, i, (if WordAt(s, i, w) then [i + |w|] else []) + [])
  {
    forall k: nat | Reaches(s, i, w, k) ensures k == i {
    }
  }

  lemma NearestStep(w: string, s: string, i: nat, k: nat, later: seq<nat>)
    requires i < |s| && Dot(s[i]) && Nearest(w, s, i + 1, k, later)
    ensures Nearest(w, s, i, if WordAt(s, i, w) then i else k, (if WordAt(s, i, w) then [i + |w|] else []) + later)
  {
    if !WordAt(s, i, w) {
      forall m: nat | Reaches(s, i, w, m) ensures Reaches(s, i + 1, w, m) {
      }
    }
  }

  // ----- Global replacement

  /** The end of the match at a position, if the pattern matches there. */
  type EndAt = (string, nat) -> Option<nat>

  function EndOf(r: Regex): EndAt {
    (s: string, i: nat) => if i <= |s| && Ends(r, s, i) != [] then Some(Ends(r, s, i)[0]) else None
  }

  /**
   String.prototype.replace with the g flag and a fixed replacement, for a
   pattern that never matches the empty string: try each position from the left,
   and go on behind each match.
   */
  function ReplaceAll(at: EndAt, s: string, i: nat, with: string): string
    requires i <= |s|
    decreases |s| - i
  {
    if i == |s| then ""
    else if at(s, i).Some? && i < at(s, i).value <= |s| then with + ReplaceAll(at, s, at(s, i).value, with)
    else [s[i]] + ReplaceAll(at, s, i + 1, with)
  }

  lemma {:induction false} ReplaceCongruent(a: EndAt, b: EndAt, s: string, i: nat, with: string)
    requires i <= |s| && forall k: nat :: k < |s| ==> a(s, k) == b(s, k)
    ensures ReplaceAll(a, s, i, with) == ReplaceAll(b, s, i, with)
    decreases |s| - i
  {
    if i < |s| {
      ReplaceCongruent(a, b, s, i + 1, with);
      if a(s, i).Some? && i < a(s, i).value <= |s| {
        ReplaceCongruent(a, b, s, a(s, i).value, with);
      }
    }
  }

  /** The nearest c at or after i, or the length. */
  function IndexFrom(c: char, s: string, i: nat): (k: nat)
    requires i <= |s|
    ensures i <= k <= |s| && (k < |s| ==> s[k] == c) && forall j :: i <= j < k ==> s[j] != c
    decreases |s| - i
  {
    if i == |s| || s[i] == c then i else IndexFrom(c, s, i + 1)
  }

  /** The ends of `[^c]*`: longest first, the first at the nearest c. */
  lemma {:induction false} GreedyEnds(c: char, s: string, i: nat)
    requires i <= |s|
    ensures Ends(GreedyNot(c), s, i) != [] && Ends(GreedyNot(c), s, i)[0] == IndexFrom(c, s, i)
    ensures forall k :: 0 < k < |Ends(GreedyNot(c), s, i)| ==>
      var e := Ends(GreedyNot(c), s, i)[k]; e < |s| && s[e] != c
    decreases |s| - i
  {
    if i < |s| && s[i] != c {
      GreedyEnds(c, s, i + 1);
    }
  }

  /** Only starts at which the word stands contribute. */
  lemma {:induction false} LitFrom(w: string, s: string, starts: seq<nat>)
    requires AtMost(starts, |s|) && forall k :: 0 <= k < |starts| ==> !WordAt(s, starts[k], w)
    ensures EndsFrom(Lit(w), s, starts) == []
    decreases |starts|
  {
    if starts != [] {
      LitFrom(w, s, starts[1..]);
    }
  }

  lemma CharAt(c: char, s: string, i: nat)
    requires i <= |s|
    ensures WordAt(s, i, [c]) <==> i < |s| && s[i] == c
  {
    assert i < |s| ==> s[i..i + 1] == [s[i]];
  }

  lemma ShorterRunsFail(c: char, s: string, i: nat)
    requires i <= |s|
    ensures Ends(GreedyNot(c), s, i) != []
    ensures EndsFrom(Lit([c]), s, Ends(GreedyNot(c), s, i)[1..]) == []
  {
    GreedyEnds(c, s, i);
    var tail := Ends(GreedyNot(c), s, i)[1..];
    forall j | 0 <= j < |tail| ensures !WordAt(s, tail[j], [c]) {
      assert tail[j] == Ends(GreedyNot(c), s, i)[j + 1];
      CharAt(c, s, tail[j]);
    }
    LitFrom([c], s, tail);
  }

  lemma CharThen(c: char, r: Regex, s: string, i: nat)
    requires i < |s|
    ensures Ends(Cat(Lit([c]), r), s, i) == if s[i] == c then Ends(r, s, i + 1) else []
  {
    LitThen([c], r, s, i);
    CharAt(c, s, i);
  }

  /** If only the first start contributes, the ends are those from it. */
  lemma FirstStartOnly(r: Regex, s: string, starts: seq<nat>)
    requires AtMost(starts, |s|) && starts != [] && EndsFrom(r, s, starts[1..]) == []
    ensures EndsFrom(r, s, starts) == Ends(r, s, starts[0])
  {
  }

  /** `[^c]*c` has one match: up to the nearest c. */
  lemma GreedyFindsNearest(c: char, s: string, i: nat)
    requires i <= |s|
    ensures Ends(Cat(GreedyNot(c), Lit([c])), s, i) == if IndexFrom(c, s, i) < |s| then [IndexFrom(c, s, i) + 1] else []
  {
    var starts := Ends(GreedyNot(c), s, i);
    ShorterRunsFail(c, s, i);
    FirstStartOnly(Lit([c]), s, starts);
    GreedyFirst(c, s, i, starts);
  }

  lemma GreedyFirst(c: char, s: string, i: nat, starts: seq<nat>)
    requires i <= |s| && starts == Ends(GreedyNot(c), s, i) && starts != []
    ensures Ends(Lit([c]), s, starts[0]) == if IndexFrom(c, s, i) < |s| then [IndexFrom(c, s, i) + 1] else []
  {
    GreedyEnds(c, s, i);
    CharAt(c, s, starts[0]);
  }
}
