/** Plain-text sanitizing of user text: strip tags, decode two entities, strip again, trim. */
module Sanitizer {
  import opened JsStrings
  import opened Options
  import opened Regex

  /** /<[^>]*>/g */
  const TAG := Cat(Lit("<"), Cat(GreedyNot('>'), Lit(['>'])))

  /** `sanitizePlainText`, call by call. */
  function SanitizePlainText(value: string): string {
    var stripped := ReplaceAll(EndOf(TAG), value, 0, "");
    var lessThan := ReplaceAll(EndOf(Lit("&lt;")), stripped, 0, "<");
    var decoded := ReplaceAll(EndOf(Lit("&gt;")), lessThan, 0, ">");
    Trim(ReplaceAll(EndOf(TAG), decoded, 0, ""))
  }

  // ----- The same rewriting by one scan each

  function Decode(entity: string, code: char, s: string): string
    requires entity != ""
    decreases |s|
  {
    if s == "" then ""
    else if StartsWith(s, entity) then [code] + Decode(entity, code, s[|entity|..])
    else [s[0]] + Decode(entity, code, s[1..])
  }

  /** Where the tag pattern matches, and where a word does. */
  function TagEnd(s: string, i: nat): Option<nat> {
    if i < |s| && s[i] == '<' && IndexFrom('>', s, i + 1) < |s| then Some(IndexFrom('>', s, i + 1) + 1) else None
  }

  function WordEnd(w: string): EndAt {
    (s: string, i: nat) => if WordAt(s, i, w) then Some(i + |w|) else None
  }

  lemma EndOfIs(r: Regex, s: string, i: nat, ends: seq<nat>)
    requires i <= |s| && Ends(r, s, i) == ends
    ensures EndOf(r)(s, i) == if ends == [] then None else Some(ends[0])
  {
  }

  lemma OpeningMatches(tag: Regex, inner: Regex, s: string, i: nat)
    requires i < |s| && tag == Cat(Lit(['<']), inner)
    requires Ends(inner, s, i + 1) == if IndexFrom('>', s, i + 1) < |s| then [IndexFrom('>', s, i + 1) + 1] else []
    ensures EndOf(tag)(s, i) == TagEnd(s, i)
  {
    var ends := if s[i] == '<' then Ends(inner, s, i + 1) else [];
    CharThen('<', inner, s, i);
    EndOfIs(tag, s, i, ends);
  }

  lemma TagMatches(s: string, i: nat)
    requires i < |s|
    ensures EndOf(TAG)(s, i) == TagEnd(s, i)
  {
    var inner := Cat(GreedyNot('>'), Lit(['>']));
    GreedyFindsNearest('>', s, i + 1);
    assert TAG == Cat(Lit(['<']), inner) by { assert "<" == ['<']; }
    OpeningMatches(TAG, inner, s, i);
  }

  /** From each '<' that some '>' follows, everything up to the nearest '>' goes. */
  function Strip(s: string): string {
    ReplaceAll(TagEnd, s, 0, "")
  }

  /** The tag replacement is the scan. */
  lemma TagReplacementIsStrip(s: string)
    ensures ReplaceAll(EndOf(TAG), s, 0, "") == Strip(s)
  {
    forall k: nat | k < |s| ensures EndOf(TAG)(s, k) == TagEnd(s, k) {
      TagMatches(s, k);
    }
    ReplaceCongruent(EndOf(TAG), TagEnd, s, 0, "");
  }

  lemma {:induction false} ScanIsDecode(w: string, code: char, s: string, i: nat)
    requires w != "" && i <= |s|
    ensures ReplaceAll(WordEnd(w), s, i, [code]) == Decode(w, code, s[i..])
    decreases |s| - i
  {
    if i < |s| {
      var t := s[i..];
      assert WordAt(s, i, w) <==> StartsWith(t, w) by {
        if i + |w| <= |s| {
          assert t[..|w|] == s[i..i + |w|];
        }
      }
      if WordAt(s, i, w) {
        assert t[|w|..] == s[i + |w|..];
        ScanIsDecode(w, code, s, i + |w|);
      } else {
        assert t[1..] == s[i + 1..];
        ScanIsDecode(w, code, s, i + 1);
      }
    }
  }

  lemma WordReplacementIsDecode(w: string, code: char, s: string)
    requires w != ""
    ensures ReplaceAll(EndOf(Lit(w)), s, 0, [code]) == Decode(w, code, s)
  {
    forall k: nat | k < |s| ensures EndOf(Lit(w))(s, k) == WordEnd(w)(s, k) {
    }
    ReplaceCongruent(EndOf(Lit(w)), WordEnd(w), s, 0, [code]);
    ScanIsDecode(w, code, s, 0);
    assert s[0..] == s;
  }

  /** The whole pipeline as scans. */
  lemma SanitizeIsScans(value: string)
    ensures SanitizePlainText(value) == Trim(Strip(Decode("&gt;", '>', Decode("&lt;", '<', Strip(value)))))
  {
    var stripped := Strip(value);
    TagReplacementIsStrip(value);
    WordReplacementIsDecode("&lt;", '<', stripped);
    var lessThan := Decode("&lt;", '<', stripped);
    WordReplacementIsDecode("&gt;", '>', lessThan);
    TagReplacementIsStrip(Decode("&gt;", '>', lessThan));
    assert "<" == ['<'] && ">" == ['>'];
  }

  // ----- No tag is left

  ghost predicate NoTag(s: string) {
    forall i, j :: 0 <= i < j < |s| ==> !(s[i] == '<' && s[j] == '>')
  }

  /** The scan only drops characters. */
  lemma {:induction false} ScanKeepsAbsence(s: string, i: nat, c: char)
    requires i <= |s| && forall k :: i <= k < |s| ==> s[k] != c
    ensures c !in ReplaceAll(TagEnd, s, i, "")
    decreases |s| - i
  {
    if i < |s| {
      if TagEnd(s, i).Some? {
        ScanKeepsAbsence(s, TagEnd(s, i).value, c);
      } else {
        ScanKeepsAbsence(s, i + 1, c);
      }
    }
  }

  lemma {:induction false} ScanLeavesNoTag(s: string, i: nat)
    requires i <= |s|
    ensures NoTag(ReplaceAll(TagEnd, s, i, ""))
    decreases |s| - i
  {
    if i < |s| {
      if TagEnd(s, i).Some? {
        ScanLeavesNoTag(s, TagEnd(s, i).value);
        assert "" + ReplaceAll(TagEnd, s, TagEnd(s, i).value, "") == ReplaceAll(TagEnd, s, TagEnd(s, i).value, "");
      } else {
        ScanLeavesNoTag(s, i + 1);
        if s[i] == '<' {
          ScanKeepsAbsence(s, i + 1, '>');
        }
      }
    }
  }

  /** Text without a tag is left alone. */
  lemma {:induction false} ScanKeepsTagFree(s: string, i: nat)
    requires i <= |s| && NoTag(s)
    ensures ReplaceAll(TagEnd, s, i, "") == s[i..]
    decreases |s| - i
  {
    if i < |s| {
      ScanKeepsTagFree(s, i + 1);
    }
  }

  /** Stripping twice is stripping once; it changes nothing exactly when there is no tag. */
  lemma StripIsIdempotent(s: string)
    ensures NoTag(Strip(s)) && Strip(Strip(s)) == Strip(s)
    ensures Strip(s) == s <==> NoTag(s)
  {
    ScanLeavesNoTag(s, 0);
    ScanKeepsTagFree(Strip(s), 0);
    if NoTag(s) {
      ScanKeepsTagFree(s, 0);
    }
  }

  lemma TrimTwice(s: string)
    ensures Trim(Trim(s)) == Trim(s) && |Trim(s)| <= |s|
  {
    var a, b := TrimIsPiece(s);
    var t := s[a..b];
    if a < b {
      assert t[0] == s[a] && t[|t| - 1] == s[b - 1];
      assert TrimStart(t) == t && TrimEnd(t) == t;
    }
  }

  lemma TrimKeepsTagFree(s: string)
    requires NoTag(s)
    ensures NoTag(Trim(s))
  {
    var a, b := TrimIsPiece(s);
    forall i, j | 0 <= i < j < b - a ensures !(s[a..b][i] == '<' && s[a..b][j] == '>') {
      assert s[a..b][i] == s[a + i] && s[a..b][j] == s[a + j];
    }
  }

  /** For every input, no '<' in the sanitized text is followed later by '>'. */
  lemma SanitizedHasNoTag(value: string)
    ensures NoTag(SanitizePlainText(value))
  {
    SanitizeIsScans(value);
    var decoded := Decode("&gt;", '>', Decode("&lt;", '<', Strip(value)));
    StripIsIdempotent(decoded);
    TrimKeepsTagFree(Strip(decoded));
  }

  // ----- Entities are decoded once

  /** Both entities in one scan. */
  function DecodeBoth(s: string): string
    decreases |s|
  {
    if s == "" then ""
    else if StartsWith(s, "&lt;") then ['<'] + DecodeBoth(s[4..])
    else if StartsWith(s, "&gt;") then ['>'] + DecodeBoth(s[4..])
    else [s[0]] + DecodeBoth(s[1..])
  }

  lemma DecodeOther(entity: string, code: char, c: char, s: string)
    requires entity != "" && c != entity[0]
    ensures Decode(entity, code, [c] + s) == [c] + Decode(entity, code, s)
  {
    assert ([c] + s)[1..] == s;
    assert ([c] + s)[0] == c;
  }

  /** What decoding begins with, it began with before, as long as no decoded character is involved. */
  lemma {:induction false} DecodedPrefix(s: string, w: string)
    requires '<' !in w && '&' !in w
    requires StartsWith(Decode("&lt;", '<', s), w)
    ensures StartsWith(s, w)
    decreases |w|
  {
    if w != "" {
      var d := Decode("&lt;", '<', s);
      assert d[0] == w[0];
      assert w[0] in w;
      if s != "" && !StartsWith(s, "&lt;") {
        assert d[1..] == Decode("&lt;", '<', s[1..]);
        assert d[..|w|][1..] == d[1..][..|w| - 1];
        DecodedPrefix(s[1..], w[1..]);
        assert s[..|w|] == [s[0]] + s[1..][..|w| - 1];
      }
    }
  }

  /** Decoding "&lt;" first does not touch a leading "&gt;". */
  lemma SkipsOtherEntity(s: string)
    requires StartsWith(s, "&gt;")
    ensures Decode("&lt;", '<', s) == "&gt;" + Decode("&lt;", '<', s[4..])
  {
    var rest := s[4..];
    assert s == "&" + ("g" + ("t" + (";" + rest)));
    DecodeOther("&lt;", '<', ';', rest);
    DecodeOther("&lt;", '<', 't', ";" + rest);
    DecodeOther("&lt;", '<', 'g', "t" + (";" + rest));
    assert !StartsWith(s, "&lt;");
    assert s[1..] == "g" + ("t" + (";" + rest));
  }

  /** The two replacements in sequence are one simultaneous decode. */
  lemma {:induction false} DecodesOnce(s: string)
    ensures Decode("&gt;", '>', Decode("&lt;", '<', s)) == DecodeBoth(s)
    decreases |s|
  {
    if s != "" {
      var first := Decode("&lt;", '<', s);
      if StartsWith(s, "&lt;") {
        DecodeOther("&gt;", '>', '<', Decode("&lt;", '<', s[4..]));
        DecodesOnce(s[4..]);
      } else if StartsWith(s, "&gt;") {
        SkipsOtherEntity(s);
        assert first[4..] == Decode("&lt;", '<', s[4..]) && first[..4] == "&gt;";
        DecodesOnce(s[4..]);
      } else {
        var rest := Decode("&lt;", '<', s[1..]);
        assert first[1..] == rest;
        if StartsWith(first, "&gt;") {
          assert rest[..3] == first[..4][1..] == "gt;";
          DecodedPrefix(s[1..], "gt;");
          assert false;
        }
        DecodesOnce(s[1..]);
      }
    }
  }

  ghost predicate NoEntity(s: string) {
    forall i: nat :: !WordAt(s, i, "&lt;") && !WordAt(s, i, "&gt;")
  }

  lemma {:induction false} DecodedBothPrefix(s: string, w: string)
    requires '<' !in w && '>' !in w && '&' !in w
    requires StartsWith(DecodeBoth(s), w)
    ensures StartsWith(s, w)
    decreases |w|
  {
    if w != "" {
      var d := DecodeBoth(s);
      assert d[0] == w[0];
      assert w[0] in w;
      if s != "" && !StartsWith(s, "&lt;") && !StartsWith(s, "&gt;") {
        assert d[1..] == DecodeBoth(s[1..]);
        assert d[..|w|][1..] == d[1..][..|w| - 1];
        DecodedBothPrefix(s[1..], w[1..]);
        assert s[..|w|] == [s[0]] + s[1..][..|w| - 1];
      }
    }
  }

  /** The decoded text starts with no entity. */
  lemma NoEntityAtStart(s: string)
    ensures !StartsWith(DecodeBoth(s), "&lt;") && !StartsWith(DecodeBoth(s), "&gt;")
  {
    var d := DecodeBoth(s);
    if s != "" && !StartsWith(s, "&lt;") && !StartsWith(s, "&gt;") {
      assert d[1..] == DecodeBoth(s[1..]);
      StartTail(d, "&lt;", "lt;", s);
      StartTail(d, "&gt;", "gt;", s);
    } else {
      assert |d| >= 4 ==> d[..4][0] == d[0];
    }
  }

  lemma StartTail(d: string, entity: string, tail: string, s: string)
    requires s != "" && d == [s[0]] + DecodeBoth(s[1..]) && entity == "&" + tail && |tail| == 3
    requires '<' !in tail && '>' !in tail && '&' !in tail
    requires !StartsWith(s, entity)
    ensures !StartsWith(d, entity)
  {
    if StartsWith(DecodeBoth(s[1..]), tail) {
      DecodedBothPrefix(s[1..], tail);
      assert s[..4] == [s[0]] + s[1..][..3];
    } else if |d| >= 4 {
      assert d[..4][1..] == DecodeBoth(s[1..])[..3];
      assert entity[1..] == tail;
    }
  }

  lemma NoEntityCons(c: char, t: string)
    ensures NoEntity([c] + t) <==> NoEntity(t) && !StartsWith([c] + t, "&lt;") && !StartsWith([c] + t, "&gt;")
  {
    var s := [c] + t;
    assert s[1..] == t;
    if StartsWith(s, "&lt;") || StartsWith(s, "&gt;") {
      assert s[0..4] == s[..4];
      assert WordAt(s, 0, "&lt;") || WordAt(s, 0, "&gt;");
    } else {
      EntityFreeTail(s);
    }
  }

  lemma {:induction false} DecodedHasNoEntity(s: string)
    ensures NoEntity(DecodeBoth(s))
    decreases |s|
  {
    if s != "" {
      var rest := if StartsWith(s, "&lt;") || StartsWith(s, "&gt;") then s[4..] else s[1..];
      var d := DecodeBoth(s);
      assert d == [d[0]] + DecodeBoth(rest);
      DecodedHasNoEntity(rest);
      NoEntityAtStart(s);
      NoEntityCons(d[0], DecodeBoth(rest));
    }
  }

  /** Right after decoding no entity is left, whatever the input. */
  lemma NoEntityRightAfterDecoding(s: string)
    ensures NoEntity(Decode("&gt;", '>', Decode("&lt;", '<', s)))
  {
    DecodesOnce(s);
    DecodedHasNoEntity(s);
  }

  /** Decoding shortens exactly the texts that hold an entity, and leaves the others alone. */
  lemma {:induction false} DecodeShortens(s: string)
    ensures NoEntity(s) ==> DecodeBoth(s) == s
    ensures !NoEntity(s) ==> |DecodeBoth(s)| < |s|
    ensures |DecodeBoth(s)| <= |s|
    decreases |s|
  {
    if s != "" {
      var k := if StartsWith(s, "&lt;") || StartsWith(s, "&gt;") then 4 else 1;
      DecodeShortens(s[k..]);
      if k == 4 {
        assert s[0..4] == s[..4];
        assert WordAt(s, 0, "&lt;") || WordAt(s, 0, "&gt;");
      } else {
        EntityFreeTail(s);
      }
    }
  }

  lemma EntityFreeTail(s: string)
    requires s != "" && !StartsWith(s, "&lt;") && !StartsWith(s, "&gt;")
    ensures NoEntity(s) <==> NoEntity(s[1..])
  {
    forall i: nat, w | |w| == 4 ensures WordAt(s[1..], i, w) <==> WordAt(s, i + 1, w) {
      if i + 5 <= |s| {
        assert s[1..][i..i + 4] == s[i + 1..i + 5];
      }
    }
    assert |s| >= 4 ==> s[0..4] == s[..4];
    if NoEntity(s[1..]) {
      forall i: nat ensures !WordAt(s, i, "&lt;") && !WordAt(s, i, "&gt;") {
        if i > 0 {
          assert !WordAt(s[1..], i - 1, "&lt;") && !WordAt(s[1..], i - 1, "&gt;");
        }
      }
    } else {
      var i: nat :| WordAt(s[1..], i, "&lt;") || WordAt(s[1..], i, "&gt;");
      assert WordAt(s, i + 1, "&lt;") || WordAt(s, i + 1, "&gt;");
    }
  }

  lemma {:induction false} ScanShortens(s: string, i: nat)
    requires i <= |s|
    ensures |ReplaceAll(TagEnd, s, i, "")| <= |s| - i
    decreases |s| - i
  {
    if i < |s| {
      if TagEnd(s, i).Some? {
        ScanShortens(s, TagEnd(s, i).value);
      } else {
        ScanShortens(s, i + 1);
      }
    }
  }

  /** The texts that sanitizing leaves alone: no tag, no entity, no outer white space. */
  lemma SanitizeKeepsIff(s: string)
    ensures SanitizePlainText(s) == s <==> NoTag(s) && NoEntity(s) && Trim(s) == s
  {
    SanitizeIsScans(s);
    SanitizedHasNoTag(s);
    var stripped := Strip(s);
    DecodesOnce(stripped);
    StripIsIdempotent(s);
    DecodeShortens(stripped);
    var decoded := DecodeBoth(stripped);
    ScanShortens(s, 0);
    ScanShortens(decoded, 0);
    TrimTwice(Strip(decoded));
    StripIsIdempotent(decoded);
  }

  /** A second call changes nothing exactly when the first left no entity behind. */
  lemma StableIffNoEntity(value: string)
    ensures SanitizePlainText(SanitizePlainText(value)) == SanitizePlainText(value)
            <==> NoEntity(SanitizePlainText(value))
  {
    var r := SanitizePlainText(value);
    SanitizeKeepsIff(r);
    SanitizedHasNoTag(value);
    SanitizeIsScans(value);
    TrimTwice(Strip(Decode("&gt;", '>', Decode("&lt;", '<', Strip(value)))));
  }

  // ----- Which inputs a second call would change

  /** A tag runs from '<' to the nearest '>' behind it. */
  ghost predicate IsTag(s: string, j: nat, k: nat) {
    j < k < |s| && s[j] == '<' && s[k] == '>' && forall m :: j < m < k ==> s[m] != '>'
  }

  /** Some tag covers position i. */
  ghost predicate InTag(s: string, i: nat) {
    exists j: nat, k: nat :: j <= i <= k && IsTag(s, j, k)
  }

  /** The first position from i on that the scan keeps: tags that start there are skipped. */
  function NextKept(s: string, i: nat): (k: nat)
    requires i <= |s|
    ensures i <= k <= |s| && (k < |s| ==> TagEnd(s, k).None?)
    decreases |s| - i
  {
    if TagEnd(s, i).Some? then NextKept(s, TagEnd(s, i).value) else i
  }

  /** The characters kept from i on begin with w. */
  predicate Spells(s: string, i: nat, w: string)
    requires i <= |s|
    decreases |w|
  {
    w == "" || (var k := NextKept(s, i); k < |s| && s[k] == w[0] && Spells(s, k + 1, w[1..]))
  }

  predicate SpellsEntity(s: string, i: nat)
    requires i <= |s|
  {
    Spells(s, i, "&lt;") || Spells(s, i, "&gt;")
  }

  /** Four characters outside tags, with nothing but tags between them, spell an entity. */
  ghost predicate Joins(s: string) {
    exists i: nat :: i < |s| && !InTag(s, i) && SpellsEntity(s, i)
  }

  function Scanned(s: string, i: nat): string
    requires i <= |s|
  {
    ReplaceAll(TagEnd, s, i, "")
  }

  lemma ScannedStep(s: string, i: nat)
    requires i <= |s|
    ensures Scanned(s, i) ==
      if i == |s| then "" else if TagEnd(s, i).Some? then Scanned(s, TagEnd(s, i).value) else [s[i]] + Scanned(s, i + 1)
  {
    if TagEnd(s, i).Some? {
      assert "" + Scanned(s, TagEnd(s, i).value) == Scanned(s, TagEnd(s, i).value);
    }
  }

  lemma {:induction false} ScanSkips(s: string, i: nat)
    requires i <= |s|
    ensures var k := NextKept(s, i);
      Scanned(s, i) == if k < |s| then [s[k]] + Scanned(s, k + 1) else ""
    decreases |s| - i
  {
    ScannedStep(s, i);
    if TagEnd(s, i).Some? {
      ScanSkips(s, TagEnd(s, i).value);
    }
  }

  /** Spelling over kept positions is spelling in the stripped text. */
  lemma {:induction false} SpellsIsPrefix(s: string, i: nat, w: string)
    requires i <= |s|
    ensures Spells(s, i, w) <==> StartsWith(Scanned(s, i), w)
    decreases |w|
  {
    if w != "" {
      ScanSkips(s, i);
      var k := NextKept(s, i);
      if k < |s| {
        SpellsIsPrefix(s, k + 1, w[1..]);
        ConsStartsWith(s[k], Scanned(s, k + 1), w);
      }
    }
  }

  lemma ConsStartsWith(c: char, t: string, w: string)
    requires w != ""
    ensures StartsWith([c] + t, w) <==> c == w[0] && StartsWith(t, w[1..])
  {
    if |w| <= |t| + 1 {
      assert ([c] + t)[..|w|] == [c] + t[..|w| - 1];
      assert w == [w[0]] + w[1..];
    }
  }

  /** No tag runs across the border before i, so the scan starts afresh there. */
  ghost predicate Border(s: string, i: nat) {
    forall j: nat, k: nat :: IsTag(s, j, k) ==> !(j < i <= k)
  }

  lemma BorderStep(s: string, i: nat)
    requires i < |s| && Border(s, i)
    ensures TagEnd(s, i).Some? ==> Border(s, TagEnd(s, i).value) && forall m: nat :: i <= m < TagEnd(s, i).value ==> InTag(s, m)
    ensures TagEnd(s, i).None? ==> Border(s, i + 1) && !InTag(s, i)
  {
    if TagEnd(s, i).Some? {
      assert IsTag(s, i, TagEnd(s, i).value - 1);
    } else {
      forall j: nat, k: nat | IsTag(s, j, k) ensures j != i {
      }
    }
  }

  /** A kept position from i on spells an entity. */
  ghost predicate JoinsFrom(s: string, i: nat) {
    exists m: nat :: i <= m < |s| && !InTag(s, m) && SpellsEntity(s, m)
  }

  lemma KeptStep(s: string, i: nat)
    requires i < |s| && TagEnd(s, i).None?
    ensures NoEntity(Scanned(s, i)) <==> NoEntity(Scanned(s, i + 1)) && !SpellsEntity(s, i)
  {
    var t := Scanned(s, i + 1);
    assert Scanned(s, i) == [s[i]] + t;
    SpellsIsPrefix(s, i, "&lt;");
    SpellsIsPrefix(s, i, "&gt;");
    NoEntityCons(s[i], t);
  }

  lemma JoinsStep(s: string, i: nat)
    requires i < |s| && !InTag(s, i)
    ensures JoinsFrom(s, i) <==> SpellsEntity(s, i) || JoinsFrom(s, i + 1)
  {
  }

  lemma TagStep(s: string, i: nat)
    requires i < |s| && TagEnd(s, i).Some? && forall m: nat :: i <= m < TagEnd(s, i).value ==> InTag(s, m)
    ensures Scanned(s, i) == Scanned(s, TagEnd(s, i).value)
    ensures JoinsFrom(s, i) <==> JoinsFrom(s, TagEnd(s, i).value)
  {
    assert "" + Scanned(s, TagEnd(s, i).value) == Scanned(s, TagEnd(s, i).value);
  }

  lemma {:induction false} ScanJoinsIff(s: string, i: nat)
    requires i <= |s| && Border(s, i)
    ensures NoEntity(Scanned(s, i)) <==> !JoinsFrom(s, i)
    decreases |s| - i
  {
    if i == |s| {
      assert Scanned(s, i) == "";
    } else {
      BorderStep(s, i);
      if TagEnd(s, i).Some? {
        ScanJoinsIff(s, TagEnd(s, i).value);
        TagStep(s, i);
      } else {
        ScanJoinsIff(s, i + 1);
        KeptStep(s, i);
        JoinsStep(s, i);
      }
    }
  }

  lemma WordIs(s: string, i: nat, w: string)
    ensures WordAt(s, i, w) <==> i + |w| <= |s| && forall k :: 0 <= k < |w| ==> s[i + k] == w[k]
  {
    if i + |w| <= |s| && forall k :: 0 <= k < |w| ==> s[i + k] == w[k] {
      assert s[i..i + |w|] == w;
    }
    if WordAt(s, i, w) {
      var t := s[i..i + |w|];
      forall k | 0 <= k < |w| ensures s[i + k] == w[k] {
        assert t[k] == s[i + k];
      }
    }
  }

  lemma EntityInside(s: string, i: nat, w: string, a: nat, b: nat)
    requires w == "&lt;" || w == "&gt;"
    requires WordAt(s, i, w) && a <= b <= |s|
    requires forall k :: 0 <= k < |s| && !(a <= k < b) ==> IsSpace(s[k])
    ensures a <= i && i + 4 <= b && WordAt(s[a..b], i - a, w)
  {
    WordIs(s, i, w);
    assert s[i + 0] == w[0] && s[i + 3] == w[3];
    assert !IsSpace(w[0]) && !IsSpace(w[3]);
    WordIs(s[a..b], i - a, w);
  }

  lemma PieceEntity(s: string, a: nat, b: nat, i: nat, w: string)
    requires a <= b <= |s| && WordAt(s[a..b], i, w)
    ensures WordAt(s, a + i, w)
  {
    WordIs(s[a..b], i, w);
    WordIs(s, a + i, w);
    forall k | 0 <= k < |w| ensures s[a + i + k] == w[k] {
      assert s[a..b][i + k] == w[k];
    }
  }

  /** Entities hold no white space, so trimming neither makes nor breaks one. */
  lemma TrimKeepsEntities(s: string)
    ensures NoEntity(Trim(s)) <==> NoEntity(s)
  {
    var a, b := TrimIsPiece(s);
    if !NoEntity(s) {
      var i: nat :| WordAt(s, i, "&lt;") || WordAt(s, i, "&gt;");
      var w := if WordAt(s, i, "&lt;") then "&lt;" else "&gt;";
      EntityInside(s, i, w, a, b);
    }
    if !NoEntity(s[a..b]) {
      var i: nat :| WordAt(s[a..b], i, "&lt;") || WordAt(s[a..b], i, "&gt;");
      PieceEntity(s, a, b, i, if WordAt(s[a..b], i, "&lt;") then "&lt;" else "&gt;");
    }
  }

  /**
   Sanitizing is idempotent on an input exactly when, in the stripped and decoded
   text, no four characters outside tags with only tags between them spell an entity.
   */
  lemma IdempotentIff(value: string)
    ensures SanitizePlainText(SanitizePlainText(value)) == SanitizePlainText(value)
            <==> !Joins(DecodeBoth(Strip(value)))
  {
    var d := DecodeBoth(Strip(value));
    StableIffNoEntity(value);
    SanitizeIsScans(value);
    DecodesOnce(Strip(value));
    TrimKeepsEntities(Strip(d));
    ScanJoinsIff(d, 0);
  }

  /** The decoded text itself holds no entity, so an entity that joins closes over a complete tag. */
  lemma JoiningNeedsATag(value: string)
    requires Joins(DecodeBoth(Strip(value)))
    ensures NoEntity(DecodeBoth(Strip(value))) && !NoTag(DecodeBoth(Strip(value)))
  {
    var d := DecodeBoth(Strip(value));
    DecodedHasNoEntity(Strip(value));
    ScanJoinsIff(d, 0);
    StripIsIdempotent(d);
  }

  lemma BothOther(c: char, s: string)
    requires c != '&' || (!StartsWith([c] + s, "&lt;") && !StartsWith([c] + s, "&gt;"))
    ensures DecodeBoth([c] + s) == [c] + DecodeBoth(s)
  {
    assert ([c] + s)[1..] == s;
    assert |s| >= 3 ==> ([c] + s)[..4][0] == c;
  }

  lemma BothEntities(s: string)
    ensures DecodeBoth("&lt;" + s) == ['<'] + DecodeBoth(s)
    ensures DecodeBoth("&gt;" + s) == ['>'] + DecodeBoth(s)
  {
    assert ("&lt;" + s)[..4] == "&lt;" && ("&lt;" + s)[4..] == s;
    assert ("&gt;" + s)[..4] == "&gt;" && ("&gt;" + s)[4..] == s;
    assert "&lt;"[1] != "&gt;"[1];
  }

  lemma DecodedTail()
    ensures DecodeBoth("&lt;&gt;t;") == "<>t;"
  {
    BothOther(';', "");
    BothOther('t', ";");
    BothEntities("t;");
    BothEntities("&gt;" + "t;");
    assert "&lt;&gt;t;" == "&lt;" + ("&gt;" + "t;");
  }

  /** "&l" in front of another "&" is no entity. */
  lemma TwoOthers(tail: string, decoded: string)
    requires |tail| >= 2 && tail[0] == '&' && DecodeBoth(tail) == decoded
    ensures DecodeBoth(['&'] + (['l'] + tail)) == ['&'] + (['l'] + decoded)
  {
    var s := ['l'] + tail;
    BothOther('l', tail);
    assert (['&'] + s)[..4][2] == '&';
    assert "&lt;"[2] == 't' && "&gt;"[2] == 't';
    BothOther('&', s);
  }

  lemma DecodedExample(value: string)
    requires value == "&l" + "&lt;&gt;t;"
    ensures DecodeBoth(value) == "&l<>t;"
  {
    DecodedTail();
    TwoOthers("&lt;&gt;t;", "<>t;");
    assert value == ['&'] + (['l'] + "&lt;&gt;t;") && "&l<>t;" == ['&'] + (['l'] + "<>t;");
  }

  lemma StrippedExample()
    ensures Strip("&l<>t;") == "&lt;"
  {
    var d := "&l<>t;";
    assert IndexFrom('>', d, 3) == 3;
    assert TagEnd(d, 2) == Some(4);
    assert ReplaceAll(TagEnd, d, 6, "") == "";
    assert ReplaceAll(TagEnd, d, 5, "") == ";";
    assert ReplaceAll(TagEnd, d, 4, "") == "t;";
    assert ReplaceAll(TagEnd, d, 2, "") == "" + "t;";
    assert ReplaceAll(TagEnd, d, 1, "") == "lt;";
  }

  lemma ScansGive(value: string, decoded: string, out: string)
    requires NoTag(value) && DecodeBoth(value) == decoded && Strip(decoded) == out && Trim(out) == out
    ensures SanitizePlainText(value) == out
  {
    SanitizeIsScans(value);
    StripIsIdempotent(value);
    DecodesOnce(value);
  }

  lemma NoOpening(s: string)
    requires '<' !in s
    ensures NoTag(s)
  {
  }

  lemma EntityIsTrimmed(s: string)
    requires s == "&lt;"
    ensures Trim(s) == s && StartsWith(s, "&lt;")
  {
    assert TrimStart(s) == s && TrimEnd(s) == s;
  }

  /** Not every output is: the second strip can join a new entity, which a second call would decode. */
  lemma SecondCallDecodesMore(value: string)
    requires value == "&l" + "&lt;&gt;t;"
    ensures SanitizePlainText(value) == "&lt;" && !NoEntity(SanitizePlainText(value))
  {
    var out := "&lt;";
    DecodedExample(value);
    StrippedExample();
    NoOpening(value);
    EntityIsTrimmed(out);
    ScansGive(value, "&l<>t;", out);
    EntityHasEntity(out);
  }

  lemma EntityHasEntity(s: string)
    requires StartsWith(s, "&lt;")
    ensures !NoEntity(s)
  {
    assert s[0..4] == s[..4];
    assert WordAt(s, 0, "&lt;");
  }
}
