/**
 * The avatar colour: a shift-and-subtract hash kept in a double.
 *
 * Only the shift truncates to 32 bits, so the hash itself outgrows them. It stays congruent to the base-31
 * polynomial modulo 2^32, its size is bounded by the length, and modulo 8 it is an alternating sum up to sign.
 */
module AvatarHash {
  import opened Int32
  import opened Options

  const STEP_BOUND: int := TWO31 + 65535
  /** Up to here a double holds every integer exactly. */
  const EXACT: int := 0x20_0000_0000_0000

  const COLORS: seq<string> := [
    "#7c3aed", "#3b82f6", "#06b6d4", "#10b981", "#f59e0b", "#ef4444", "#ec4899", "#8b5cf6"
  ]

  function Abs(x: int): (a: int)
    ensures a >= 0 && (a == x || a == -x)
  {
    if x < 0 then -x else x
  }

  function HashStep(hash: int, c: CodeUnit): int {
    c + (ShiftLeft5(hash) - hash)
  }

  function Hash(s: seq<CodeUnit>): int {
    if s == [] then 0 else HashStep(Hash(s[..|s| - 1]), s[|s| - 1])
  }

  /** The base-31 polynomial of the code units, most significant first. */
  function Poly(s: seq<CodeUnit>): int {
    if s == [] then 0 else 31 * Poly(s[..|s| - 1]) + s[|s| - 1]
  }

  /** Last code unit minus the one before, plus the one before that, and so on. */
  function AlternatingSum(s: seq<CodeUnit>): int {
    if s == [] then 0 else s[|s| - 1] - AlternatingSum(s[..|s| - 1])
  }

  lemma ShiftIsTimes32(h: int)
    ensures Same32(ShiftLeft5(h), 32 * h)
  {
    ConversionsAreSame(h);
    ConversionsAreSame(ToInt32(h) * 32);
    var j: int :| ToInt32(h) == h + j * TWO32;
    var k: int :| ToInt32(ToInt32(h) * 32) == ToInt32(h) * 32 + k * TWO32;
    SameIs(ShiftLeft5(h), 32 * h, 32 * j + k);
  }

  lemma {:induction false} HashIsPolynomial(s: seq<CodeUnit>)
    ensures Same32(Hash(s), Poly(s))
  {
    if s == [] {
      SameIs(0, 0, 0);
    } else {
      var h, p, c := Hash(s[..|s| - 1]), Poly(s[..|s| - 1]), s[|s| - 1];
      HashIsPolynomial(s[..|s| - 1]);
      ShiftIsTimes32(h);
      var j: int :| h == p + j * TWO32;
      var k: int :| ShiftLeft5(h) == 32 * h + k * TWO32;
      SameIs(HashStep(h, c), 31 * p + c, 31 * j + k);
    }
  }

  lemma {:induction false} HashIsBounded(s: seq<CodeUnit>)
    ensures Abs(Hash(s)) <= |s| * STEP_BOUND
  {
    if s != [] {
      HashIsBounded(s[..|s| - 1]);
      assert |s| * STEP_BOUND == (|s| - 1) * STEP_BOUND + STEP_BOUND;
    }
  }

  /** The largest magnitudes one turn of the loop computes, before and after the code unit is added. */
  ghost predicate ExactStep(s: seq<CodeUnit>, i: nat)
    requires i < |s|
  {
    && Abs(ShiftLeft5(Hash(s[..i])) - Hash(s[..i])) < EXACT
    && Abs(Hash(s[..i + 1])) < EXACT
  }

  /** For such lengths no turn of the loop leaves the integers a double holds exactly. */
  lemma DoublesAreExact(s: seq<CodeUnit>, i: nat)
    requires |s| * STEP_BOUND < EXACT && i < |s|
    ensures ExactStep(s, i)
  {
    HashIsBounded(s[..i]);
    HashIsBounded(s[..i + 1]);
    assert (i + 1) * STEP_BOUND == i * STEP_BOUND + STEP_BOUND;
    assert |s| * STEP_BOUND == (i + 1) * STEP_BOUND + (|s| - i - 1) * STEP_BOUND;
    assert (|s| - i - 1) * STEP_BOUND >= 0;
  }

  function ColorIndex(s: seq<CodeUnit>): (i: nat)
    ensures i < |COLORS|
  {
    Abs(Hash(s)) % 8
  }

  method GetDeterministicColor(str: Option<seq<CodeUnit>>) returns (color: string)
    ensures color in COLORS
    ensures color == if str.GetOr([]) == [] then "#7c3aed" else COLORS[ColorIndex(str.value)]
  {
    if str == None || str.value == [] {
      return COLORS[0];
    }
    var s := str.value;
    var hash := 0;
    var i := 0;
    while i < |s|
      invariant 0 <= i <= |s|
      invariant hash == Hash(s[..i])
    {
      assert s[..i + 1][..i] == s[..i];
      hash := s[i] + (ShiftLeft5(hash) - hash);
      i := i + 1;
    }
    assert s[..i] == s;
    color := COLORS[Abs(hash) % |COLORS|];
  }

  /** 31 is -1 modulo 8. */
  lemma {:induction false} PolyMod8(s: seq<CodeUnit>) returns (k: int)
    ensures Poly(s) == AlternatingSum(s) + 8 * k
  {
    if s == [] {
      k := 0;
    } else {
      var j := PolyMod8(s[..|s| - 1]);
      k := 4 * AlternatingSum(s[..|s| - 1]) + 31 * j;
    }
  }

  lemma ShiftedMod8(x: int, k: int)
    ensures (x + 8 * k) % 8 == x % 8
  {
  }

  /** The colour is decided by the alternating sum of the code units modulo 8, up to its sign. */
  lemma ColorIsAlternatingSum(s: seq<CodeUnit>)
    ensures ColorIndex(s) == if Hash(s) >= 0 then AlternatingSum(s) % 8 else (-AlternatingSum(s)) % 8
  {
    HashIsPolynomial(s);
    var j: int :| Hash(s) == Poly(s) + j * TWO32;
    var k := PolyMod8(s);
    var m := k + j * 536870912;
    assert Hash(s) == AlternatingSum(s) + 8 * m;
    ShiftedMod8(AlternatingSum(s), m);
    ShiftedMod8(-AlternatingSum(s), -m);
  }
}
