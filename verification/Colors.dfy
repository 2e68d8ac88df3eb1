/**
 * Collaborator colours: the FNV-1a hash of a user id and the probe of the 16-colour palette.
 *
 * The signed 32-bit loop is proved to compute unsigned FNV-1a, and the probing loop to return the first free
 * palette colour in cyclic order. The hue that is used once the palette is exhausted is worked out exactly.
 */
module Colors {
  import opened Int32

  const PALETTE_SIZE: nat := 16
  const FNV_OFFSET: int := 2166136261
  const FNV_PRIME: int := 16777619
  /** The inverse of the prime modulo 2^32. */
  const FNV_INVERSE: int := 899433627

  type UserId = seq<CodeUnit>

  /** A palette entry by position (the 16 entries are pairwise different), or `hsl(hue, 75%, 50%)`. */
  datatype Color = Palette(index: nat) | Hsl(hue: int)

  // ---- The hash ----

  function FnvStep(h: int, c: CodeUnit): (r: int)
    requires 0 <= h < TWO32
    ensures 0 <= r < TWO32
  {
    (XorBits(h, c) * FNV_PRIME) % TWO32
  }

  /** FNV-1a over unsigned 32-bit integers (section 2 of draft-eastlake-fnv), one code unit at a time. */
  function Fnv(s: UserId): (h: int)
    ensures 0 <= h < TWO32
  {
    if s == [] then FNV_OFFSET else FnvStep(Fnv(s[..|s| - 1]), s[|s| - 1])
  }

  /** One turn of the signed loop, seen through `>>> 0`, is one unsigned step. */
  lemma SignedStep(hash: int, c: CodeUnit)
    ensures ToUint32(Imul(Xor(hash, c), FNV_PRIME)) == FnvStep(ToUint32(hash), c)
  {
    var x := XorBits(ToUint32(hash), ToUint32(c));
    assert ToUint32(c) == c;
    ConversionsAreSame(x);
    assert ToUint32(Xor(hash, c)) == x;
    assert ToUint32(FNV_PRIME) == FNV_PRIME;
    ConversionsAreSame(x * FNV_PRIME);
  }

  method HashUserId(userId: UserId) returns (h: int)
    ensures h == Fnv(userId)
    ensures 0 <= h < TWO32
  {
    var hash := FNV_OFFSET;
    var i := 0;
    while i < |userId|
      invariant 0 <= i <= |userId|
      invariant ToUint32(hash) == Fnv(userId[..i])
    {
      SignedStep(hash, userId[i]);
      assert userId[..i + 1][..i] == userId[..i];
      hash := Xor(hash, userId[i]);
      hash := Imul(hash, FNV_PRIME);
      i := i + 1;
    }
    assert userId[..i] == userId;
    h := ToUint32(hash);
    h := if h < 0 then -h else h;
  }

  /** Multiplying by the prime loses nothing modulo 2^32. */
  lemma PrimeIsInvertible(x: int, y: int)
    requires 0 <= x < TWO32 && 0 <= y < TWO32
    requires (x * FNV_PRIME) % TWO32 == (y * FNV_PRIME) % TWO32
    ensures x == y
  {
    Undone(x);
    Undone(y);
  }

  lemma Undone(x: int)
    requires 0 <= x < TWO32
    ensures (((x * FNV_PRIME) % TWO32) * FNV_INVERSE) % TWO32 == x
  {
    var q := (x * FNV_PRIME) / TWO32;
    var m := (x * FNV_PRIME) % TWO32;
    assert m == x * FNV_PRIME - q * TWO32;
    assert FNV_PRIME * FNV_INVERSE == 1 + 3513497 * TWO32;
    assert m * FNV_INVERSE == (x * 3513497 - q * FNV_INVERSE) * TWO32 + x;
    ModIs(m * FNV_INVERSE, TWO32, x * 3513497 - q * FNV_INVERSE, x);
  }

  /** Two ids of one length that differ in exactly one code unit never share a hash. */
  lemma {:induction false} OneUnitApart(s: UserId, t: UserId, k: nat)
    requires |s| == |t| && k < |s|
    requires s[k] != t[k] && s[..k] == t[..k] && s[k + 1..] == t[k + 1..]
    ensures Fnv(s) != Fnv(t)
  {
    var n := |s| - 1;
    var hs, ht := Fnv(s[..n]), Fnv(t[..n]);
    if FnvStep(hs, s[n]) == FnvStep(ht, t[n]) {
      PrimeIsInvertible(XorBits(hs, s[n]), XorBits(ht, t[n]));
      if k == n {
        assert s[..n] == t[..n];
        XorIsInjective(s[n], t[n], hs);
        assert false;
      } else {
        assert s[n] == s[k + 1..][n - k - 1] == t[k + 1..][n - k - 1] == t[n];
        XorIsInjective(hs, ht, s[n]);
        assert s[..n][k + 1..] == s[k + 1..][..n - k - 1] == t[k + 1..][..n - k - 1] == t[..n][k + 1..];
        assert s[..n][..k] == s[..k] && t[..n][..k] == t[..k];
        OneUnitApart(s[..n], t[..n], k);
        assert false;
      }
    }
  }

  // ---- The probe ----

  /** The palette position looked at after `k` steps from the hash's own. */
  function Slot(h: int, k: nat): (i: nat)
    requires 0 <= h
    ensures i < PALETTE_SIZE
  {
    (h + k) % PALETTE_SIZE
  }

  /** Palette colour `Slot(h, k)` is free and every one probed before it is taken. */
  ghost predicate FirstFree(h: int, taken: set<Color>, k: nat)
    requires 0 <= h
  {
    && k < PALETTE_SIZE
    && Palette(Slot(h, k)) !in taken
    && forall j: nat :: j < k ==> Palette(Slot(h, j)) in taken
  }

  ghost predicate PaletteExhausted(taken: set<Color>) {
    forall i: nat :: i < PALETTE_SIZE ==> Palette(i) in taken
  }

  /** `Math.round((hash + attempts * 137.508) % 360)`, in thousandths of a degree. */
  function GoldenHue(h: int, attempts: nat): int {
    ((h * 1000 + attempts * 137508) % 360000 + 500) / 1000
  }

  /** How many steps the probe makes: to the first free colour, or 16. */
  function Attempts(h: int, taken: set<Color>, from: nat): (k: nat)
    requires 0 <= h && from <= PALETTE_SIZE
    ensures from <= k <= PALETTE_SIZE
    ensures forall j: nat :: from <= j < k ==> Palette(Slot(h, j)) in taken
    ensures k < PALETTE_SIZE ==> Palette(Slot(h, k)) !in taken
    decreases PALETTE_SIZE - from
  {
    if from < PALETTE_SIZE && Palette(Slot(h, from)) in taken then Attempts(h, taken, from + 1) else from
  }

  function Assigned(userId: UserId, taken: set<Color>): Color {
    var h := Fnv(userId);
    var k := Attempts(h, taken, 0);
    if k < PALETTE_SIZE then Palette(Slot(h, k)) else Hsl(GoldenHue(h, PALETTE_SIZE))
  }

  lemma SlotAdvances(h: int, k: nat)
    requires 0 <= h
    ensures Slot(h, k + 1) == (Slot(h, k) + 1) % PALETTE_SIZE
    ensures Slot(h, 0) == h % PALETTE_SIZE == Slot(h, PALETTE_SIZE)
  {
  }

  /** Sixteen consecutive probes visit the whole palette. */
  lemma EverySlotIsProbed(h: int, i: nat) returns (k: nat)
    requires 0 <= h && i < PALETTE_SIZE
    ensures k < PALETTE_SIZE && Slot(h, k) == i
  {
    k := (i - h) % PALETTE_SIZE;
    var q := (i - h) / PALETTE_SIZE;
    assert h + k == i - q * PALETTE_SIZE;
    assert Slot(h, k) == i;
  }

  method AssignCollaboratorColor(userId: UserId, taken: set<Color>) returns (c: Color)
    ensures c == Assigned(userId, taken)
  {
    var hash := HashUserId(userId);
    var colorIdx := hash % PALETTE_SIZE;
    var attempts := 0;
    SlotAdvances(hash, 0);
    while Palette(colorIdx) in taken && attempts < PALETTE_SIZE
      invariant 0 <= attempts <= PALETTE_SIZE
      invariant colorIdx == Slot(hash, attempts)
      invariant Attempts(hash, taken, 0) == Attempts(hash, taken, attempts)
      decreases PALETTE_SIZE - attempts
    {
      SlotAdvances(hash, attempts);
      colorIdx := (colorIdx + 1) % PALETTE_SIZE;
      attempts := attempts + 1;
    }
    SlotAdvances(hash, 0);
    if Palette(colorIdx) !in taken {
      return Palette(colorIdx);
    }
    return Hsl(GoldenHue(hash, attempts));
  }

  /** A free palette colour is found whenever there is one, and it is the first in cyclic order from the hash. */
  lemma FirstFreeIsAssigned(userId: UserId, taken: set<Color>)
    ensures PaletteExhausted(taken) <==> Assigned(userId, taken).Hsl?
    ensures !PaletteExhausted(taken) ==> Assigned(userId, taken) !in taken
    ensures forall k: nat :: FirstFree(Fnv(userId), taken, k) ==> Assigned(userId, taken) == Palette(Slot(Fnv(userId), k))
    ensures !PaletteExhausted(taken) ==> exists k: nat :: FirstFree(Fnv(userId), taken, k)
  {
    var h := Fnv(userId);
    var k := Attempts(h, taken, 0);
    if k == PALETTE_SIZE {
      forall i: nat | i < PALETTE_SIZE
        ensures Palette(i) in taken
      {
        var j := EverySlotIsProbed(h, i);
      }
    } else {
      assert FirstFree(h, taken, k);
      assert Slot(h, k) < PALETTE_SIZE;
    }
  }

  /** Sixteen steps of 137.508 degrees are 40 degrees and a bit too small to round up. */
  lemma HueIs(h: int)
    requires 0 <= h
    ensures GoldenHue(h, PALETTE_SIZE) == (h + 40) % 360
  {
    var q, r := (h + 40) / 360, (h + 40) % 360;
    assert h * 1000 + PALETTE_SIZE * 137508 == 360000 * (q + 6) + (1000 * r + 128);
    assert (h * 1000 + PALETTE_SIZE * 137508) % 360000 == 1000 * r + 128 by {
      var x := h * 1000 + PALETTE_SIZE * 137508;
      var d := x / 360000 - (q + 6);
      assert d * 360000 == 1000 * r + 128 - x % 360000;
      assert d == 0;
    }
  }

  lemma ShiftedResidues(a: int, b: int)
    ensures (a + 40) % 360 == (b + 40) % 360 <==> a % 360 == b % 360
  {
    var qa, qb, sa, sb := a / 360, b / 360, (a + 40) / 360, (b + 40) / 360;
    assert a == 360 * qa + a % 360 && b == 360 * qb + b % 360;
    assert a + 40 == 360 * sa + (a + 40) % 360 && b + 40 == 360 * sb + (b + 40) % 360;
  }

  lemma ExhaustedHue(u: UserId, taken: set<Color>)
    requires PaletteExhausted(taken)
    ensures Assigned(u, taken) == Hsl((Fnv(u) + 40) % 360)
  {
    FirstFreeIsAssigned(u, taken);
    HueIs(Fnv(u));
  }

  lemma SameHueIff(c: Color, d: Color, a: int, b: int)
    requires c == Hsl((a + 40) % 360) && d == Hsl((b + 40) % 360)
    ensures c == d <==> a % 360 == b % 360
  {
    ShiftedResidues(a, b);
  }

  /** Beyond the palette the hue depends on the hash alone: the "distinct" hues repeat exactly modulo 360. */
  lemma FallbackHuesCollideIff(u: UserId, v: UserId, taken: set<Color>, more: set<Color>)
    requires PaletteExhausted(taken) && PaletteExhausted(more)
    ensures Assigned(u, taken) == Assigned(v, more) <==> Fnv(u) % 360 == Fnv(v) % 360
  {
    ExhaustedHue(u, taken);
    ExhaustedHue(v, more);
    SameHueIff(Assigned(u, taken), Assigned(v, more), Fnv(u), Fnv(v));
  }

  /** The offset with a byte exclusive-ored in, by arithmetic. */
  function LetterBits(c: int): int
    requires 0 <= c
  {
    TwoBits(FNV_OFFSET, c) + 4 * TwoBits(FNV_OFFSET / 4, c / 4) + 16 * TwoBits(FNV_OFFSET / 16, c / 16)
    + 64 * TwoBits(FNV_OFFSET / 64, c / 64) + 256 * (FNV_OFFSET / 256)
  }

  function LetterValue(c: int): int
    requires 0 <= c
  {
    (LetterBits(c) * FNV_PRIME) % TWO32
  }

  lemma LetterHash(id: UserId, c: CodeUnit)
    requires id == [c] && c < 256
    ensures Fnv(id) == LetterValue(c)
  {
    XorByte(FNV_OFFSET, c);
    assert id[..0] == [];
  }

  lemma LowBits()
    ensures LetterBits(48) == 2166136309 && LetterBits(72) == 2166136205
  {
    assert TwoBits(2166136261, 48) == 1 && TwoBits(541534065, 12) == 1 && TwoBits(135383516, 3) == 3 && TwoBits(33845879, 0) == 3;
    assert TwoBits(2166136261, 72) == 1 && TwoBits(541534065, 18) == 3 && TwoBits(135383516, 4) == 0 && TwoBits(33845879, 1) == 2;
  }

  lemma LetterValues()
    ensures LetterValue(48) % 360 == LetterValue(72) % 360
  {
    LowBits();
    ModIs(2166136309 * FNV_PRIME, TWO32, 8461673, 890022063);
    ModIs(2166136205 * FNV_PRIME, TWO32, 8461672, 3440116983);
  }

  lemma LettersWithEqualHues(u: UserId, v: UserId, c: CodeUnit, d: CodeUnit, taken: set<Color>)
    requires u == [c] && v == [d] && c < 256 && d < 256 && PaletteExhausted(taken)
    requires LetterValue(c) % 360 == LetterValue(d) % 360
    ensures Assigned(u, taken) == Assigned(v, taken)
  {
    LetterHash(u, c);
    LetterHash(v, d);
    FallbackHuesCollideIff(u, v, taken, taken);
  }

  /** Two users, "0" and "H", whose fallback colours are one. */
  lemma EqualHues(taken: set<Color>) returns (u: UserId, v: UserId)
    requires PaletteExhausted(taken)
    ensures u != v && Assigned(u, taken) == Assigned(v, taken)
  {
    var c: CodeUnit, d: CodeUnit := 48, 72;
    u, v := [c], [d];
    assert u[0] != v[0];
    LetterValues();
    LettersWithEqualHues(u, v, c, d, taken);
  }

  /** What one multiplication by the prime leaves modulo 16. */
  lemma PrimeMod16(x: int)
    ensures ((x * FNV_PRIME) % TWO32) % 16 == (3 * (x % 16)) % 16
  {
    var y := x * FNV_PRIME;
    var q := y / TWO32;
    assert y == q * TWO32 + y % TWO32;
    var k := (x / 16) * FNV_PRIME + (x % 16) * 1048601 - q * 268435456;
    assert x == 16 * (x / 16) + x % 16;
    assert y % TWO32 == k * 16 + 3 * (x % 16);
    var r := 3 * (x % 16);
    ModIs(y % TWO32, 16, k + r / 16, r % 16);
  }

  lemma StepMod16(h: int, c: CodeUnit)
    requires 0 <= h < TWO32
    ensures FnvStep(h, c) % 16 == (3 * XorLow(h, c, 4)) % 16
  {
    Pow2Of4();
    XorMod(h, c, 32, 4);
    PrimeMod16(XorBits(h, c));
  }

  lemma Pow2Of4()
    ensures Pow2(4) == 16
  {
    assert Pow2(2) == 4;
  }

  lemma TripleIsInjective(a: int, b: int)
    requires 0 <= a < 16 && 0 <= b < 16
    ensures (3 * a) % 16 == (3 * b) % 16 <==> a == b
  {
  }

  /** Ids that differ in their last code unit only start probing at the same colour iff the units agree modulo 16. */
  lemma SameStartIff(s: UserId, c: CodeUnit, d: CodeUnit)
    ensures Slot(Fnv(s + [c]), 0) == Slot(Fnv(s + [d]), 0) <==> c % 16 == d % 16
  {
    var h := Fnv(s);
    FnvOfLast(s, c);
    FnvOfLast(s, d);
    StepMod16(h, c);
    StepMod16(h, d);
    Pow2Of4();
    XorAgreesIff(h, c, d, 4);
    TripleIsInjective(XorLow(h, c, 4), XorLow(h, d, 4));
  }

  lemma FnvOfLast(s: UserId, c: CodeUnit)
    ensures Fnv(s + [c]) == FnvStep(Fnv(s), c)
    ensures Slot(Fnv(s + [c]), 0) == FnvStep(Fnv(s), c) % 16
  {
    assert (s + [c])[..|s|] == s;
  }

  // ---- When two ids get the same colour ----

  /** The first n colours probed from a hash are taken. */
  ghost predicate AllTaken(h: int, n: nat, taken: set<Color>)
    requires 0 <= h
  {
    forall j: nat :: j < n ==> Palette(Slot(h, j)) in taken
  }

  /**
   With a colour free: every colour on the way from one hash's own to the other's
   is taken. With none: the hashes agree modulo 360.
   */
  ghost predicate SameChoice(h: int, g: int, taken: set<Color>)
    requires 0 <= h && 0 <= g
  {
    if PaletteExhausted(taken) then h % 360 == g % 360
    else AllTaken(h, (g - h) % PALETTE_SIZE, taken) || AllTaken(g, (h - g) % PALETTE_SIZE, taken)
  }

  /** Slots seen from two hashes differ by a rotation. */
  lemma Rotated(h: int, g: int, j: nat)
    requires 0 <= h && 0 <= g
    ensures Slot(h, (g - h) % PALETTE_SIZE + j) == Slot(g, j)
  {
    var q := (g - h) / PALETTE_SIZE;
    var d := (g - h) % PALETTE_SIZE;
    assert g - h == q * PALETTE_SIZE + d;
    assert h + d + j == g + j - q * PALETTE_SIZE;
    ModIs(h + d + j, PALETTE_SIZE, (g + j) / PALETTE_SIZE - q, (g + j) % PALETTE_SIZE);
  }

  lemma OppositeRotations(h: int, g: int)
    ensures (g - h) % PALETTE_SIZE == 0 <==> (h - g) % PALETTE_SIZE == 0
    ensures (g - h) % PALETTE_SIZE != 0 ==> (g - h) % PALETTE_SIZE + (h - g) % PALETTE_SIZE == PALETTE_SIZE
  {
  }

  lemma SlotsDiffer(h: int, a: nat, b: nat)
    requires 0 <= h && a < b < PALETTE_SIZE
    ensures Slot(h, a) != Slot(h, b)
  {
  }

  lemma FirstFreeIsUnique(h: int, taken: set<Color>, j: nat, k: nat)
    requires 0 <= h && FirstFree(h, taken, j) && FirstFree(h, taken, k)
    ensures j == k
  {
    assert Palette(Slot(h, j)) !in taken && Palette(Slot(h, k)) !in taken;
  }

  /** If everything up to the other hash's own colour is taken, both probes end on one colour. */
  lemma SharedTail(h: int, g: int, taken: set<Color>, j: nat, k: nat)
    requires 0 <= h && 0 <= g && FirstFree(h, taken, j) && FirstFree(g, taken, k)
    requires AllTaken(h, (g - h) % PALETTE_SIZE, taken)
    ensures Slot(h, j) == Slot(g, k)
  {
    var d := (g - h) % PALETTE_SIZE;
    assert d <= j;
    var m: nat := j - d;
    Rotated(h, g, m);
    forall i: nat | i < m
      ensures Palette(Slot(g, i)) in taken
    {
      Rotated(h, g, i);
    }
    FirstFreeIsUnique(g, taken, m, k);
  }

  /** If neither way round is taken, the probes stop before they meet. */
  lemma ProbesStopApart(h: int, g: int, taken: set<Color>, j: nat, k: nat)
    requires 0 <= h && 0 <= g && FirstFree(h, taken, j) && FirstFree(g, taken, k)
    requires !AllTaken(h, (g - h) % PALETTE_SIZE, taken) && !AllTaken(g, (h - g) % PALETTE_SIZE, taken)
    ensures Slot(h, j) != Slot(g, k)
  {
    var d, e := (g - h) % PALETTE_SIZE, (h - g) % PALETTE_SIZE;
    var a: nat :| a < d && Palette(Slot(h, a)) !in taken;
    var b: nat :| b < e && Palette(Slot(g, b)) !in taken;
    assert j <= a && k <= b;
    OppositeRotations(h, g);
    Rotated(h, g, k);
    SlotsDiffer(h, j, d + k);
  }

  /** Two ids are given one colour against the same taken colours exactly when their hashes make the same choice. */
  lemma SameColorIff(u: UserId, v: UserId, taken: set<Color>)
    ensures Assigned(u, taken) == Assigned(v, taken) <==> SameChoice(Fnv(u), Fnv(v), taken)
  {
    var h, g := Fnv(u), Fnv(v);
    if PaletteExhausted(taken) {
      FallbackHuesCollideIff(u, v, taken, taken);
    } else {
      FirstFreeIsAssigned(u, taken);
      FirstFreeIsAssigned(v, taken);
      var j: nat :| FirstFree(h, taken, j);
      var k: nat :| FirstFree(g, taken, k);
      SlotsDecide(h, g, taken, j, k);
    }
  }

  lemma SlotsDecide(h: int, g: int, taken: set<Color>, j: nat, k: nat)
    requires 0 <= h && 0 <= g && FirstFree(h, taken, j) && FirstFree(g, taken, k) && !PaletteExhausted(taken)
    ensures Slot(h, j) == Slot(g, k) <==> SameChoice(h, g, taken)
  {
    if AllTaken(h, (g - h) % PALETTE_SIZE, taken) {
      SharedTail(h, g, taken, j, k);
    } else if AllTaken(g, (h - g) % PALETTE_SIZE, taken) {
      SharedTail(g, h, taken, k, j);
    } else {
      ProbesStopApart(h, g, taken, j, k);
    }
  }
}
