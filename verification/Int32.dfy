/** JavaScript's 32-bit integer conversions and operators (section 7.1.6 of ECMA-262). */
module Int32 {
  const TWO32: int := 0x1_0000_0000
  const TWO31: int := 0x8000_0000

  type CodeUnit = c: int | 0 <= c < 0x1_0000

  /** `x >>> 0`. Dafny's % is the mathematical modulo, as the standard asks. */
  function ToUint32(x: int): (u: int)
    ensures 0 <= u < TWO32
  {
    x % TWO32
  }

  /** `x | 0`. */
  function ToInt32(x: int): (i: int)
    ensures -TWO31 <= i < TWO31
  {
    var u := ToUint32(x);
    if u < TWO31 then u else u - TWO32
  }

  function Pow2(n: nat): (p: int)
    ensures p >= 1
  {
    if n == 0 then 1 else 2 * Pow2(n - 1)
  }

  lemma Times256(n: nat)
    ensures Pow2(n + 8) == 256 * Pow2(n)
  {
    var m := n + 4;
    assert Pow2(m) == 2 * Pow2(m - 1) == 4 * Pow2(m - 2) == 8 * Pow2(m - 3) == 16 * Pow2(n);
    assert Pow2(m + 4) == 2 * Pow2(m + 3) == 4 * Pow2(m + 2) == 8 * Pow2(m + 1) == 16 * Pow2(m);
  }

  lemma Pow2Of32()
    ensures Pow2(32) == TWO32
  {
    Times256(0);
    Times256(8);
    Times256(16);
    Times256(24);
  }

  /** Exclusive or of the low `n` bits, lowest bit first. */
  function XorLow(a: int, b: int, n: nat): (r: int)
    requires 0 <= a && 0 <= b
    ensures 0 <= r < Pow2(n)
  {
    if n == 0 then 0 else (if a % 2 == b % 2 then 0 else 1) + 2 * XorLow(a / 2, b / 2, n - 1)
  }

  /** Exclusive or of two 32-bit patterns. */
  function XorBits(a: int, b: int): (r: int)
    requires 0 <= a < TWO32 && 0 <= b < TWO32
    ensures 0 <= r < TWO32
  {
    Pow2Of32();
    XorLow(a, b, 32)
  }

  /** `a ^ b`: a signed result. */
  function Xor(a: int, b: int): int {
    ToInt32(XorBits(ToUint32(a), ToUint32(b)))
  }

  /** Math.imul: a signed result. */
  function Imul(a: int, b: int): int {
    ToInt32(ToUint32(a) * ToUint32(b))
  }

  /** `a << n`. */
  function ShiftLeft5(a: int): int {
    ToInt32(ToInt32(a) * 32)
  }

  /** Congruence modulo 2^32. */
  ghost predicate Same32(a: int, b: int) {
    exists k: int :: a == b + k * TWO32
  }

  lemma SameIs(a: int, b: int, k: int)
    requires a == b + k * TWO32
    ensures Same32(a, b) && ToUint32(a) == ToUint32(b)
  {
    UintOfSum(b, k);
  }

  lemma UintOfSum(b: int, k: int)
    ensures (b + k * TWO32) % TWO32 == b % TWO32
  {
    var q := b / TWO32;
    assert b + k * TWO32 == (q + k) * TWO32 + b % TWO32;
    ModIs(b + k * TWO32, TWO32, q + k, b % TWO32);
  }

  lemma ConversionsAreSame(x: int)
    ensures Same32(ToUint32(x), x) && Same32(ToInt32(x), x)
    ensures ToUint32(ToInt32(x)) == ToUint32(x) && ToUint32(ToUint32(x)) == ToUint32(x)
  {
    var q := x / TWO32;
    assert x == q * TWO32 + x % TWO32;
    SameIs(ToUint32(x), x, -q);
    SameIs(ToInt32(x), x, if ToUint32(x) < TWO31 then -q else -q - 1);
  }

  lemma {:induction false} XorCommutes(a: int, b: int, n: nat)
    requires 0 <= a && 0 <= b
    ensures XorLow(a, b, n) == XorLow(b, a, n)
  {
    if n > 0 {
      XorCommutes(a / 2, b / 2, n - 1);
    }
  }

  /** A second exclusive or with the same bits takes the first back. */
  lemma {:induction false} XorCancels(a: int, b: int, n: nat)
    requires 0 <= a < Pow2(n) && 0 <= b
    ensures XorLow(XorLow(a, b, n), b, n) == a
  {
    if n > 0 {
      var x := XorLow(a, b, n);
      var low := if a % 2 == b % 2 then 0 else 1;
      assert x == low + 2 * XorLow(a / 2, b / 2, n - 1);
      assert x % 2 == low && x / 2 == XorLow(a / 2, b / 2, n - 1);
      XorCancels(a / 2, b / 2, n - 1);
    }
  }

  lemma XorIsInjective(a: int, b: int, c: int)
    requires 0 <= a < TWO32 && 0 <= b < TWO32 && 0 <= c < TWO32
    ensures XorBits(a, c) == XorBits(b, c) ==> a == b
    ensures XorBits(c, a) == XorBits(c, b) ==> a == b
  {
    Pow2Of32();
    XorCancels(a, c, 32);
    XorCancels(b, c, 32);
    XorCommutes(a, c, 32);
    XorCommutes(b, c, 32);
  }

  lemma ModDouble(c: int, p: int)
    requires 0 <= c && p >= 1
    ensures c % (2 * p) == 2 * ((c / 2) % p) + c % 2
  {
    var q, r := (c / 2) / p, (c / 2) % p;
    assert c / 2 == q * p + r;
    assert c == 2 * (c / 2) + c % 2;
    assert 2 * (q * p) == q * (2 * p);
    ModIs(c, 2 * p, q, 2 * r + c % 2);
  }

  lemma PushedMod(low: int, y: int, p: int)
    requires 0 <= low <= 1 && 0 <= y && p >= 1
    ensures (low + 2 * y) % (2 * p) == low + 2 * (y % p)
  {
    ModDouble(low + 2 * y, p);
  }

  lemma ModIs(x: int, m: int, q: int, r: int)
    requires x == q * m + r && 0 <= r < m
    ensures x % m == r
  {
    var d := x / m - q;
    assert x == (x / m) * m + x % m;
    assert d * m == r - x % m by {
      assert d * m == (x / m) * m - q * m;
    }
    assert -m < d * m < m;
    assert d == 0 by {
      assert d >= 1 ==> d * m >= m;
      assert d <= -1 ==> d * m <= -m;
    }
  }

  /** Exclusive or with the same bits tells apart exactly what the low bits tell apart. */
  lemma {:induction false} XorAgreesIff(h: int, c: int, d: int, n: nat)
    requires 0 <= h && 0 <= c && 0 <= d
    ensures XorLow(h, c, n) == XorLow(h, d, n) <==> c % Pow2(n) == d % Pow2(n)
  {
    if n > 0 {
      XorAgreesIff(h / 2, c / 2, d / 2, n - 1);
      ModDouble(c, Pow2(n - 1));
      ModDouble(d, Pow2(n - 1));
    }
  }

  /** The low `m` bits of an exclusive or are the exclusive or of the low `m` bits. */
  lemma {:induction false} XorMod(a: int, b: int, n: nat, m: nat)
    requires 0 <= a && 0 <= b && m <= n
    ensures XorLow(a, b, n) % Pow2(m) == XorLow(a, b, m)
  {
    if m > 0 {
      var low := if a % 2 == b % 2 then 0 else 1;
      var y := XorLow(a / 2, b / 2, n - 1);
      XorMod(a / 2, b / 2, n - 1, m - 1);
      PushedMod(low, y, Pow2(m - 1));
    } else {
      assert XorLow(a, b, n) % 1 == 0;
    }
  }

  lemma {:induction false} XorZero(a: int, n: nat)
    requires 0 <= a < Pow2(n)
    ensures XorLow(a, 0, n) == a
  {
    if n > 0 {
      XorZero(a / 2, n - 1);
    }
  }

  lemma XorBit(a: int, b: int, n: nat)
    requires 0 <= a && 0 <= b
    ensures XorLow(a, b, n + 1) == (if a % 2 == b % 2 then 0 else 1) + 2 * XorLow(a / 2, b / 2, n)
  {
  }

  /** Two exclusive-or bits. */
  function TwoBits(a: int, b: int): int {
    (if a % 2 == b % 2 then 0 else 1) + (if a / 2 % 2 == b / 2 % 2 then 0 else 2)
  }

  lemma XorPair(a: int, b: int, n: nat)
    requires 0 <= a && 0 <= b
    ensures XorLow(a, b, n + 2) == TwoBits(a, b) + 4 * XorLow(a / 4, b / 4, n)
  {
    XorBit(a, b, n + 1);
    XorBit(a / 2, b / 2, n);
    assert a / 2 / 2 == a / 4 && b / 2 / 2 == b / 4;
  }

  lemma XorHigh(a: int)
    requires 0 <= a < TWO32
    ensures XorLow(a / 256, 0, 24) == a / 256
  {
    Pow2Of32();
    Times256(24);
    XorZero(a / 256, 24);
  }

  lemma Quarters(a: int)
    requires 0 <= a
    ensures a / 4 / 4 == a / 16 && a / 16 / 4 == a / 64 && a / 64 / 4 == a / 256
  {
  }

  /** A byte changes the low byte only, two bits at a time. */
  lemma XorByte(a: int, b: int)
    requires 0 <= a < TWO32 && 0 <= b < 256
    ensures XorBits(a, b) == TwoBits(a, b) + 4 * TwoBits(a / 4, b / 4) + 16 * TwoBits(a / 16, b / 16)
                             + 64 * TwoBits(a / 64, b / 64) + 256 * (a / 256)
  {
    Quarters(a);
    Quarters(b);
    assert b / 64 / 4 == 0;
    XorPair(a, b, 30);
    XorPair(a / 4, b / 4, 28);
    XorPair(a / 16, b / 16, 26);
    XorPair(a / 64, b / 64, 24);
    XorHigh(a);
  }
}
