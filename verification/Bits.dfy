/**
 Unsigned 64-bit masks on natural numbers: the bitwise operators that the driver and
 the device use on addresses, and what they compute.
 */
module Bits {

  const TWO_TO_THE_32 := 0x1_0000_0000
  const TWO_TO_THE_64 := 0x1_0000_0000_0000_0000

  function Pow2(n: nat): (r: nat)
    ensures 1 <= r
  {
    if n == 0 then 1 else 2 * Pow2(n - 1)
  }

  /** Bitwise `a & b`, one binary digit at a time. */
  function And(a: nat, b: nat): nat
    decreases a
  {
    if a == 0 || b == 0 then 0
    else 2 * And(a / 2, b / 2) + (if a % 2 == 1 && b % 2 == 1 then 1 else 0)
  }

  /** Bitwise `~x` in 64 bits. */
  function Not64(x: nat): nat
    requires x < TWO_TO_THE_64
  {
    TWO_TO_THE_64 - 1 - x
  }

  /** A conversion to a 32-bit unsigned integer, as `(u32)x` and `iowrite32` perform it. */
  function Low32(x: nat): nat {
    x % TWO_TO_THE_32
  }

  lemma MultipleAtLeast(d: int, m: nat)
    requires 1 <= d
    ensures m <= d * m
  {
  }

  lemma DivisionIsUnique(x: nat, q: int, m: nat, r: nat)
    requires r < m && x == q * m + r
    ensures x / m == q && x % m == r
  {
    var d := x / m - q;
    assert x == (x / m) * m + x % m;
    assert d * m == r - x % m by {
      assert d * m == (x / m) * m - q * m;
    }
    assert (-d) * m == -(d * m);
    if d >= 1 {
      MultipleAtLeast(d, m);
    } else if d <= -1 {
      MultipleAtLeast(-d, m);
    }
  }

  lemma HalvedRemainder(a: nat, m: nat)
    requires 1 <= m
    ensures a % (2 * m) == 2 * ((a / 2) % m) + a % 2
  {
    var q, r := (a / 2) / m, (a / 2) % m;
    assert a / 2 == q * m + r;
    assert a == q * (2 * m) + (2 * r + a % 2) by {
      assert q * (2 * m) == 2 * (q * m);
    }
    DivisionIsUnique(a, q, 2 * m, 2 * r + a % 2);
  }

  lemma AndOddMask(a: nat, m: nat)
    requires 1 <= m
    ensures And(a, 2 * m - 1) == 2 * And(a / 2, m - 1) + a % 2
  {
  }

  /** Masking with the low `n` bits is the remainder by `2^n`. */
  lemma {:induction false} AndLowMask(a: nat, n: nat)
    ensures And(a, Pow2(n) - 1) == a % Pow2(n)
  {
    if n > 0 {
      AndLowMask(a / 2, n - 1);
      AndOddMask(a, Pow2(n - 1));
      HalvedRemainder(a, Pow2(n - 1));
    }
  }

  lemma {:induction false} Pow2Sum(a: nat, b: nat)
    ensures Pow2(a + b) == Pow2(a) * Pow2(b)
  {
    if a > 0 {
      Pow2Sum(a - 1, b);
      assert Pow2(a) * Pow2(b) == 2 * (Pow2(a - 1) * Pow2(b));
    }
  }

  lemma Pow2Double(n: nat, p: nat)
    requires Pow2(n) == p
    ensures Pow2(2 * n) == p * p
  {
    Pow2Sum(n, n);
  }

  lemma Pow2Landmarks()
    ensures Pow2(2) == 4 && Pow2(32) == TWO_TO_THE_32 && Pow2(64) == TWO_TO_THE_64
  {
    Pow2Double(2, 4);
    Pow2Double(4, 0x10);
    Pow2Double(8, 0x100);
    Pow2Double(16, 0x1_0000);
    Pow2Double(32, 0x1_0000_0000);
  }

  lemma LowMaskIsLow32(a: nat)
    ensures And(a, TWO_TO_THE_32 - 1) == Low32(a)
  {
    var n := 32;
    AndLowMask(a, n);
    Pow2Landmarks();
  }

  lemma Low32OfLow(a: nat)
    ensures Low32(Low32(a)) == Low32(a)
    ensures a < TWO_TO_THE_32 ==> Low32(a) == a
  {
  }

  lemma {:induction false} Pow2Monotone(a: nat, b: nat)
    requires a <= b
    ensures Pow2(a) <= Pow2(b)
  {
    if a < b {
      Pow2Monotone(a, b - 1);
    }
  }
}
