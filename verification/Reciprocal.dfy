// Fixed-point reciprocals of 32-bit divisors (src/superscalar.cpp).
module Reciprocal {
  import opened Words
  import opened Arith

  predicate ZeroOrPowerOfTwo(d: U32) {
    d == 0 || exists k: nat :: k < 32 && d == Pow2(k)
  }

  // Number of significant bits of a divisor: 64 minus its leading zeros.
  function BitLength(d: nat): (n: nat)
  {
    if d == 0 then 0 else 1 + BitLength(d / 2)
  }

  // Every operation wraps at 64 bits, as the C++ does.
  function RandomxReciprocal(d: U32): Word
    requires d != 0
  {
    DivBounds(TWO63, d);
    var q: Word := TWO63 / d;
    var r: Word := TWO63 % d;
    var shift := BitLength(d);
    DivBounds(Shl(r, shift), d);
    Add(Shl(q, shift), Shl(r, shift) / d)
  }

  lemma {:induction false} BitLengthBounds(d: nat)
    requires d > 0
    ensures BitLength(d) > 0 && Pow2(BitLength(d) - 1) <= d < Pow2(BitLength(d))
  {
    if d > 1 {
      BitLengthBounds(d / 2);
      Pow2Next(BitLength(d / 2) - 1);
    }
  }

  lemma {:induction false} Pow2Grows(j: nat, k: nat)
    requires j <= k
    ensures Pow2(j) <= Pow2(k)
  {
    if j < k { Pow2Grows(j, k - 1); }
  }

  lemma BitLengthFits(d: U32)
    requires d > 0
    ensures BitLength(d) <= 32
  {
    BitLengthBounds(d);
    Pow2Values();
    if BitLength(d) > 32 { Pow2Grows(32, BitLength(d) - 1); }
  }

  // Dividing a shifted number in two steps.
  lemma ShiftedDivision(q: nat, r: nat, d: nat, p: nat)
    requires d > 0 && r < d && p > 0
    ensures (q * d + r) * p / d == q * p + r * p / d
  {
    var t := r * p;
    assert (q * d + r) * p == (q * p + t / d) * d + t % d by {
      assert (q * d + r) * p == q * p * d + t;
      assert t == t / d * d + t % d;
    }
    DivUnique((q * d + r) * p, d, q * p + t / d, t % d);
  }

  lemma DivLess(x: nat, d: nat, b: nat)
    requires d > 0 && x < b * d
    ensures x / d < b
  {
    if x / d >= b { MulBelow(b, x / d, d); }
  }

  lemma DivAtLeast(x: nat, d: nat, b: nat)
    requires d > 0 && b * d <= x
    ensures b <= x / d
  {
    if x / d < b { MulBelow(x / d + 1, b, d); }
  }

  lemma QuotientBounds(n: nat, d: nat, p: nat, q: nat, r: nat)
    requires 0 < d < p < 2 * d && n == q * d + r && r < d && n > 0
    ensures q * p + r * p / d == n * p / d
    ensures n <= n * p / d < 2 * n && 2 * n * p / d >= 2 * n && 0 <= q * p < 2 * n && 0 <= r * p / d
  {
    ShiftedDivision(q, r, d, p);
    MulBelow(p, 2 * d - 1, n);
    assert n * p < 2 * n * d;
    DivLess(n * p, d, 2 * n);
    MulBelow(d, p, n);
    DivAtLeast(n * p, d, n);
    assert 2 * n * d <= 2 * n * p;
    DivAtLeast(2 * n * p, d, 2 * n);
    MulBelow(0, r, p);
    MulBelow(0, q, p);
    DivAtLeast(r * p, d, 0);
  }

  lemma SmallProduct(r: nat, p: nat)
    requires r < p <= TWO32
    ensures r * p < TWO64
  {
    MulBelow(r, p - 1, p);
    MulBelow(p, TWO32, p);
    assert r * p <= (p - 1) * p == p * p - p;
    assert p * p <= TWO32 * p <= TWO64;
  }

  lemma DivisorBounds(d: U32)
    requires !ZeroOrPowerOfTwo(d)
    ensures 0 < d < Pow2(BitLength(d)) < 2 * d && Pow2(BitLength(d)) <= TWO32
  {
    var b := BitLength(d);
    BitLengthBounds(d);
    BitLengthFits(d);
    Pow2Next(b - 1);
    assert Pow2(b - 1) != d by { assert b - 1 < 32; }
    Pow2Grows(b, 32);
    Pow2Values();
  }

  // For every divisor the programs use, the result is the exact fixed-point
  // quotient with the largest exponent that fits: no intermediate overflows and
  // the top bit is set.
  lemma ReciprocalExact(d: U32)
    requires !ZeroOrPowerOfTwo(d)
    ensures var p := Pow2(BitLength(d));
            && RandomxReciprocal(d) == TWO63 * p / d
            && RandomxReciprocal(d) >= TWO63
            && TWO63 / d * p < TWO64 && TWO63 % d * p < TWO64
            && 2 * TWO63 * p / d >= TWO64
  {
    DivisorBounds(d);
    WrapsNowhere(d, Pow2(BitLength(d)), TWO63 / d, TWO63 % d);
  }

  lemma WrapsNowhere(d: U32, p: int, q: Word, r: Word)
    requires 0 < d < p < 2 * d && p <= TWO32 && q == TWO63 / d && r == TWO63 % d
    ensures q * p < TWO64 && r * p < TWO64 && 2 * TWO63 * p / d >= TWO64
    ensures (q * p) % TWO64 == q * p && (r * p) % TWO64 == r * p
    ensures (q * p + r * p / d) % TWO64 == TWO63 * p / d >= TWO63
  {
    QuotientBounds(TWO63, d, p, q, r);
    SmallProduct(r, p);
    DivUnique(q * p, TWO64, 0, q * p);
    DivUnique(r * p, TWO64, 0, r * p);
    DivUnique(q * p + r * p / d, TWO64, 0, q * p + r * p / d);
  }
}
