// What the word operations mean: products as numbers, and everything else bit by
// bit.
module WordLaws {
  import opened Words
  import opened Arith

  // ---- products ----

  lemma ProductBound(a: Word, b: Word)
    ensures 0 <= a * b < TWO64 * TWO64
  {
    MulBelow(0, a, b);
    MulBelow(a, TWO64 - 1, b);
    MulBelow(b, TWO64 - 1, TWO64);
  }

  // The high and the low half make up the product.
  lemma MulHalves(a: Word, b: Word)
    ensures MulHigh(a, b) * TWO64 + Mul(a, b) == a * b
  {
    ProductBound(a, b);
    HalvesOf(a * b, TWO64);
  }

  lemma HalvesOf(x: nat, n: int)
    requires n > 0 && x < n * n
    ensures x / n % n * n + x % n == x
  {
    var q := x / n;
    assert x == q * n + x % n;
    if q >= n { MulBelow(n, q, n); }
    if q < 0 { MulBelow(q, -1, n); }
    DivUnique(q, n, 0, q);
  }

  lemma SignedBound(a: Word, b: Word)
    ensures -(TWO63 * TWO63) <= Signed(a) * Signed(b) <= TWO63 * TWO63
  {
    var x, y := Signed(a), Signed(b);
    if x >= 0 { ProductWithin(x, y, TWO63); } else { ProductWithin(-x, y, TWO63); assert x * y == -(-x * y); }
  }

  lemma ProductWithin(x: nat, y: int, n: int)
    requires x <= n && -n <= y <= n
    ensures -(n * n) <= x * y <= n * n
  {
    MulBelow(y, n, x);
    MulBelow(-n, y, x);
    MulBelow(x, n, n);
  }

  lemma SignedIsCongruent(a: Word)
    ensures exists k: int :: Signed(a) == a + k * TWO64
  {
    if a < TWO63 { assert Signed(a) == a + 0 * TWO64; } else { assert Signed(a) == a + (-1) * TWO64; }
  }

  lemma CongruentProducts(a: int, b: int, j: int, k: int, n: int)
    requires n > 0
    ensures (a + j * n) * (b + k * n) % n == a * b % n
  {
    var h := a * k + j * b + j * k * n;
    assert (a + j * n) * (b + k * n) == a * b + h * n;
    assert a * b + h * n == (a * b / n + h) * n + a * b % n;
    DivUnique(a * b + h * n, n, a * b / n + h, a * b % n);
  }

  lemma SignedLow(a: Word, b: Word)
    ensures Signed(a) * Signed(b) % TWO64 == Mul(a, b)
  {
    SignedIsCongruent(a);
    SignedIsCongruent(b);
    var j: int :| Signed(a) == a + j * TWO64;
    var k: int :| Signed(b) == b + k * TWO64;
    CongruentProducts(a, b, j, k, TWO64);
  }

  lemma SignedReads(q: int)
    requires -TWO63 <= q < TWO63
    ensures Signed(q % TWO64) == q
  {
    DivUnique(q, TWO64, if q < 0 then -1 else 0, if q < 0 then q + TWO64 else q);
  }

  lemma QuotientWithin(x: int, n: int, h: int)
    requires n > 0 && h > 0 && -(h * h) <= x <= h * h && n == 2 * h
    ensures -h <= x / n < h
  {
    var q := x / n;
    assert x == q * n + x % n;
    assert h * n == 2 * (h * h) && (-h - 1) * n == -2 * (h * h) - n;
    if q >= h { MulBelow(h, q, n); }
    if q < -h { MulBelow(q, -h - 1, n); }
  }

  // The same for the signed product, whose high half is signed.
  lemma SignedMulHalves(a: Word, b: Word)
    ensures Signed(SignedMulHigh(a, b)) * TWO64 + Mul(a, b) == Signed(a) * Signed(b)
  {
    hide Signed, Mul;
    var x := Signed(a) * Signed(b);
    SignedBound(a, b);
    QuotientWithin(x, TWO64, TWO63);
    SignedReads(x / TWO64);
    SignedLow(a, b);
    assert x == x / TWO64 * TWO64 + x % TWO64;
  }

  // A factor with an inverse can be taken back.
  lemma MulInverse(x: Word, f: Word, g: Word)
    requires Mul(f, g) == 1
    ensures Mul(Mul(x, f), g) == x
  {
    var n, h, k := TWO64, x * f / TWO64, f * g / TWO64;
    assert x * f == h * n + Mul(x, f) && f * g == k * n + 1;
    InverseParts(x, f, g, h, k, Mul(x, f), n);
    DivUnique(Mul(x, f) * g, n, x * k - h * g, x);
  }

  lemma InverseParts(x: int, f: int, g: int, h: int, k: int, y: int, n: int)
    requires x * f == h * n + y && f * g == k * n + 1
    ensures y * g == (x * k - h * g) * n + x
  {
    calc {
      y * g;
      (x * f - h * n) * g;
      x * (f * g) - h * n * g;
      x * (k * n + 1) - h * n * g;
      (x * k - h * g) * n + x;
    }
  }

  // ---- sums ----

  lemma SumLaws(a: Word, b: Word)
    ensures Sub(Add(a, b), b) == a == Add(Sub(a, b), b) && Add(a, Neg(a)) == 0 && Sub(0, a) == Neg(a)
    ensures Add(a, b) == if a + b < TWO64 then a + b else a + b - TWO64
  {
    AddIs(a, b);
    SubIs(a, b);
    SubIs(0, a);
    AddIs(Sub(a, b), b);
    SubIs(Add(a, b), b);
    AddIs(a, Neg(a));
  }

  lemma AddIs(a: Word, b: Word)
    ensures Add(a, b) == if a + b < TWO64 then a + b else a + b - TWO64
  {
  }

  lemma SubIs(a: Word, b: Word)
    ensures Sub(a, b) == if a >= b then a - b else a - b + TWO64
  {
  }

  // Sign extension keeps the signed reading.
  lemma SignExtendReads(x: U32)
    ensures Signed(SignExtend(x)) == (if x < TWO31 then x else x - TWO32) && SignExtend(x) % TWO32 == x
  {
  }

  // ---- bits ----

  lemma BitRange(x: nat, k: nat)
    ensures Bit(x, k) == 0 || Bit(x, k) == 1
  {
  }

  lemma BitAbove(x: nat, r: nat, j: nat)
    ensures x / Pow2(r) >= 0 && Bit(x / Pow2(r), j) == Bit(x, j + r)
  {
    hide Pow2;
    DivBounds(x, Pow2(r));
    Pow2Add(j, r);
    ModSplit(x, Pow2(j), Pow2(r));
  }

  lemma BitBelow(x: nat, r: nat, j: nat)
    requires j < r
    ensures Bit(x % Pow2(r), j) == Bit(x, j)
  {
    hide Pow2;
    var p, h := Pow2(j), Pow2(r - 1 - j);
    Pow2Add(r - 1 - j, j);
    Pow2Next(r - 1);
    assert Pow2(r) == (2 * h) * p;
    ModSplit(x, 2 * h, p);
    var y := x / p % (2 * h);
    DivBounds(x, p);
    assert x % Pow2(r) == y * p + x % p;
    DivUnique(x % Pow2(r), p, y, x % p);
    assert h * 2 == 2 * h;
    ModMod(x / p, 2 * h, h, 2);
  }

  // A number put together from l above h.
  lemma BitOfParts(l: nat, h: nat, n: nat, j: nat)
    requires h < Pow2(n)
    ensures l * Pow2(n) + h >= 0 && Bit(l * Pow2(n) + h, j) == if j < n then Bit(h, j) else Bit(l, j - n)
  {
    hide Pow2, Bit;
    MulBelow(0, l, Pow2(n));
    var x := l * Pow2(n) + h;
    DivUnique(x, Pow2(n), l, h);
    if j < n { BitBelow(x, n, j); } else { BitAbove(x, n, j - n); }
  }

  lemma BitHalf(x: nat, k: nat)
    ensures Bit(x, k + 1) == Bit(x / 2, k)
  {
    hide Pow2;
    Pow2Next(k);
    ModSplit(x, Pow2(k), 2);
    assert Pow2(k) * 2 == 2 * Pow2(k);
  }

  lemma BitZero(x: nat)
    ensures Bit(x, 0) == x % 2
  {
    assert Pow2(0) == 1;
  }

  lemma XorStep(a: nat, b: nat, n: nat)
    requires n > 0
    ensures XorBits(a, b, n) / 2 == XorBits(a / 2, b / 2, n - 1) && XorBits(a, b, n) % 2 == (a % 2 + b % 2) % 2
  {
    assert XorBits(a, b, n) == 2 * XorBits(a / 2, b / 2, n - 1) + (a % 2 + b % 2) % 2;
  }

  lemma {:induction false} XorBitsBit(a: nat, b: nat, n: nat, k: nat)
    requires k < n
    ensures Bit(XorBits(a, b, n), k) == (Bit(a, k) + Bit(b, k)) % 2
  {
    hide Bit, XorBits;
    XorStep(a, b, n);
    if k == 0 {
      BitZero(XorBits(a, b, n));
      BitZero(a);
      BitZero(b);
    } else {
      XorBitsBit(a / 2, b / 2, n - 1, k - 1);
      BitHalf(XorBits(a, b, n), k - 1);
      BitHalf(a, k - 1);
      BitHalf(b, k - 1);
    }
  }

  lemma XorBit(a: Word, b: Word, k: nat)
    requires k < 64
    ensures Bit(Xor(a, b), k) == (Bit(a, k) + Bit(b, k)) % 2
  {
    hide Bit, XorBits;
    Pow2Values();
    XorBitsBit(a, b, 64, k);
    DivUnique(XorBits(a, b, 64), TWO64, 0, XorBits(a, b, 64));
  }

  lemma SameParity(x: nat, y: nat)
    ensures ((x % 2 + y % 2) % 2 + x % 2) % 2 == y % 2
  {
  }

  lemma {:induction false} XorBitsCancel(a: nat, b: nat, n: nat)
    ensures XorBits(XorBits(a, b, n), a, n) == b % Pow2(n)
  {
    if n > 0 {
      hide XorBits;
      var x := XorBits(a, b, n);
      XorStep(a, b, n);
      XorStep(x, a, n);
      SameParity(a, b);
      XorBitsCancel(a / 2, b / 2, n - 1);
      HalfMod(b, Pow2(n - 1));
    }
  }

  lemma HalfMod(b: nat, p: int)
    requires p > 0
    ensures b % (2 * p) == 2 * (b / 2 % p) + b % 2
  {
    ModSplit(b, p, 2);
    assert p * 2 == 2 * p;
  }

  lemma {:induction false} XorBitsSwap(a: nat, b: nat, n: nat)
    ensures XorBits(a, b, n) == XorBits(b, a, n)
  {
    if n > 0 { XorBitsSwap(a / 2, b / 2, n - 1); }
  }

  // Exclusive or takes itself back.
  lemma XorCancel(a: Word, b: Word)
    ensures Xor(Xor(a, b), a) == b
  {
    hide XorBits;
    Pow2Values();
    XorBitsCancel(a, b, 64);
    DivUnique(XorBits(a, b, 64), TWO64, 0, XorBits(a, b, 64));
    DivUnique(b, TWO64, 0, b);
  }

  lemma XorBack(a: Word, b: Word)
    ensures Xor(Xor(a, b), b) == a
  {
    hide XorBits;
    XorBitsSwap(a, b, 64);
    XorCancel(b, a);
  }

  lemma RotatedParts(a: int, p: int, q: int, n: int)
    requires p > 0 && q > 0 && n == q * p && 0 <= a < n
    ensures 0 <= a / p < q && (a / p + a * q) % n == a % p * q + a / p
  {
    var h, l := a / p, a % p;
    assert a == h * p + l;
    if h >= q { MulBelow(q, h, p); }
    if h < 0 { MulBelow(h, -1, p); }
    assert a * q == h * n + l * q;
    MulBelow(l, p - 1, q);
    MulBelow(0, l, q);
    assert (p - 1) * q + q == n;
    DivUnique(h + a * q, n, h, l * q + h);
  }

  // A rotated word is its low part above its high part.
  lemma RorParts(a: Word, r: nat)
    requires r < 64
    ensures var p, q := Pow2(r), Pow2(64 - r);
            0 <= a / p < q && (a / p + a * q) % TWO64 == a % p * q + a / p
  {
    hide Pow2;
    Pow2At(r);
    RotatedParts(a, Pow2(r), Pow2(64 - r), TWO64);
  }

  // Bit j of a word rotated right by k is bit j + k of the word.
  lemma RorBit(a: Word, k: nat, j: nat)
    requires j < 64
    ensures Bit(Ror(a, k), j) == Bit(a, (j + k) % 64)
  {
    hide Pow2, Bit;
    var r := k % 64;
    RorParts(a, r);
    DivBounds(a, Pow2(r));
    BitOfParts(a % Pow2(r), a / Pow2(r), 64 - r, j);
    CountMod(j, k, r);
    if j < 64 - r { BitAbove(a, r, j); } else { BitBelow(a, r, j - (64 - r)); }
  }

  lemma CountMod(j: nat, k: nat, r: nat)
    requires j < 64 && r == k % 64
    ensures (j + k) % 64 == if j + r < 64 then j + r else j + r - 64
  {
    DivUnique(j + k, 64, k / 64 + (if j + r < 64 then 0 else 1), if j + r < 64 then j + r else j + r - 64);
  }

  lemma RolBit(a: Word, k: nat, j: nat)
    requires j < 64
    ensures Bit(Rol(a, k), (j + k) % 64) == Bit(a, j)
  {
    hide Ror, Bit;
    var t := (j + k) % 64;
    RorBit(a, 64 - k % 64, t);
    CountMod(j, k, k % 64);
    CountMod(t, 64 - k % 64, (64 - k % 64) % 64);
  }

  lemma ShlParts(a: Word, k: nat)
    requires k < 64
    ensures a % Pow2(64 - k) * Pow2(k) == Shl(a, k)
  {
    hide Pow2;
    var p, q := Pow2(k), Pow2(64 - k);
    Pow2At(k);
    var h, l := a / q, a % q;
    assert a * p == h * (q * p) + l * p;
    MulBelow(l, q - 1, p);
    MulBelow(0, l, p);
    assert (q - 1) * p + p == q * p;
    DivUnique(a * p, TWO64, h, l * p);
  }

  lemma ShlBit(a: Word, k: nat, j: nat)
    requires k < 64 && j < 64
    ensures Bit(Shl(a, k), j) == if j < k then 0 else Bit(a, j - k)
  {
    hide Pow2, Bit, Shl;
    ShlParts(a, k);
    BitOfParts(a % Pow2(64 - k), 0, k, j);
    if j < k { ZeroBit(j); } else { BitBelow(a, 64 - k, j - k); }
  }

  lemma ZeroBit(j: nat)
    ensures Bit(0, j) == 0
  {
    hide Pow2;
    DivUnique(0, Pow2(j), 0, 0);
  }

  // x with bit k taken out, in parts: h above the bit, l below.
  lemma BitParts(x: nat, k: nat) returns (h: nat, l: nat)
    ensures l < Pow2(k) && x == (2 * h + Bit(x, k)) * Pow2(k) + l
  {
    hide Pow2;
    var q := x / Pow2(k);
    DivBounds(x, Pow2(k));
    h, l := q / 2, x % Pow2(k);
    assert x == q * Pow2(k) + l;
  }

  // Replacing bit k changes no other bit.
  lemma ReplacedBit(h: nat, l: nat, k: nat, b: nat, c: nat, j: nat)
    requires l < Pow2(k) && b < 2 && c < 2
    ensures (2 * h + b) * Pow2(k) + l >= 0 && (2 * h + c) * Pow2(k) + l >= 0
    ensures Bit((2 * h + c) * Pow2(k) + l, j) == if j == k then c else Bit((2 * h + b) * Pow2(k) + l, j)
  {
    hide Pow2, Bit;
    BitOfParts(2 * h + b, l, k, j);
    BitOfParts(2 * h + c, l, k, j);
    if j == k {
      BitZero(2 * h + c);
    } else if j > k {
      BitHalf(2 * h + b, j - k - 1);
      BitHalf(2 * h + c, j - k - 1);
    }
  }

  lemma RoomForBit(h: nat, l: nat, p: int, m: int, b: nat)
    requires p > 0 && l < p && b < 2 && (2 * h + b) * p + l < 2 * (m * p)
    ensures b == 0 ==> (2 * h + b) * p + l + p < 2 * (m * p)
    ensures b == 1 ==> (2 * h + b) * p + l - p >= 0
  {
    MulBelow(0, h, p);
    assert (2 * h) * p == 2 * (h * p) && (2 * h + 1) * p == 2 * (h * p) + p;
    if h >= m { MulBelow(m, h, p); }
    MulBelow(h, m - 1, p);
    assert (m - 1) * p == m * p - p;
  }

  lemma BitFits(x: Word, k: nat)
    requires k < 64
    ensures Bit(x, k) == 0 ==> x + Pow2(k) < TWO64
    ensures Bit(x, k) == 1 ==> x - Pow2(k) >= 0
  {
    hide Pow2, Bit;
    var h, l := BitParts(x, k);
    Pow2Add(63 - k, k);
    Pow2Next(63);
    Pow2Values();
    BitRange(x, k);
    RoomForBit(h, l, Pow2(k), Pow2(63 - k), Bit(x, k));
  }

  lemma SetBitBit(x: Word, k: nat, j: nat)
    requires k < 64
    ensures Bit(SetBit(x, k), j) == if j == k then 1 else Bit(x, j)
  {
    hide Pow2, Bit;
    var h, l := BitParts(x, k);
    BitRange(x, k);
    BitFits(x, k);
    assert (2 * h + 1) * Pow2(k) == 2 * h * Pow2(k) + Pow2(k);
    ReplacedBit(h, l, k, Bit(x, k), 1, j);
  }

  lemma ClearBitBit(x: Word, k: nat, j: nat)
    requires k < 64
    ensures Bit(ClearBit(x, k), j) == if j == k then 0 else Bit(x, j)
  {
    hide Pow2, Bit;
    var h, l := BitParts(x, k);
    BitRange(x, k);
    BitFits(x, k);
    assert (2 * h + 1) * Pow2(k) == 2 * h * Pow2(k) + Pow2(k);
    ReplacedBit(h, l, k, Bit(x, k), 0, j);
  }
}
