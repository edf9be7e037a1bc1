// Division and remainder facts the bit-level proofs rest on.
module Arith {
  import opened Words

  lemma MulBelow(a: int, b: int, d: int)
    requires d >= 0 && a <= b
    ensures a * d <= b * d
  {
  }

  lemma DivUnique(x: int, d: int, q: int, r: int)
    requires d > 0 && x == q * d + r && 0 <= r < d
    ensures x / d == q && x % d == r
  {
    var q', r' := x / d, x % d;
    assert x == q' * d + r';
    if q' < q { MulBelow(q' + 1, q, d); }
    if q' > q { MulBelow(q + 1, q', d); }
  }

  lemma DivBounds(x: nat, d: int)
    requires d > 0
    ensures 0 <= x / d <= x
  {
    if x / d > x { MulBelow(x + 1, x / d, d); MulBelow(1, d, x + 1); }
  }

  // A remainder by n * p splits into a quotient digit and a remainder by p.
  lemma ModSplit(x: nat, n: int, p: int)
    requires n > 0 && p > 0
    ensures n * p > 0 && x % (n * p) == (x / p % n) * p + x % p
    ensures x / (n * p) == x / p / n
  {
    var h, b, a := x / p / n, x / p % n, x % p;
    calc {
      x;
      (x / p) * p + a;
      (h * n + b) * p + a;
      h * (n * p) + (b * p + a);
    }
    MulBelow(b, n - 1, p);
    MulBelow(0, b, p);
    DivUnique(x, n * p, h, b * p + a);
  }

  // Reducing first by a multiple of d changes nothing mod d.
  lemma ModMod(x: int, n: int, k: int, d: int)
    requires k > 0 && d > 0 && n == k * d
    ensures n > 0 && x % n % d == x % d
  {
    MulBelow(1, k, d);
    var h, r := x / n, x % n;
    assert x == h * n + r;
    assert h * n == (h * k) * d;
    assert x == (h * k + r / d) * d + r % d;
    DivUnique(x, d, h * k + r / d, r % d);
  }

  lemma Pow2Values()
    ensures Pow2(8) == 256 && Pow2(16) == 0x1_0000 && Pow2(32) == TWO32 && Pow2(64) == TWO64
  {
    assert Pow2(8) == 256;
    Pow2Add(8, 8);
    Pow2Add(16, 16);
    Pow2Add(32, 32);
  }

  lemma Pow2At(k: nat)
    requires k <= 64
    ensures Pow2(64 - k) * Pow2(k) == TWO64
  {
    Pow2Add(64 - k, k);
    Pow2Values();
  }

  lemma WrapModFor(x: int, n: int, k: nat)
    requires k <= 64 && n == TWO64
    ensures n > 0 && x % n % Pow2(k) == x % Pow2(k)
  {
    Pow2At(k);
    ModMod(x, n, Pow2(64 - k), Pow2(k));
  }

  // Wrapping at 64 bits does not touch the low k bits.
  lemma WrapMod(x: int, k: nat)
    requires k <= 64
    ensures x % TWO64 % Pow2(k) == x % Pow2(k)
  {
    WrapModFor(x, TWO64, k);
  }

  lemma AddMod(a: int, b: int, n: int)
    requires n > 0
    ensures (a + b) % n == (a % n + b % n) % n
  {
    var x, q := a % n + b % n, a / n + b / n;
    assert a + b == q * n + x;
    assert x == (x / n) * n + x % n;
    assert a + b == (q + x / n) * n + x % n;
    DivUnique(a + b, n, q + x / n, x % n);
  }

  lemma Pow2Next(k: nat)
    ensures Pow2(k + 1) == 2 * Pow2(k)
  {
  }

  // Wrapping at 32 bits or at 64 does not matter modulo a divisor of 2^32.
  lemma AddressMod(x: int, imm: int, size: int, k: int)
    requires size > 0 && k > 0 && k * size == TWO32
    ensures (x % TWO32 + imm) % TWO32 % size == (x + imm) % size == (x + imm % size) % TWO64 % size
  {
    ModMod(x % TWO32 + imm, TWO32, k, size);
    AddMod(x % TWO32, imm, size);
    ModMod(x, TWO32, k, size);
    AddMod(x, imm, size);
    AddMod(x, imm % size, size);
    ModMod(imm, size, 1, size);
    assert k * TWO32 * size == TWO64;
    ModMod(x + imm % size, TWO64, k * TWO32, size);
  }
}
