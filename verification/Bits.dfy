// Bitwise or on numbers, and when it is the same as adding.
module Bits {
  import opened Words
  import opened Arith

  function Or(a: nat, b: nat): nat
    decreases a + b
  {
    if a == 0 && b == 0 then 0
    else 2 * Or(a / 2, b / 2) + if a % 2 == 1 || b % 2 == 1 then 1 else 0
  }

  lemma {:induction false} OrZero(a: nat)
    ensures Or(a, 0) == a
  {
    if a > 0 { OrZero(a / 2); }
  }

  lemma HalfRemainder(a: nat, p: int)
    requires p > 0
    ensures a % (2 * p) == 2 * (a / 2 % p) + a % 2 && a / (2 * p) == a / 2 / p
  {
    ModSplit(a, p, 2);
    assert p * 2 == 2 * p;
  }

  // x fills the w low bits, where a has none set.
  lemma {:induction false} OrLow(a: nat, x: nat, w: nat)
    requires x < Pow2(w) && a % Pow2(w) == 0
    ensures Or(a, x) == a + x
    decreases w
  {
    if w == 0 {
      OrZero(a);
    } else {
      HalfRemainder(a, Pow2(w - 1));
      OrLow(a / 2, x / 2, w - 1);
    }
  }

  lemma HalfShifted(x: nat, p: int)
    requires p > 0
    ensures x * (2 * p) == 2 * (x * p) && x * (2 * p) / 2 == x * p && x * (2 * p) % 2 == 0
  {
    DivUnique(x * (2 * p), 2, x * p, 0);
  }

  lemma OrEven(a: nat, y: nat)
    ensures Or(a, 2 * y) == 2 * Or(a / 2, y) + a % 2
  {
    DivUnique(2 * y, 2, y, 0);
  }

  lemma Pow2Zero()
    ensures Pow2(0) == 1
  {
  }

  lemma Doubled(k: nat)
    requires k > 0
    ensures Pow2(k) == 2 * Pow2(k - 1) > 0
  {
  }

  // x, shifted by k, fills w bits where a has none set.
  lemma {:induction false} OrField(a: nat, x: nat, k: nat, w: nat)
    requires x < Pow2(w) && a / Pow2(k) % Pow2(w) == 0
    ensures x * Pow2(k) >= 0 && Or(a, x * Pow2(k)) == a + x * Pow2(k)
    decreases k
  {
    hide Or, Pow2;
    if k == 0 {
      assert Pow2(k) == 1 by { Pow2Zero(); }
      OrLow(a, x, w);
    } else {
      var p := Pow2(k - 1);
      Doubled(k);
      MulBelow(0, x, p);
      HalfRemainder(a, p);
      HalfShifted(x, p);
      OrEven(a, x * p);
      OrField(a / 2, x, k - 1, w);
    }
  }

  lemma FieldSizes()
    ensures Pow2(1) == 2 && Pow2(2) == 4 && Pow2(4) == 0x10 && Pow2(5) == 0x20 && Pow2(6) == 0x40 && Pow2(10) == 0x400
    ensures Pow2(12) == 0x1000 && Pow2(16) == 0x1_0000 && Pow2(19) == 0x8_0000 && Pow2(21) == 0x20_0000
    ensures Pow2(26) == 0x400_0000
  {
    assert Pow2(5) == 0x20;
    Pow2Add(5, 5);
    Pow2Add(10, 2);
    Pow2Add(10, 6);
    Pow2Add(16, 3);
    Pow2Add(16, 5);
    Pow2Add(21, 5);
  }

  // OrField with the powers of two written out.
  lemma OrAt(a: nat, x: nat, k: nat, p: int, w: nat, q: int)
    requires p == Pow2(k) && q == Pow2(w) && x < q && a / p % q == 0
    ensures x * p >= 0 && Or(a, x * p) == a + x * p
  {
    OrField(a, x, k, w);
  }
}
