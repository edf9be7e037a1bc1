// CBRANCH loops: why no branch is taken three times running.
module BranchArith {
  import opened Words
  import opened Arith
  import opened Vm

  lemma SetDigit(x: nat, p: int)
    requires p > 0
    ensures (if x / p % 2 == 1 then x else x + p) % (2 * p) == p + x % p
  {
    ModSplit(x, 2, p);
    if x / p % 2 == 0 {
      DivUnique(x + p, 2 * p, x / (2 * p), p + x % p);
    }
  }

  lemma ClearDigit(y: nat, q: int)
    requires q > 0 && y % (4 * q) >= 2 * q
    ensures 2 * q <= (if y / q % 2 == 0 then y else y - q) % (4 * q) < 3 * q
  {
    ModSplit(y, 2, q);
    ModSplit(y, 2, 2 * q);
    if y / q % 2 == 1 {
      DivUnique(y - q, 4 * q, y / (4 * q), y % (4 * q) - q);
    }
  }

  // Bit k set and bit k - 1 clear pin the immediate mod 2^(k+1) to a half-open
  // quarter, whatever the encoded value was.
  lemma SetBitRemainder(x: Word, k: nat)
    requires k < 63
    ensures SetBit(x, k) % Pow2(k + 1) == Pow2(k) + x % Pow2(k)
  {
    SetDigit(x, Pow2(k));
    WrapMod(if Bit(x, k) == 1 then x else x + Pow2(k), k + 1);
  }

  lemma ClearBitRemainder(y: Word, k: nat)
    requires 0 < k < 63
    requires y % Pow2(k + 1) >= Pow2(k)
    ensures Pow2(k) <= ClearBit(y, k - 1) % Pow2(k + 1) < Pow2(k) + Pow2(k - 1)
  {
    Pow2Next(k - 1);
    Pow2Next(k);
    ClearDigit(y, Pow2(k - 1));
    WrapMod(if Bit(y, k - 1) == 0 then y else y - Pow2(k - 1), k + 1);
  }

  lemma BranchImmRemainder(i: Instr)
    ensures var k := BranchShift(i);
            Pow2(k) <= BranchImm(i) % Pow2(k + 1) < Pow2(k) + Pow2(k - 1)
  {
    var k := BranchShift(i);
    SetBitRemainder(SignExtend(i.imm), k);
    ClearBitRemainder(SetBit(SignExtend(i.imm), k), k);
  }

  // The arithmetic core, on remainders mod 256 * p: two hits leave so small a
  // remainder that the third sum cannot wrap.
  lemma ThirdMisses(q: int, w: int, u: int)
    requires q > 0
    requires 0 <= w < 512 * q && 2 * q <= w % (4 * q) < 3 * q
    requires 0 <= u < 2 * q
    requires (u + w) % (512 * q) < 2 * q
    ensures ((u + w) % (512 * q) + w) % (512 * q) >= 2 * q
  {
    var n := 512 * q;
    assert w >= 2 * q by { if w < 4 * q { DivUnique(w, 4 * q, 0, w); } }
    if u + w < n {
      DivUnique(u + w, n, 0, u + w);
      assert false;
    }
    DivUnique(u + w, n, 1, u + w - n);
    var h, a := w / (4 * q), w % (4 * q);
    assert w == h * (4 * q) + a;
    assert h <= 127 by { if h >= 128 { MulBelow(128, h, 4 * q); } }
    assert h >= 127 by { if h <= 126 { MulBelow(h, 126, 4 * q); } }
    assert w == n - 4 * q + a;
    DivUnique(u + w - n + w, n, 0, u + w - n + w);
  }

  lemma TakenRemainder(i: Instr, x: Word)
    ensures Taken(i, x) <==> x % (256 * Pow2(BranchShift(i))) < Pow2(BranchShift(i))
  {
    var p := Pow2(BranchShift(i));
    ModSplit(x, 256, p);
    if !Taken(i, x) { MulBelow(1, x / p % 256, p); }
  }

  lemma AddRemainder(a: Word, b: Word, k: nat)
    requires k <= 56
    ensures Add(a, b) % (256 * Pow2(k)) == (a % (256 * Pow2(k)) + b % (256 * Pow2(k))) % (256 * Pow2(k))
  {
    var n := 256 * Pow2(k);
    assert Pow2(8 + k) == n by { Pow2Add(8, k); Pow2Values(); }
    WrapMod(a + b, 8 + k);
    AddMod(a, b, n);
  }

  // The same facts in one unit q, half of the lowest condition bit.
  lemma BranchUnits(i: Instr, x: Word, y: Word)
    ensures var q, imm := Pow2(BranchShift(i) - 1), BranchImm(i);
            var n := 512 * q;
            && (Taken(i, x) <==> x % n < 2 * q)
            && Add(x, y) % n == (x % n + y % n) % n
            && 2 * q <= imm % n % (4 * q) < 3 * q
  {
    hide BranchImm, Taken, Add, Pow2;
    var k := BranchShift(i);
    var q := Pow2(k - 1);
    assert Pow2(k) == 2 * q && Pow2(k + 1) == 4 * q by { Pow2Next(k - 1); Pow2Next(k); }
    assert 256 * Pow2(k) == 512 * q;
    TakenRemainder(i, x);
    AddRemainder(x, y, k);
    BranchImmRemainder(i);
    ModMod(BranchImm(i), 512 * q, 128, 4 * q);
  }

  // Adding the branch immediate three times running cannot hit all three times.
  lemma NeverThrice(i: Instr, v: Word)
    ensures var imm := BranchImm(i);
            var v1 := Add(v, imm);
            !(Taken(i, v1) && Taken(i, Add(v1, imm)) && Taken(i, Add(Add(v1, imm), imm)))
  {
    hide BranchImm, Taken, Add, Pow2;
    var imm, q := BranchImm(i), Pow2(BranchShift(i) - 1);
    var n := 512 * q;
    var v1 := Add(v, imm);
    var v2 := Add(v1, imm);
    BranchUnits(i, v1, imm);
    BranchUnits(i, v2, imm);
    BranchUnits(i, Add(v2, imm), imm);
    if Taken(i, v1) && Taken(i, v2) {
      assert 0 <= imm % n < n && 0 <= v1 % n;
      ThirdMisses(q, imm % n, v1 % n);
    }
  }
}
