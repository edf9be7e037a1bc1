// What the floating-point instructions, CFROUND and the operand fields mean, for
// every floating-point unit: each operation against the one that undoes it
// (src/vm.cpp).
module VmLaws {
  import opened Words
  import opened Arith
  import opened WordLaws
  import opened Vm

  // ---- the rounding mode ----

  lemma RoundingIs(m: Machine, i: Instr, s: State)
    requires i.op == CFROUND
    ensures Exec(m, i, s) == s.(rounding := Ror(s.r[i.src], i.imm % 64) % 4)
  {
    hide Ror, LoadInt, LoadPair, Lift2;
  }

  lemma LowTwoBits(v: Word, k: nat)
    requires k < 64
    ensures Ror(v, k) % 4 == Bit(v, k) + 2 * Bit(v, (k + 1) % 64)
  {
    hide Ror, Bit;
    var w := Ror(v, k);
    RorBit(v, k, 0);
    RorBit(v, k, 1);
    BitZero(w);
    BitHalf(w, 0);
    BitZero(w / 2);
    Quarter(w);
    Quarter(k);
  }

  lemma Quarter(w: nat)
    ensures w % 4 == w % 2 + 2 * (w / 2 % 2) && (w < 64 ==> (0 + w) % 64 == w)
  {
  }

  // The mode is two neighbouring bits of the source register.
  lemma RoundingBits(m: Machine, i: Instr, s: State)
    requires i.op == CFROUND
    ensures var v := s.r[i.src];
            Exec(m, i, s) == s.(rounding := Bit(v, i.imm % 64) + 2 * Bit(v, (i.imm + 1) % 64))
  {
    hide Ror, Bit, Exec;
    RoundingIs(m, i, s);
    LowTwoBits(s.r[i.src], i.imm % 64);
    CountMod(1, i.imm, i.imm % 64);
    CountMod(1, i.imm % 64, i.imm % 64);
  }

  // ---- operands ----

  // A loaded word gives its low half to the low lane and its high half to the
  // high lane.
  lemma LoadedLanes(m: Machine, i: Instr, s: State, lo: U32, hi: U32)
    requires s.mem[WordIndex(s.r[i.src], i.imm, LoadLevel(i))] == lo + TWO32 * hi
    ensures LoadPair(m, i, s) == Double2(m.fromInt(lo), m.fromInt(hi))
  {
    hide WordIndex, LoadLevel;
    DivUnique(lo + TWO32 * hi, TWO32, hi, lo);
  }

  // The address is that of an aligned word at (register + immediate) within the
  // level.
  lemma AddressWraps(base: Word, imm: U32, size: nat)
    requires size == L1 || size == L2 || size == L3
    ensures WordIndex(base, imm, size) == (base + imm) % size / 8
    ensures 8 * WordIndex(base, imm, size) == (base + imm) % size - (base + imm) % 8
  {
    AddressMod(base, imm, size, TWO32 / size);
    Aligned(base + imm, size, size / 8);
  }

  lemma Aligned(x: nat, size: int, k: int)
    requires k > 0 && size == k * 8
    ensures 8 * (x % size / 8) == x % size - x % 8
  {
    ModMod(x, size, k, 8);
    var y := x % size;
    assert y == y / 8 * 8 + y % 8;
  }

  // The mode byte is made up of its three fields.
  lemma ModeFields(i: Instr)
    ensures i.mod == i.ModMem() + 4 * i.ModShift() + 16 * i.ModCond()
    ensures i.ModMem() < 4 && i.ModShift() < 4 && i.ModCond() < 16
  {
  }

  lemma TopAddress(imm: int, size: int, n: int, k: int)
    requires size > 8 && k > 0 && n == k * size
    ensures n > 0 && ((size - 8 - imm) % n + imm) % size == size - 8
  {
    var b := (size - 8 - imm) % n;
    ModMod(size - 8 - imm, n, k, size);
    AddMod(b, imm, size);
    AddMod(size - 8 - imm, imm, size);
    DivUnique(size - 8, size, 0, size - 8);
  }

  lemma ReachesTop(imm: U32, size: nat)
    requires size == L1 || size == L2 || size == L3
    ensures WordIndex((size - 8 - imm) % TWO64, imm, size) == size / 8 - 1
  {
    hide WordIndex;
    TopAddress(imm, size, TWO64, TWO64 / size);
    AddressWraps((size - 8 - imm) % TWO64, imm, size);
  }

  // Loads with a memory mode stay in the first level and reach all of it; the
  // others do the same in the second. Stores do as loads do, except that the two
  // highest conditions reach the whole scratchpad.
  lemma Levels(i: Instr, size: nat)
    requires size == L1 || size == L2 || size == L3
    ensures (forall b: Word :: WordIndex(b, i.imm, LoadLevel(i)) < size / 8) <==> i.ModMem() != 0 || size != L1
    ensures (forall b: Word :: WordIndex(b, i.imm, StoreLevel(i)) < size / 8)
            <==> size == L3 || (i.ModCond() < 14 && (i.ModMem() != 0 || size == L2))
  {
    hide WordIndex;
    ReachesTop(i.imm, LoadLevel(i));
    ReachesTop(i.imm, StoreLevel(i));
    forall b: Word ensures WordIndex(b, i.imm, LoadLevel(i)) < LoadLevel(i) / 8 { Within(b, i.imm, LoadLevel(i)); }
    forall b: Word ensures WordIndex(b, i.imm, StoreLevel(i)) < StoreLevel(i) / 8 { Within(b, i.imm, StoreLevel(i)); }
  }

  lemma Within(b: Word, imm: U32, size: nat)
    requires size == L1 || size == L2 || size == L3
    ensures WordIndex(b, imm, size) < size / 8
  {
  }

  // ---- operations that undo one another ----

  // f takes back what g did with the same second operand.
  ghost predicate Undoes(f: (nat, Word, Word) -> Word, g: (nat, Word, Word) -> Word) {
    forall mode: nat, x: Word, y: Word :: f(mode, g(mode, x, y), y) == x
  }

  // The second operand of a floating-point instruction.
  function Operand(m: Machine, i: Instr, s: State): Double2 {
    match i.op
    case FADD_M | FSUB_M => LoadPair(m, i, s)
    case FDIV_M =>
      Double2(m.mask(LoadPair(m, i, s).lo, m.eMaskLo), m.mask(LoadPair(m, i, s).hi, m.eMaskHi))
    case _ => m.a[i.src % 4]
  }

  lemma LiftUndoes(f: (nat, Word, Word) -> Word, g: (nat, Word, Word) -> Word, mode: nat, x: Double2, y: Double2)
    requires Undoes(f, g)
    ensures Lift2(f, mode, Lift2(g, mode, x, y), y) == x
  {
    assert f(mode, g(mode, x.lo, y.lo), y.lo) == x.lo && f(mode, g(mode, x.hi, y.hi), y.hi) == x.hi;
  }

  // Adding restores a register from which the operand was subtracted.
  lemma AddRestores(m: Machine, i: Instr, s: State)
    requires (i.op == FADD_R || i.op == FADD_M) && Undoes(m.add, m.sub)
    ensures var d := i.dst % 4;
            Exec(m, i, SetF(s, d, Lift2(m.sub, s.rounding, s.f[d], Operand(m, i, s)))) == s
  {
    hide LoadInt, Lift2, Undoes, WordIndex;
    var d := i.dst % 4;
    LiftUndoes(m.add, m.sub, s.rounding, s.f[d], Operand(m, i, s));
    assert s.f[d := s.f[d]] == s.f;
  }

  // Subtracting and then adding the same operand changes nothing.
  lemma SubThenAdd(m: Machine, i: Instr, s: State)
    requires (i.op == FSUB_R || i.op == FSUB_M) && Undoes(m.add, m.sub)
    ensures Exec(m, i.(op := if i.op == FSUB_R then FADD_R else FADD_M), Exec(m, i, s)) == s
  {
    hide LoadInt, Lift2, Undoes, WordIndex;
    var d := i.dst % 4;
    LiftUndoes(m.add, m.sub, s.rounding, s.f[d], Operand(m, i, s));
    assert s.f[d := s.f[d]] == s.f;
  }

  // Dividing by the masked operand restores a register multiplied by it.
  lemma DivRestores(m: Machine, i: Instr, s: State)
    requires i.op == FDIV_M && Undoes(m.div, m.mul)
    ensures var d := i.dst % 4;
            Exec(m, i, SetE(s, d, Lift2(m.mul, s.rounding, s.e[d], Operand(m, i, s)))) == s
  {
    hide LoadInt, Lift2, Undoes, WordIndex;
    var d := i.dst % 4;
    LiftUndoes(m.div, m.mul, s.rounding, s.e[d], Operand(m, i, s));
    assert s.e[d := s.e[d]] == s.e;
  }

  // Multiplying restores a register divided by the operand.
  lemma MulRestores(m: Machine, i: Instr, s: State)
    requires i.op == FMUL_R && Undoes(m.mul, m.div)
    ensures var d := i.dst % 4;
            Exec(m, i, SetE(s, d, Lift2(m.div, s.rounding, s.e[d], Operand(m, i, s)))) == s
  {
    hide LoadInt, Lift2, Undoes, WordIndex;
    var d := i.dst % 4;
    LiftUndoes(m.mul, m.div, s.rounding, s.e[d], Operand(m, i, s));
    assert s.e[d := s.e[d]] == s.e;
  }

  // The square root restores a squared register.
  lemma SqrtRestores(m: Machine, i: Instr, s: State)
    requires i.op == FSQRT_R && forall mode: nat, x: Word :: m.sqrt(mode, m.mul(mode, x, x)) == x
    ensures var d := i.dst % 4;
            Exec(m, i, SetE(s, d, Lift2(m.mul, s.rounding, s.e[d], s.e[d]))) == s
  {
    hide LoadInt, LoadPair, WordIndex;
    var d := i.dst % 4;
    assert m.sqrt(s.rounding, m.mul(s.rounding, s.e[d].lo, s.e[d].lo)) == s.e[d].lo;
    assert m.sqrt(s.rounding, m.mul(s.rounding, s.e[d].hi, s.e[d].hi)) == s.e[d].hi;
    assert s.e[d := s.e[d]] == s.e;
  }

  // ---- exchanges and scaling ----

  // The eight registers FSWAP_R addresses: f0 to f3, then e0 to e3.
  function FloatReg(s: State, r: Reg): Double2 { if r < 4 then s.f[r] else s.e[r - 4] }

  // The lanes of the destination change places; done twice, nothing changed.
  lemma SwapLanes(m: Machine, i: Instr, s: State)
    requires i.op == FSWAP_R
    ensures forall r: Reg ::
              FloatReg(Exec(m, i, s), r) ==
              (if r == i.dst then Double2(FloatReg(s, r).hi, FloatReg(s, r).lo) else FloatReg(s, r))
    ensures Exec(m, i, Exec(m, i, s)) == s
  {
    hide LoadInt, LoadPair, Lift2;
    if i.dst < 4 {
      assert s.f[i.dst := s.f[i.dst]] == s.f;
    } else {
      assert s.e[i.dst - 4 := s.e[i.dst - 4]] == s.e;
    }
  }

  // FSCAL_R flips the sign and the four low exponent bits of both lanes.
  predicate Scaled(k: nat) { k == 63 || 52 <= k <= 55 }

  lemma {:induction false} ScaleBits(k: nat)
    requires k < 64
    ensures Bit(SCALE, k) == if Scaled(k) then 1 else 0
  {
    hide Bit;
    ScaleParts();
    var top := 0x80F;
    BitOfParts(top, 0, 52, k);
    if k < 52 { ZeroBit(k); } else { TopBits(k - 52); }
  }

  lemma ScaleParts()
    ensures Pow2(52) >= 1 && SCALE == 0x80F * Pow2(52)
  {
    Pow2Values();
    Pow2Add(32, 16);
    assert Pow2(4) == 16;
    Pow2Add(48, 4);
  }

  lemma TopBits(j: nat)
    requires j < 12
    ensures Bit(0x80F, j) == if j == 11 || j <= 3 then 1 else 0
  {
    assert Pow2(0) == 1 && Pow2(1) == 2 && Pow2(2) == 4 && Pow2(3) == 8 && Pow2(4) == 16 && Pow2(5) == 32;
    assert Pow2(6) == 64 && Pow2(7) == 128 && Pow2(8) == 256;
    Pow2Next(8);
    Pow2Next(9);
    Pow2Next(10);
  }

  lemma ScaleFlips(m: Machine, i: Instr, s: State, k: nat)
    requires i.op == FSCAL_R && k < 64
    ensures var d, t := i.dst % 4, Exec(m, i, s);
            && t == SetF(s, d, t.f[d])
            && Bit(t.f[d].lo, k) == (if Scaled(k) then 1 - Bit(s.f[d].lo, k) else Bit(s.f[d].lo, k))
            && Bit(t.f[d].hi, k) == (if Scaled(k) then 1 - Bit(s.f[d].hi, k) else Bit(s.f[d].hi, k))
  {
    hide Bit, Xor, LoadInt, LoadPair, Lift2;
    var x := s.f[i.dst % 4];
    ScaleBits(k);
    XorBit(x.lo, SCALE, k);
    XorBit(x.hi, SCALE, k);
    BitRange(x.lo, k);
    BitRange(x.hi, k);
  }

  // Scaling twice changes nothing.
  lemma ScaleTwice(m: Machine, i: Instr, s: State)
    requires i.op == FSCAL_R
    ensures Exec(m, i, Exec(m, i, s)) == s
  {
    hide Xor;
    var q := s.f[i.dst % 4];
    XorBack(q.lo, SCALE);
    XorBack(q.hi, SCALE);
  }

  // ---- branches ----

  // The immediate a branch adds is the instruction's, with one bit set and the
  // one below it cleared.
  lemma BranchImmBits(i: Instr, j: nat)
    requires j < 64
    ensures Bit(BranchImm(i), j) ==
            if j == i.ModCond() + 8 then 1 else if j == i.ModCond() + 7 then 0 else Bit(SignExtend(i.imm), j)
  {
    hide Bit, SetBit, ClearBit, SignExtend;
    SetBitBit(SignExtend(i.imm), BranchShift(i), j);
    ClearBitBit(SetBit(SignExtend(i.imm), BranchShift(i)), BranchShift(i) - 1, j);
  }

  // A branch is taken exactly when eight bits of the sum are zero.
  lemma {:induction false} TakenBits(i: Instr, sum: Word)
    ensures Taken(i, sum) <==> forall j :: i.ModCond() + 8 <= j < i.ModCond() + 16 ==> Bit(sum, j) == 0
  {
    hide Bit, Pow2;
    var k := BranchShift(i);
    var v := sum / Pow2(k) % 256;
    Pow2Values();
    DivBounds(sum, Pow2(k));
    forall j | 0 <= j < 8 ensures Bit(v, j) == Bit(sum, j + k) {
      BitBelow(sum / Pow2(k), 8, j);
      BitAbove(sum, k, j);
    }
    ZeroByte(v);
    forall j | k <= j < k + 8 ensures Bit(sum, j) == Bit(v, j - k) { assert Bit(v, j - k) == Bit(sum, j - k + k); }
  }

  // A byte is zero exactly when its eight bits are.
  lemma ZeroByte(v: nat)
    requires v < 256
    ensures v == 0 <==> forall j :: 0 <= j < 8 ==> Bit(v, j) == 0
  {
    hide Bit;
    if v == 0 {
      forall j | 0 <= j < 8 ensures Bit(v, j) == 0 { ZeroBit(j); }
    } else if forall j :: 0 <= j < 8 ==> Bit(v, j) == 0 {
      SmallZero(v, 8);
    }
  }

  lemma {:induction false} SmallZero(v: nat, n: nat)
    requires v < Pow2(n) && forall j :: 0 <= j < n ==> Bit(v, j) == 0
    ensures v == 0
  {
    hide Bit;
    if n > 0 {
      BitZero(v);
      forall j | 0 <= j < n - 1 ensures Bit(v / 2, j) == 0 { BitHalf(v, j); }
      SmallZero(v / 2, n - 1);
    }
  }
}
