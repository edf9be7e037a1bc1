// The code of one main-program instruction in place: what running it from its
// first word does to the machine (src/jit_compiler_a64.cpp).
module JitSlots {
  import opened Words
  import opened Arith
  import opened Bits
  import opened Reciprocal
  import opened A64
  import opened Vm
  import opened JitOperands
  import opened JitInteger
  import opened JitMachine

  ghost predicate Represents(c: Core, s: State) {
    Shows(c.cpu, s) && c.fpu == Fpu(s.f, s.e, s.rounding)
  }

  // ---- reciprocal literals ----

  const LITERALS_END: nat := 12432   // word index of the end of the literal area
  const LITERAL_REGS: nat := 12

  // The registers the first literals are loaded into.
  function LiteralReg(id: nat): RegNo
    requires id < LITERAL_REGS
  {
    if id < 10 then 30 - id else if id == 10 then 11 else 0
  }

  // From the lowest address upwards they are x0, x11 and x21 to x30.
  lemma LiteralRegsAscend(id: nat, next: nat)
    requires id < next < LITERAL_REGS
    ensures LiteralReg(next) < LiteralReg(id) && LiteralAt(next) < LiteralAt(id)
    ensures LiteralReg(id) == 0 || LiteralReg(id) == 11 || 21 <= LiteralReg(id) <= 30
  {
  }

  // Literals are handed out downwards, two words each.
  function LiteralAt(id: nat): int { LITERALS_END - 2 * (id + 1) }

  ghost predicate KeepsLiterals(c: Cpu, y: Cpu) {
    y.lanes == c.lanes && forall id: nat :: id < LITERAL_REGS ==> y.x[LiteralReg(id)] == c.x[LiteralReg(id)]
  }

  lemma UndisturbedLiterals(c: Cpu, y: Cpu)
    requires Undisturbed(c, y)
    ensures KeepsLiterals(c, y)
  {
    forall id: nat | id < LITERAL_REGS ensures y.x[LiteralReg(id)] == c.x[LiteralReg(id)] {
      assert !HoldsVm(LiteralReg(id)) && LiteralReg(id) != TMP;
    }
  }

  // The literals stand in the code, and the first twelve also in their registers.
  ghost predicate LiteralsIn(code: seq<U32>, c: Cpu, rcps: seq<Word>) {
    && (forall id: nat :: id < |rcps| ==>
          0 <= LiteralAt(id) && LiteralAt(id) + 1 < |code|
          && code[LiteralAt(id)] + TWO32 * code[LiteralAt(id) + 1] == rcps[id])
    && (forall id: nat :: id < |rcps| && id < LITERAL_REGS ==> c.x[LiteralReg(id)] == rcps[id])
  }

  function RcpWords(d: RegNo, pos: int, id: nat): (ws: seq<U32>)
    ensures 0 < |ws| <= 2
  {
    if id < LITERAL_REGS then [Op3(MUL, d, d, 0, LiteralReg(id))]
    else [LoadLiteral(TMP, (LiteralAt(id) - pos) % 0x8_0000), Op3(MUL, d, d, 0, TMP)]
  }

  // n steps lead from c to word index pc, in virtual-machine state s.
  ghost predicate Reaches(unit: VectorUnit, code: seq<U32>, c: Core, n: nat, pc: int, s: State) {
    var y := CoreN(unit, code, n, c);
    y.pc == pc && Represents(y, s) && KeepsLiterals(c.cpu, y.cpu)
  }

  lemma LiteralLoads(unit: VectorUnit, code: seq<U32>, c: Core, at: int)
    requires 0 <= c.pc < at && at + 1 < |code| && at - c.pc < 0x4_0000
    requires code[c.pc] == LoadLiteral(TMP, (at - c.pc) % 0x8_0000)
    ensures var v := code[at] + TWO32 * code[at + 1];
            CoreStep(unit, code, c) == c.(pc := c.pc + 1, cpu := c.cpu.(x := c.cpu.x[TMP := v]))
  {
    hide LoadLiteral, Top;
    var w, o := code[c.pc], at - c.pc;
    assert o % 0x8_0000 == o;
    FieldAt(0x58 * 0x8_0000 + o, TMP, 32);
    FieldAt(0x58, o, 0x8_0000);
    LiteralTop(TMP, o);
  }

  lemma LiteralTop(d: RegNo, offset: nat)
    requires offset < 0x8_0000
    ensures Top(LoadLiteral(d, offset)) / 8 == 0x58
  {
    hide LoadLiteral, Top;
    var t := offset / 0x1_0000;
    TopIs(LoadLiteral(d, offset), 0x2C0 + t, offset % 0x1_0000 * 0x20 + d);
  }

  lemma ExecRcp(m: Machine, i: Instr, s: State)
    requires i.op == IMUL_RCP && !ZeroOrPowerOfTwo(i.imm)
    ensures Exec(m, i, s) == SetInt(s, i.dst, Mul(s.r[i.dst], RandomxReciprocal(i.imm)))
  {
    hide LoadInt, LoadPair, Lift2, Mul, RandomxReciprocal, ZeroOrPowerOfTwo;
  }

  // A multiply, by a register or after a literal load.
  lemma MultiplyAt(unit: VectorUnit, code: seq<U32>, c: Core, y: Core, r: Reg, k: RegNo, s: State, v: Word)
    requires Represents(c, s) && k < 31 && Wrote(c.cpu, y.cpu, TMP, y.cpu.x[TMP]) && y.fpu == c.fpu
    requires y.cpu.x[k] == v && Placed(code, y.pc, [Op3(MUL, X(r), X(r), 0, k)])
    ensures Reaches(unit, code, y, 1, y.pc + 1, SetInt(s, r, Mul(s.r[r], v)))
  {
    hide CoreN, Perform, Op3, Mul, Known;
    var w := Op3(MUL, X(r), X(r), 0, k);
    KnownOp3(MUL, X(r), X(r), 0, k);
    PerformRuns(unit, code, [w], y);
    OneOp(y.cpu, MUL, X(r), X(r), 0, k);
    assert Shows(y.cpu, s) by {
      forall q: Reg ensures y.cpu.x[X(q)] == s.r[q] { assert X(q) != TMP; }
    }
    WroteShows(y.cpu, Perform(y.cpu, [w]), s, r, Mul(s.r[r], v));
    UndisturbedLiterals(y.cpu, Perform(y.cpu, [w]));
  }

  lemma RcpSlot(unit: VectorUnit, code: seq<U32>, c: Core, m: Machine, i: Instr, s: State, rcps: seq<Word>, id: nat)
    requires i.op == IMUL_RCP && !ZeroOrPowerOfTwo(i.imm) && Represents(c, s) && LiteralsIn(code, c.cpu, rcps)
    requires id < |rcps| && rcps[id] == RandomxReciprocal(i.imm)
    requires 0 <= c.pc < LiteralAt(id) && Placed(code, c.pc, RcpWords(X(i.dst), c.pc, id))
    ensures var n := |RcpWords(X(i.dst), c.pc, id)|; Reaches(unit, code, c, n, c.pc + n, Exec(m, i, s))
  {
    hide CoreN, Exec, Op3, LoadLiteral, RandomxReciprocal, Mul, ZeroOrPowerOfTwo;
    ExecRcp(m, i, s);
    var d, v := X(i.dst), rcps[id];
    if id < LITERAL_REGS {
      MultiplyAt(unit, code, c, c, i.dst, LiteralReg(id), s, v);
    } else {
      var at := LiteralAt(id);
      PlacedParts(code, c.pc, [LoadLiteral(TMP, (at - c.pc) % 0x8_0000)], [Op3(MUL, d, d, 0, TMP)]);
      assert RcpWords(d, c.pc, id) == [LoadLiteral(TMP, (at - c.pc) % 0x8_0000)] + [Op3(MUL, d, d, 0, TMP)];
      assert code[c.pc] == code[c.pc..c.pc + 1][0];
      LiteralLoads(unit, code, c, at);
      CoreOne(unit, code, c);
      var y := CoreN(unit, code, 1, c);
      MultiplyAt(unit, code, c, y, i.dst, TMP, s, v);
      CoreAdd(unit, code, 1, 1, c);
    }
  }

  // ---- the other integer instructions ----

  lemma ExecKeepsFloats(m: Machine, i: Instr, s: State)
    requires IsInteger(i)
    ensures var t := Exec(m, i, s); t.f == s.f && t.e == s.e && t.rounding == s.rounding
  {
    hide Add, Sub, Mul, MulHigh, SignedMulHigh, Neg, Xor, Ror, Rol, Shl, SignExtend, LoadInt, LoadPair, Lift2, Source;
  }

  lemma IntegerSlot(unit: VectorUnit, code: seq<U32>, c: Core, m: Machine, i: Instr, s: State, pool: seq<U32>)
    requires IsInteger(i) && Represents(c, s) && |pool| <= 64 && IntWords(i, pool).pool <= c.cpu.lanes
    requires Placed(code, c.pc, IntWords(i, pool).words)
    ensures var n := |IntWords(i, pool).words|; Reaches(unit, code, c, n, c.pc + n, Exec(m, i, s))
  {
    hide CoreN, Exec, Perform, IntWords, Known;
    var ws := IntWords(i, pool).words;
    KnownInteger(i, pool);
    PerformRuns(unit, code, ws, c);
    IntegerAgrees(m, c.cpu, i, s, pool);
    ExecKeepsFloats(m, i, s);
    UndisturbedLiterals(c.cpu, Perform(c.cpu, ws));
  }

  // ---- the branch ----

  const TST: U32 := 0xF278_1C1F
  const B_NE_2: U32 := 0x5400_0041

  lemma OrTest(shift: nat, d: RegNo)
    requires shift < 16
    ensures Or(TST - 0x1_0000 * shift, 0x20 * d) == TST - 0x1_0000 * shift + 0x20 * d
  {
    hide Or;
    FieldSizes();
    var w := TST - 0x1_0000 * shift;
    assert w == (0xF278 - shift) * 0x1_0000 + 0x1C1F;
    OrAt(w, d, 5, 0x20, 5, 0x20);
  }

  function TestWord(i: Instr): (w: U32)
    ensures w == TST - 0x1_0000 * i.ModCond() + 0x20 * X(i.dst)
  {
    OrTest(i.ModCond(), X(i.dst));
    Or(TST - 0x1_0000 * i.ModCond(), 0x20 * X(i.dst))
  }

  lemma TestDecodes(i: Instr)
    ensures ControlOf(TestWord(i)) == TestByte(X(i.dst), BranchShift(i))
  {
    hide TestWord;
    Fields(TestWord(i), 0x793, 24 - i.ModCond(), 7, X(i.dst), 31);
    TestFields(TestWord(i));
  }

  lemma TestFields(w: U32)
    ensures w / 0x400 % 64 == w / 32 / 32 % 64 && w / 0x1_0000 % 32 == w / 32 / 32 / 64 % 32
  {
    ModSplit(w, 32, 32);
    ModSplit(w, 64, 0x400);
  }

  lemma SkipDecodes()
    ensures ControlOf(B_NE_2) == SkipUnlessZero(2)
  {
  }

  lemma GoToDecodes(offset: int)
    requires -0x200_0000 <= offset < 0x200_0000
    ensures ControlOf(Branch(offset % 0x400_0000)) == GoTo(offset)
  {
    hide Branch, Top;
    var x := offset % 0x400_0000;
    var w := Branch(x);
    FieldAt(5, x, 0x400_0000);
    TopIs(w, 0xA0 + x / 0x20_0000, x % 0x20_0000);
  }

  // add, tst, b.ne over the jump, b back to the target.
  function BranchWords(i: Instr, pos: int, target: int, pool: seq<U32>): Emitted {
    var d := X(i.dst);
    BranchImmAgrees(i);
    var e := AddImmediate(d, d, BranchImm32(i), TMP, pool);
    var at := pos + |e.words| + 2;
    Emitted(e.words + [TestWord(i), B_NE_2, Branch((target - at) % 0x400_0000)], e.pool)
  }

  // The three words after the addition.
  lemma TestAndJump(unit: VectorUnit, code: seq<U32>, c: Core, i: Instr, target: int) returns (n: nat)
    requires -0x200_0000 <= target - (c.pc + 2) < 0x200_0000
    requires Placed(code, c.pc, [TestWord(i), B_NE_2, Branch((target - (c.pc + 2)) % 0x400_0000)])
    ensures var taken := Taken(i, c.cpu.x[X(i.dst)]);
            CoreN(unit, code, n, c) == c.(pc := if taken then target else c.pc + 3, zero := taken)
  {
    hide CoreN, ControlOf, TestWord, Branch;
    var p, taken := c.pc, Taken(i, c.cpu.x[X(i.dst)]);
    var ws := [TestWord(i), B_NE_2, Branch((target - (p + 2)) % 0x400_0000)];
    assert code[p] == code[p..p + 3][0] && code[p + 1] == code[p..p + 3][1] && code[p + 2] == code[p..p + 3][2];
    TestDecodes(i);
    SkipDecodes();
    GoToDecodes(target - (p + 2));
    var y := c.(pc := p + 1, zero := taken);
    CoreOne(unit, code, c);
    CoreOne(unit, code, y);
    CoreAdd(unit, code, 1, 1, c);
    if taken {
      var z := y.(pc := p + 2);
      CoreOne(unit, code, z);
      CoreAdd(unit, code, 2, 1, c);
    }
    n := if taken then 3 else 2;
  }

  lemma BranchAdds(c: Core, i: Instr, s: State, pool: seq<U32>)
    requires i.op == CBRANCH && Represents(c, s) && |pool| <= 64
    requires BranchWords(i, 0, 0, pool).pool <= c.cpu.lanes
    ensures BranchImm32(i) < TWO32
    ensures var e := AddImmediate(X(i.dst), X(i.dst), BranchImm32(i), TMP, pool);
            var y := Perform(c.cpu, e.words);
            Extends(e, pool) && AllKnown(e.words) && Shows(y, BranchAdd(i, s)) && Undisturbed(c.cpu, y)
  {
    hide Perform, AddImmediate, Add, SignExtend, BranchImm, BranchImm32, Known;
    var d := X(i.dst);
    BranchImmAgrees(i);
    var e := AddImmediate(d, d, BranchImm32(i), TMP, pool);
    KnownAddImmediate(d, d, BranchImm32(i), TMP, pool);
    AddImmediateCorrect(c.cpu, d, d, BranchImm32(i), TMP, pool);
    WroteShows(c.cpu, Perform(c.cpu, e.words), s, i.dst, Add(s.r[i.dst], BranchImm(i)));
  }

  lemma BranchSlot(unit: VectorUnit, code: seq<U32>, c: Core, i: Instr, s: State, target: int, pool: seq<U32>)
    returns (n: nat)
    requires i.op == CBRANCH && Represents(c, s) && |pool| <= 64 && 0 <= target <= c.pc < 0x100_0000
    requires BranchWords(i, c.pc, target, pool).pool <= c.cpu.lanes
    requires Placed(code, c.pc, BranchWords(i, c.pc, target, pool).words)
    ensures var s1 := BranchAdd(i, s);
            var next := if Taken(i, s1.r[i.dst]) then target else c.pc + |BranchWords(i, c.pc, target, pool).words|;
            Reaches(unit, code, c, n, next, s1)
  {
    hide CoreN, Perform, AddImmediate, BranchImm, BranchImm32, Known, Taken, TestWord, Branch;
    BranchAdds(c, i, s, pool);
    var e := AddImmediate(X(i.dst), X(i.dst), BranchImm32(i), TMP, pool);
    var rest := [TestWord(i), B_NE_2, Branch((target - (c.pc + |e.words| + 2)) % 0x400_0000)];
    PlacedParts(code, c.pc, e.words, rest);
    PerformRuns(unit, code, e.words, c);
    var y := CoreN(unit, code, |e.words|, c);
    ShortAddImmediate(X(i.dst), BranchImm32(i), pool);
    var k := TestAndJump(unit, code, y, i, target);
    n := |e.words| + k;
    CoreAdd(unit, code, |e.words|, k, c);
    UndisturbedLiterals(c.cpu, y.cpu);
  }

  lemma ShortAddImmediate(d: RegNo, imm: U32, pool: seq<U32>)
    ensures 0 < |AddImmediate(d, d, imm, TMP, pool).words| <= 3
  {
  }
}
