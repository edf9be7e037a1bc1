// Immediate operands and scratchpad addresses in the code emitted for the main
// program (src/jit_compiler_a64.cpp), against the interpreter (src/vm.cpp).
module JitOperands {
  import opened Words
  import opened Arith
  import opened Bits
  import opened A64
  import opened Vm

  // ---- a machine for these instructions ----

  // Registers, the scratchpad behind x2, and the 64 literal lanes of v0..v15.
  datatype Cpu = Cpu(x: Regs, mem: Scratchpad, lanes: seq<U32>)

  datatype MemInst =
    | Lane(d: RegNo, lane: nat, signed: bool)
    | Mask(d: RegNo, n: RegNo, ones: nat)          // and d, n, #((2^ones - 1) << 3)
    | Load(d: RegNo, m: RegNo, scaled: bool)        // ldr d, [x2, m] or [x2, m, lsl #3]
    | Store(s: RegNo, m: RegNo)                    // str s, [x2, m]
    | Copy(d: RegNo, m: RegNo)                     // mov d, m
    | Plain(inst: Inst)

  const SMOV: U32 := 0x4E04_2C00
  const UMOV: U32 := 0x0E04_3C00
  const AND_IMM_SHIFT: U32 := 0x927D_0000
  const LDR_64_REG: U32 := 0xF860_6840
  const LDR_64_REG_LSL3: U32 := 0xF860_7840
  const STR_64_REG: U32 := 0xF820_6840
  const MOV_REG: U32 := 0xAA00_03E0

  function DecodeMem(w: U32): MemInst {
    var q1 := w / 32;
    var q2 := q1 / 32;
    var q3 := q2 / 64;
    var top, s := q3 / 32, q2 % 64;
    var d: RegNo, n: RegNo, m: RegNo := w % 32, q1 % 32, q3 % 32;
    // imm5 of smov/umov is xx100: the lane number above the element size
    if top == 0x270 && s == 11 && m % 8 == 4 && n < 16 then Lane(d, 4 * n + m / 8, true)
    else if top == 0x070 && s == 15 && m % 8 == 4 && n < 16 then Lane(d, 4 * n + m / 8, false)
    else if top == 0x493 && m == 29 then Mask(d, n, s + 1)
    else if top == 0x7C3 && s == 26 && n == 2 then Load(d, m, false)
    else if top == 0x7C3 && s == 30 && n == 2 then Load(d, m, true)
    else if top == 0x7C1 && s == 26 && n == 2 then Store(d, m)
    else if top == 0x550 && s == 0 && n == 31 then Copy(d, m)
    else Plain(Decode(w))
  }

  // A scratchpad access at a byte offset; offsets here are multiples of eight.
  function Slot(offset: int): (k: nat)
    ensures k < 0x4_0000
  {
    if 0 <= offset < L3 then offset / 8 else 0
  }

  function Scaled(v: Word, scaled: bool): int { if scaled then 8 * v else v }

  function Step(c: Cpu, w: U32): Cpu {
    match DecodeMem(w)
    case Lane(d, lane, signed) =>
      if lane < |c.lanes| then c.(x := Set(c.x, d, if signed then SignExtend(c.lanes[lane]) else c.lanes[lane])) else c
    case Mask(d, n, ones) => c.(x := Set(c.x, d, Get(c.x, n) / 8 % Pow2(ones) * 8 % TWO64))
    case Load(d, m, scaled) => c.(x := Set(c.x, d, c.mem[Slot(Scaled(Get(c.x, m), scaled))]))
    case Store(s, m) => c.(mem := c.mem[Slot(Get(c.x, m)) := Get(c.x, s)])
    case Copy(d, m) => c.(x := Set(c.x, d, Get(c.x, m)))
    case Plain(inst) => c.(x := Compute(inst, c.x))
  }

  function Perform(c: Cpu, ws: seq<U32>): Cpu
    decreases |ws|
  {
    if ws == [] then c else Perform(Step(c, ws[0]), ws[1..])
  }

  lemma {:induction false} PerformConcat(c: Cpu, a: seq<U32>, b: seq<U32>)
    ensures Perform(c, a + b) == Perform(Perform(c, a), b)
    decreases |a|
  {
    if a == [] {
      assert a + b == b;
    } else {
      assert (a + b)[1..] == a[1..] + b;
      PerformConcat(Step(c, a[0]), a[1..], b);
    }
  }

  // ---- single instructions ----

  lemma PlainWord(w: U32)
    requires Top(w) != 0x270 && Top(w) != 0x070 && Top(w) != 0x493 && Top(w) != 0x7C3 && Top(w) != 0x7C1
    requires Top(w) != 0x550
    ensures DecodeMem(w) == Plain(Decode(w))
  {
    hide Decode;
  }

  lemma Op3Top(op: U32, d: RegNo, n: RegNo, amount: nat, m: RegNo)
    requires IsOp3(op, amount)
    ensures Top(Op3(op, d, n, amount, m)) == op / 0x20_0000
  {
    hide Op3, Or;
    Op3OfOpcode(op, amount);
    var low := op % 0x20_0000 + d + 0x20 * n + 0x400 * amount + 0x1_0000 * m;
    TopIs(Op3(op, d, n, amount, m), op / 0x20_0000, low);
  }

  lemma StepAlu(c: Cpu, op: U32, d: RegNo, n: RegNo, amount: nat, m: RegNo)
    requires IsOp3(op, amount)
    ensures Step(c, Op3(op, d, n, amount, m)) ==
            c.(x := Set(c.x, d, AluValue(op, Get(c.x, n), Get(c.x, m), amount)))
  {
    hide Decode, DecodeMem, Op3, Or, AluValue, Top;
    Op3Top(op, d, n, amount, m);
    PlainWord(Op3(op, d, n, amount, m));
    DecodeOp3(op, d, n, amount, m);
  }

  lemma StepAdd(c: Cpu, d: RegNo, n: RegNo, m: RegNo)
    requires d < 31 && n < 31 && m < 31
    ensures Step(c, Op3(ADD, d, n, 0, m)) == c.(x := c.x[d := Add(c.x[n], c.x[m])])
  {
    hide Step, Op3, AluValue;
    StepAlu(c, ADD, d, n, 0, m);
    PlainAdd(c.x[n], c.x[m]);
  }

  lemma StepMove(c: Cpu, op: U32, d: RegNo, high: bool, imm: Imm16)
    requires op in {MOVZ, MOVN, MOVK} && d < 31
    ensures Step(c, Move(op, d, high, imm)) == c.(x := c.x[d := MoveValue(op, c.x[d], imm, high)])
  {
    hide Decode, DecodeMem, MoveValue, Move, Top;
    MoveTop(op, d, high, imm);
    PlainWord(Move(op, d, high, imm));
    DecodeMove(op, d, high, imm);
  }

  lemma StepAddLow(c: Cpu, d: RegNo, n: RegNo, imm: nat)
    requires d < 31 && n < 31 && imm < 0x1000
    ensures Step(c, AddImm(ADD_IMM_LO, d, n, imm)) == c.(x := c.x[d := (c.x[n] + imm) % TWO64])
    ensures Step(c, AddImm(ADD_IMM_HI, d, n, imm)) == c.(x := c.x[d := (c.x[n] + imm * 0x1000) % TWO64])
  {
    hide Decode, DecodeMem, AddImm, Top;
    AddImmTop(ADD_IMM_LO, d, n, imm);
    AddImmTop(ADD_IMM_HI, d, n, imm);
    PlainWord(AddImm(ADD_IMM_LO, d, n, imm));
    PlainWord(AddImm(ADD_IMM_HI, d, n, imm));
    DecodeAdd(ADD_IMM_LO, d, n, imm);
    DecodeAdd(ADD_IMM_HI, d, n, imm);
  }

  lemma OrLane(op: U32, d: RegNo, n: RegNo, lane: nat)
    requires (op == SMOV || op == UMOV) && lane < 4
    ensures Or(Or(Or(op, d), 0x20 * n), 0x8_0000 * lane) == op + d + 0x20 * n + 0x8_0000 * lane
  {
    hide Or;
    FieldSizes();
    OrRegisters(op, d, n);
    LowAdds(op - op % 0x8_0000, op % 0x8_0000 + d + 0x20 * n, 0x8_0000);
    OrAt(op + d + 0x20 * n, lane, 19, 0x8_0000, 2, 4);
  }

  function LaneMove(signed: bool, d: RegNo, lane: nat): (w: U32)
    requires lane < 64
    ensures w == (if signed then SMOV else UMOV) + d + 0x20 * (lane / 4) + 0x8_0000 * (lane % 4)
  {
    OrLane(if signed then SMOV else UMOV, d, lane / 4, lane % 4);
    Or(Or(Or(if signed then SMOV else UMOV, d), 0x20 * (lane / 4)), 0x8_0000 * (lane % 4))
  }

  lemma StepLane(c: Cpu, signed: bool, d: RegNo, lane: nat)
    requires lane < 64 && lane < |c.lanes| && d < 31
    ensures Step(c, LaneMove(signed, d, lane)) ==
            c.(x := c.x[d := if signed then SignExtend(c.lanes[lane]) else c.lanes[lane]])
  {
    hide LaneMove, Or;
    var w := LaneMove(signed, d, lane);
    Fields(w, if signed then 0x270 else 0x070, 4 + 8 * (lane % 4), if signed then 11 else 15, lane / 4, d);
  }

  lemma OrMask(d: RegNo, n: RegNo, s: nat)
    requires s < 64
    ensures Or(Or(Or(AND_IMM_SHIFT, d), 0x20 * n), 0x400 * s) == AND_IMM_SHIFT + d + 0x20 * n + 0x400 * s
  {
    hide Or;
    FieldSizes();
    OrRegisters(AND_IMM_SHIFT, d, n);
    LowAdds(AND_IMM_SHIFT, d + 0x20 * n, 0x400);
    OrAt(AND_IMM_SHIFT + d + 0x20 * n, s, 10, 0x400, 6, 0x40);
  }

  function MaskTo(d: RegNo, n: RegNo, log2: nat): (w: U32)
    requires 4 <= log2 <= 21
    ensures w == AND_IMM_SHIFT + d + 0x20 * n + 0x400 * (log2 - 4)
  {
    OrMask(d, n, log2 - 4);
    Or(Or(Or(AND_IMM_SHIFT, d), 0x20 * n), 0x400 * (log2 - 4))
  }

  lemma StepMask(c: Cpu, d: RegNo, n: RegNo, log2: nat)
    requires 4 <= log2 <= 21 && d < 31 && n < 31
    ensures Step(c, MaskTo(d, n, log2)) == c.(x := c.x[d := c.x[n] / 8 % Pow2(log2 - 3) * 8 % TWO64])
  {
    hide MaskTo, Or;
    Fields(MaskTo(d, n, log2), 0x493, 29, log2 - 4, n, d);
  }

  // ---- immediates ----

  // Emitted words, and the 32-bit literals handed out so far.
  datatype Emitted = Emitted(words: seq<U32>, pool: seq<U32>)

  // Earlier literals stay where they are, and the pool never outgrows the lanes.
  ghost predicate Extends(e: Emitted, pool: seq<U32>) { pool <= e.pool && |e.pool| <= 64 }

  function MovImmediate(d: RegNo, imm: U32, pool: seq<U32>): Emitted {
    if imm < 0x1_0000 then Emitted([Move(MOVZ, d, false, imm)], pool)
    else if |pool| < 64 then Emitted([LaneMove(imm >= TWO31, d, |pool|)], pool + [imm])
    else Emitted(MoveConstant(d, imm), pool)
  }

  lemma PerformOne(c: Cpu, w: U32)
    ensures Perform(c, [w]) == Step(c, w)
  {
    assert Perform(c, [w]) == Perform(Step(c, w), [w][1..]);
  }

  lemma PerformTwo(c: Cpu, v: U32, w: U32)
    ensures Perform(c, [v, w]) == Step(Step(c, v), w)
  {
    assert [v, w] == [v] + [w];
    PerformConcat(c, [v], [w]);
    PerformOne(c, v);
    PerformOne(Step(c, v), w);
  }

  // Whatever the literal count, the register ends with the sign-extended
  // immediate and nothing else changes.
  lemma MovImmediateCorrect(c: Cpu, d: RegNo, imm: U32, pool: seq<U32>)
    requires d < 31 && |pool| <= 64 && MovImmediate(d, imm, pool).pool <= c.lanes
    ensures var e := MovImmediate(d, imm, pool);
            Extends(e, pool) && Perform(c, e.words) == c.(x := c.x[d := SignExtend(imm)])
  {
    hide Step, Perform, Move, LaneMove, MoveValue;
    var e := MovImmediate(d, imm, pool);
    if imm < 0x1_0000 {
      PerformOne(c, Move(MOVZ, d, false, imm));
      StepMove(c, MOVZ, d, false, imm);
      SmallMove(c.x[d], imm);
    } else if |pool| < 64 {
      PerformOne(c, LaneMove(imm >= TWO31, d, |pool|));
      assert c.lanes[|pool|] == e.pool[|pool|] == imm;
      StepLane(c, imm >= TWO31, d, |pool|);
    } else {
      PerformTwo(c, e.words[0], e.words[1]);
      ConstantMoved(c.x[d], imm);
      if imm < TWO31 { StepMove(c, MOVZ, d, true, imm / 0x1_0000); }
      else { StepMove(c, MOVN, d, true, (TWO32 - 1 - imm) / 0x1_0000); }
      var y := Step(c, e.words[0]);
      StepMove(y, MOVK, d, false, imm % 0x1_0000);
      assert y.x[d := SignExtend(imm)] == c.x[d := SignExtend(imm)];
    }
  }

  lemma SmallMove(was: Word, imm: Imm16)
    ensures MoveValue(MOVZ, was, imm, false) == SignExtend(imm)
  {
  }

  function AddImmediate(d: RegNo, n: RegNo, imm: U32, tmp: RegNo, pool: seq<U32>): Emitted {
    if imm < 0x100_0000 then Emitted(AddSmall(d, n, imm), pool)
    else
      var e := MovImmediate(tmp, imm, pool);
      Emitted(e.words + [Op3(ADD, d, n, 0, tmp)], e.pool)
  }

  lemma AddSmallCorrect(c: Cpu, d: RegNo, n: RegNo, imm: U32)
    requires d < 31 && n < 31 && imm < 0x100_0000
    ensures Perform(c, AddSmall(d, n, imm)) == c.(x := c.x[d := Add(c.x[n], SignExtend(imm))])
  {
    hide Step, Perform, AddImm, Add, SignExtend;
    TwoAdds(c.x[n], imm);
    var lo, hi := imm % 0x1000, imm / 0x1000;
    StepAddLow(c, d, n, lo);
    StepAddLow(c, d, n, hi);
    if lo != 0 && hi != 0 {
      var y := Step(c, AddImm(ADD_IMM_LO, d, n, lo));
      PerformTwo(c, AddImm(ADD_IMM_LO, d, n, lo), AddImm(ADD_IMM_HI, d, d, hi));
      StepAddLow(y, d, d, hi);
      assert y.x[d := (y.x[d] + hi * 0x1000) % TWO64] == c.x[d := Add(c.x[n], SignExtend(imm))];
    } else if lo != 0 {
      PerformOne(c, AddImm(ADD_IMM_LO, d, n, lo));
    } else {
      PerformOne(c, AddImm(ADD_IMM_HI, d, n, hi));
    }
  }

  // d := n + imm; only d and the temporary change. They may be the same register.
  lemma AddImmediateCorrect(c: Cpu, d: RegNo, n: RegNo, imm: U32, tmp: RegNo, pool: seq<U32>)
    requires d < 31 && n < 31 && tmp < 31 && tmp != n && |pool| <= 64
    requires AddImmediate(d, n, imm, tmp, pool).pool <= c.lanes
    ensures var e := AddImmediate(d, n, imm, tmp, pool);
            && Extends(e, pool)
            && Perform(c, e.words) == c.(x := (if imm < 0x100_0000 then c.x else c.x[tmp := SignExtend(imm)])
                                              [d := Add(c.x[n], SignExtend(imm))])
  {
    hide Step, Perform, MovImmediate, AddSmall, Op3, Add, SignExtend;
    if imm < 0x100_0000 {
      AddSmallCorrect(c, d, n, imm);
    } else {
      var e := MovImmediate(tmp, imm, pool);
      MovImmediateCorrect(c, tmp, imm, pool);
      PerformConcat(c, e.words, [Op3(ADD, d, n, 0, tmp)]);
      var y := Perform(c, e.words);
      PerformOne(y, Op3(ADD, d, n, 0, tmp));
      StepAdd(y, d, n, tmp);
    }
  }

  // Subtracting an immediate: add its negation, except that 0x80000000 is its own
  // negation and must be added unsigned.
  function SubImmediate(d: RegNo, imm: U32, pool: seq<U32>): Emitted {
    if imm == TWO31 then Emitted([Move(MOVZ, 20, true, 0x8000), Op3(ADD, d, d, 0, 20)], pool)
    else AddImmediate(d, d, (TWO32 - imm) % TWO32, 20, pool)
  }

  lemma NegatedImmediate(a: Word, imm: U32)
    requires imm != TWO31
    ensures Add(a, SignExtend((TWO32 - imm) % TWO32)) == Sub(a, SignExtend(imm))
  {
  }

  lemma SubImmediateCorrect(c: Cpu, d: RegNo, imm: U32, pool: seq<U32>)
    requires d < 31 && d != 20 && |pool| <= 64 && SubImmediate(d, imm, pool).pool <= c.lanes
    ensures var e := SubImmediate(d, imm, pool);
            && Extends(e, pool)
            && var y := Perform(c, e.words);
               y.x[d] == Sub(c.x[d], SignExtend(imm)) && y.mem == c.mem
               && forall k :: 0 <= k < 32 && k != d && k != 20 ==> y.x[k] == c.x[k]
  {
    hide Step, Perform, Move, Op3, AddImmediate, MoveValue;
    if imm == TWO31 {
      var w := Move(MOVZ, 20, true, 0x8000);
      PerformTwo(c, w, Op3(ADD, d, d, 0, 20));
      StepMove(c, MOVZ, 20, true, 0x8000);
      assert MoveValue(MOVZ, c.x[20], 0x8000, true) == TWO31 by { HighBit(c.x[20]); }
      StepAdd(Step(c, w), d, d, 20);
    } else {
      AddImmediateCorrect(c, d, d, (TWO32 - imm) % TWO32, 20, pool);
      NegatedImmediate(c.x[d], imm);
    }
  }

  lemma HighBit(was: Word)
    ensures MoveValue(MOVZ, was, 0x8000, true) == TWO31
  {
  }

  // ---- scratchpad addresses ----

  function Log2(size: nat): nat
    requires size == L1 || size == L2 || size == L3
  {
    if size == L1 then 14 else if size == L2 then 18 else 21
  }

  lemma SizeIs(size: nat)
    requires size == L1 || size == L2 || size == L3
    ensures size == 8 * Pow2(Log2(size) - 3)
  {
    assert Pow2(11) == 0x800;
    Pow2Add(11, 4);
    Pow2Add(11, 7);
    assert Pow2(4) == 16 && Pow2(7) == 128;
  }

  lemma LowBitsOff(v: nat, p: int)
    requires p > 0
    ensures v / 8 % p * 8 == v % (8 * p) / 8 * 8
  {
    ModSplit(v, p, 8);
    assert p * 8 == 8 * p;
    DivUnique(v % (8 * p), 8, v / 8 % p, v % 8);
  }

  lemma SameAddress(x: Word, imm: U32, size: nat)
    requires size == L1 || size == L2 || size == L3
    ensures Add(x, SignExtend(imm % size)) / 8 % Pow2(Log2(size) - 3) * 8 % TWO64 == 8 * WordIndex(x, imm, size)
  {
    var p := Pow2(Log2(size) - 3);
    SizeIs(size);
    AddressMod(x, imm, size, TWO32 / size);
    LowBitsOff(Add(x, imm % size), p);
    DivUnique(8 * WordIndex(x, imm, size), TWO64, 0, 8 * WordIndex(x, imm, size));
  }

  // The middle register is already part of these opcodes.
  lemma OrAccess(op: U32, d: RegNo, m: RegNo)
    requires op in {LDR_64_REG, LDR_64_REG_LSL3, STR_64_REG, MOV_REG}
    ensures Or(Or(op, d), 0x1_0000 * m) == op + d + 0x1_0000 * m
  {
    hide Or;
    FieldSizes();
    OrLow(op, d, 5);
    LowAdds(op - op % 0x1_0000, op % 0x1_0000 + d, 0x1_0000);
    OrAt(op + d, m, 16, 0x1_0000, 5, 0x20);
  }

  function LoadWord(d: RegNo, m: RegNo, scaled: bool): (w: U32)
    ensures w == (if scaled then LDR_64_REG_LSL3 else LDR_64_REG) + d + 0x1_0000 * m
  {
    OrAccess(if scaled then LDR_64_REG_LSL3 else LDR_64_REG, d, m);
    Or(Or(if scaled then LDR_64_REG_LSL3 else LDR_64_REG, d), 0x1_0000 * m)
  }

  function StoreWord(s: RegNo, m: RegNo): (w: U32)
    ensures w == STR_64_REG + s + 0x1_0000 * m
  {
    OrAccess(STR_64_REG, s, m);
    Or(Or(STR_64_REG, s), 0x1_0000 * m)
  }

  function CopyWord(d: RegNo, m: RegNo): (w: U32)
    ensures w == MOV_REG + d + 0x1_0000 * m
  {
    OrAccess(MOV_REG, d, m);
    Or(Or(MOV_REG, d), 0x1_0000 * m)
  }

  lemma StepCopy(c: Cpu, d: RegNo, m: RegNo)
    requires d < 31 && m < 31
    ensures Step(c, CopyWord(d, m)) == c.(x := c.x[d := c.x[m]])
  {
    hide CopyWord, Or;
    Fields(CopyWord(d, m), 0x550, m, 0, 31, d);
  }

  // Load into x20, as IADD_M and the other integer memory operations do.
  function MemLoad(d: RegNo, s: RegNo, i: Instr, pool: seq<U32>): Emitted {
    if s != d then
      var size := LoadLevel(i);
      var imm := i.imm % size;
      var e := if imm != 0 then AddImmediate(20, s, imm, 20, pool) else Emitted([], pool);
      Emitted(e.words + [MaskTo(20, if imm != 0 then 20 else s, Log2(size)), LoadWord(20, 20, false)], e.pool)
    else
      var e := MovImmediate(20, i.imm % L3 / 8, pool);
      Emitted(e.words + [LoadWord(20, 20, true)], e.pool)
  }

  lemma StepLoad(c: Cpu, d: RegNo, m: RegNo, scaled: bool)
    requires d < 31 && m < 31
    ensures Step(c, LoadWord(d, m, scaled)) == c.(x := c.x[d := c.mem[Slot(Scaled(c.x[m], scaled))]])
  {
    hide LoadWord, Or;
    Fields(LoadWord(d, m, scaled), 0x7C3, m, if scaled then 30 else 26, 2, d);
  }

  lemma StepStore(c: Cpu, s: RegNo, m: RegNo)
    requires s < 31 && m < 31
    ensures Step(c, StoreWord(s, m)) == c.(mem := c.mem[Slot(c.x[m]) := c.x[s]])
  {
    hide StoreWord, Or;
    Fields(StoreWord(s, m), 0x7C1, m, 26, 2, s);
  }

  lemma SlotOf(k: nat)
    requires k < 0x4_0000
    ensures Slot(8 * k) == k
  {
  }

  // The operand loaded is the interpreter's, whichever register and level.
  lemma MemLoadCorrect(c: Cpu, d: RegNo, s: RegNo, i: Instr, pool: seq<U32>)
    requires s < 19 && |pool| <= 64 && MemLoad(d, s, i, pool).pool <= c.lanes
    ensures var e := MemLoad(d, s, i, pool);
            && Extends(e, pool)
            && var y := Perform(c, e.words);
               && y.x[20] == c.mem[if s != d then WordIndex(c.x[s], i.imm, LoadLevel(i)) else WordIndex(0, i.imm, L3)]
               && y.mem == c.mem && forall k :: 0 <= k < 32 && k != 20 ==> y.x[k] == c.x[k]
  {
    if s != d { LoadFromSource(c, s, i, pool); } else { LoadAbsolute(c, i, pool); }
  }

  lemma LoadAbsolute(c: Cpu, i: Instr, pool: seq<U32>)
    requires |pool| <= 64 && MovImmediate(20, i.imm % L3 / 8, pool).pool <= c.lanes
    ensures var e := MovImmediate(20, i.imm % L3 / 8, pool);
            && Extends(e, pool)
            && Perform(c, e.words + [LoadWord(20, 20, true)]) == c.(x := c.x[20 := c.mem[WordIndex(0, i.imm, L3)]])
  {
    hide Step, Perform, MovImmediate, LoadWord;
    var k := i.imm % L3 / 8;
    var e := MovImmediate(20, k, pool);
    MovImmediateCorrect(c, 20, k, pool);
    PerformConcat(c, e.words, [LoadWord(20, 20, true)]);
    var y := Perform(c, e.words);
    PerformOne(y, LoadWord(20, 20, true));
    StepLoad(y, 20, 20, true);
    AbsoluteIndex(i.imm);
    SlotOf(k);
  }

  lemma AbsoluteIndex(imm: U32)
    ensures WordIndex(0, imm, L3) == imm % L3 / 8 && SignExtend(imm % L3 / 8) == imm % L3 / 8
  {
  }

  lemma LoadFromSource(c: Cpu, s: RegNo, i: Instr, pool: seq<U32>)
    requires s < 19 && |pool| <= 64
    ensures var size := LoadLevel(i);
            var imm := i.imm % size;
            var e := if imm != 0 then AddImmediate(20, s, imm, 20, pool) else Emitted([], pool);
            var ws := e.words + [MaskTo(20, if imm != 0 then 20 else s, Log2(size)), LoadWord(20, 20, false)];
            && e.pool == pool
            && Perform(c, ws) == c.(x := c.x[20 := c.mem[WordIndex(c.x[s], i.imm, size)]])
  {
    hide Step, Perform, LoadWord, MaskTo, AddSmall, WordIndex, Slot;
    var size := LoadLevel(i);
    var imm := i.imm % size;
    var first := if imm != 0 then AddSmall(20, s, imm) else [];
    var n := if imm != 0 then 20 else s;
    PerformConcat(c, first, [MaskTo(20, n, Log2(size)), LoadWord(20, 20, false)]);
    var y := if imm != 0 then c.(x := c.x[20 := Add(c.x[s], SignExtend(imm))]) else c;
    assert Perform(c, first) == y by {
      if imm != 0 { AddSmallCorrect(c, 20, s, imm); } else { PerformNothing(c); }
    }
    assert y.x[n] == Add(c.x[s], SignExtend(imm)) by { AddNothing(c.x[s]); }
    MaskThenLoad(y, n, size, c.x[s], i.imm);
    assert y.x[20 := c.mem[WordIndex(c.x[s], i.imm, size)]] == c.x[20 := c.mem[WordIndex(c.x[s], i.imm, size)]];
  }

  lemma PerformNothing(c: Cpu)
    ensures Perform(c, []) == c
  {
  }

  lemma AddNothing(a: Word)
    ensures Add(a, SignExtend(0)) == a
  {
  }

  lemma MaskThenLoad(y: Cpu, n: RegNo, size: nat, base: Word, imm: U32)
    requires (size == L1 || size == L2 || size == L3) && n < 31 && y.x[n] == Add(base, SignExtend(imm % size))
    ensures Perform(y, [MaskTo(20, n, Log2(size)), LoadWord(20, 20, false)])
            == y.(x := y.x[20 := y.mem[WordIndex(base, imm, size)]])
  {
    hide Step, Perform, LoadWord, MaskTo, WordIndex, Slot, Add, SignExtend;
    PerformTwo(y, MaskTo(20, n, Log2(size)), LoadWord(20, 20, false));
    StepMask(y, 20, n, Log2(size));
    SameAddress(base, imm, size);
    var z := Step(y, MaskTo(20, n, Log2(size)));
    StepLoad(z, 20, 20, false);
    SlotOf(WordIndex(base, imm, size));
    assert z.x[20 := y.mem[WordIndex(base, imm, size)]] == y.x[20 := y.mem[WordIndex(base, imm, size)]];
  }

  function MemStore(d: RegNo, s: RegNo, i: Instr, pool: seq<U32>): Emitted {
    var size := StoreLevel(i);
    var e := AddImmediate(20, d, i.imm % size, 20, pool);
    Emitted(e.words + [MaskTo(20, 20, Log2(size)), StoreWord(s, 20)], e.pool)
  }

  // The interpreter's word is overwritten with the source register; otherwise
  // only the temporary changes.
  lemma MemStoreCorrect(c: Cpu, d: RegNo, s: RegNo, i: Instr, pool: seq<U32>)
    requires d < 19 && s < 19 && |pool| <= 64
    ensures var e := MemStore(d, s, i, pool);
            && e.pool == pool
            && var y := Perform(c, e.words);
               && y.mem == c.mem[WordIndex(c.x[d], i.imm, StoreLevel(i)) := c.x[s]]
               && forall k :: 0 <= k < 32 && k != 20 ==> y.x[k] == c.x[k]
  {
    hide Step, Perform, StoreWord, MaskTo, AddSmall, WordIndex, Slot, Add, SignExtend;
    var size := StoreLevel(i);
    var first := AddSmall(20, d, i.imm % size);
    PerformConcat(c, first, [MaskTo(20, 20, Log2(size)), StoreWord(s, 20)]);
    AddSmallCorrect(c, 20, d, i.imm % size);
    var y := Perform(c, first);
    PerformTwo(y, MaskTo(20, 20, Log2(size)), StoreWord(s, 20));
    StepMask(y, 20, 20, Log2(size));
    SameAddress(c.x[d], i.imm, size);
    var z := Step(y, MaskTo(20, 20, Log2(size)));
    StepStore(z, s, 20);
    SlotOf(WordIndex(c.x[d], i.imm, size));
  }

  // ---- floating-point loads ----

  // The words before the vector load, which then reads at offset x19.
  function FpAddress(s: RegNo, i: Instr, pool: seq<U32>): Emitted {
    var size := LoadLevel(i);
    var imm := i.imm % size;
    var e := if imm != 0 then AddImmediate(19, s, imm, 20, pool) else Emitted([], pool);
    Emitted(e.words + [MaskTo(19, 19, Log2(size))], e.pool)
  }

  lemma MaskedAddress(y: Cpu, size: nat, base: Word, imm: U32)
    requires (size == L1 || size == L2 || size == L3) && y.x[19] == Add(base, SignExtend(imm % size))
    ensures Perform(y, [MaskTo(19, 19, Log2(size))]).x[19] == 8 * WordIndex(base, imm, size)
  {
    hide Step, Perform, MaskTo, WordIndex, Add, SignExtend;
    PerformOne(y, MaskTo(19, 19, Log2(size)));
    StepMask(y, 19, 19, Log2(size));
    SameAddress(base, imm, size);
  }

  lemma FpAddressIs(c: Cpu, s: RegNo, i: Instr, pool: seq<U32>)
    requires s < 19 && |pool| <= 64
    ensures var size := LoadLevel(i);
            Perform(c, FpAddress(s, i, pool).words).x[19] ==
            8 * (if i.imm % size != 0 then WordIndex(c.x[s], i.imm, size) else WordIndex(c.x[19], 0, size))
  {
    hide Step, Perform, MaskTo, AddSmall, WordIndex, Add, SignExtend;
    var size := LoadLevel(i);
    var imm := i.imm % size;
    var first := if imm != 0 then AddSmall(19, s, imm) else [];
    PerformConcat(c, first, [MaskTo(19, 19, Log2(size))]);
    var y := Perform(c, first);
    if imm != 0 {
      AddSmallCorrect(c, 19, s, imm);
      MaskedAddress(y, size, c.x[s], i.imm);
    } else {
      PerformNothing(c);
      AddNothing(c.x[19]);
      MaskedAddress(y, size, c.x[19], 0);
    }
  }

  lemma ZeroOffsetIndex(x: Word, imm: U32, size: nat)
    requires (size == L1 || size == L2 || size == L3) && imm % size == 0
    ensures WordIndex(x, imm, size) == x % size / 8 && WordIndex(x, 0, size) == x % size / 8
  {
    AddressMod(x, imm, size, TWO32 / size);
    AddressMod(x, 0, size, TWO32 / size);
    AddMod(x, imm, size);
    ModMod(x, size, 1, size);
  }

  // The address is the interpreter's in every machine state exactly when the
  // masked offset is not zero; with a zero offset the source register is never
  // read.
  lemma FpAddressCorrectIff(s: RegNo, i: Instr, pool: seq<U32>)
    requires s < 19 && |pool| <= 64
    ensures (forall c: Cpu ::
               Perform(c, FpAddress(s, i, pool).words).x[19] == 8 * WordIndex(c.x[s], i.imm, LoadLevel(i)))
            <==> i.imm % LoadLevel(i) != 0
  {
    hide Perform, FpAddress, WordIndex;
    if i.imm % LoadLevel(i) != 0 {
      forall c: Cpu
        ensures Perform(c, FpAddress(s, i, pool).words).x[19] == 8 * WordIndex(c.x[s], i.imm, LoadLevel(i))
      {
        FpAddressIs(c, s, i, pool);
      }
    } else {
      var x: Regs := seq(32, k => if k == 19 then 8 else 0);
      var c := Cpu(x, seq(0x4_0000, _ => 0), []);
      FpAddressIs(c, s, i, pool);
      ZeroOffsetIndex(0, i.imm, LoadLevel(i));
      ZeroOffsetIndex(8, i.imm, LoadLevel(i));
      assert Perform(c, FpAddress(s, i, pool).words).x[19] != 8 * WordIndex(c.x[s], i.imm, LoadLevel(i));
    }
  }

  // ---- branch immediates ----

  // The 32-bit form of the branch immediate, set and clear before extension.
  function BranchImm32(i: Instr): Word {
    ClearBit(SetBit(i.imm, BranchShift(i)), BranchShift(i) - 1)
  }

  lemma AddEvenMultiple(x: nat, p: nat, m: nat)
    requires p > 0
    ensures (x + 2 * m * p) / p % 2 == x / p % 2
  {
    DivUnique(x + 2 * m * p, p, x / p + 2 * m, x % p);
    AddMod(x / p, 2 * m, 2);
  }

  lemma ExtendedBit(x: U32, k: nat)
    requires k < 31
    ensures Bit(SignExtend(x), k) == Bit(x, k)
  {
    hide Pow2;
    var m := (TWO32 - 1) * Pow2(31 - k);
    assert 2 * m * Pow2(k) == TWO64 - TWO32 by {
      Pow2Add(31 - k, k);
      Pow2Next(31);
      Pow2Values();
    }
    AddEvenMultiple(x, Pow2(k), m);
  }

  lemma BitSplit(x: nat, p: nat) returns (h: nat, r: nat)
    requires p > 0
    ensures r < p && x == h * (2 * p) + x / p % 2 * p + r
  {
    var q := x / p;
    DivBounds(x, p);
    h, r := q / 2, x % p;
    assert x == q * p + r;
    assert q == 2 * h + q % 2;
    assert q * p == h * (2 * p) + q % 2 * p;
  }

  // With bit k clear there is room to add it below any multiple of 2^(k+1); with
  // bit k set it can be taken away without passing one.
  lemma RoomAbove(x: int, p: int, d: int, h: int, r: int, m: int)
    requires d == 2 * p > 0 && x == h * d + r && 0 <= r < p && x < m * d
    ensures x + p < m * d
  {
    if h >= m { MulBelow(m, h, d); }
    MulBelow(h + 1, m, d);
  }

  lemma RoomBelow(x: int, p: int, d: int, h: int, r: int, m: int)
    requires d == 2 * p > 0 && x == h * d + p + r && 0 <= r < p && x >= m * d
    ensures x - p >= m * d
  {
    if h < m { MulBelow(h + 1, m, d); }
    MulBelow(m, h, d);
  }

  lemma HalfWords(k: nat) returns (m: nat)
    requires k < 31
    ensures m * (2 * Pow2(k)) == TWO31 && 2 * m * (2 * Pow2(k)) == TWO32
  {
    hide Pow2;
    m := Pow2(30 - k);
    Pow2Add(30 - k, k + 1);
    Pow2Next(k);
    Pow2Next(31);
    Pow2Values();
  }

  // A clear bit set in the word before or after extension.
  lemma SetBitExtends(x: U32, k: nat)
    requires k < 31
    ensures SetBit(x, k) < TWO32 && SetBit(SignExtend(x), k) == SignExtend(SetBit(x, k))
  {
    hide Pow2, Bit;
    ExtendedBit(x, k);
    BitValue(x, k);
    if Bit(x, k) == 0 { RoomToSet(x, k); }
  }

  lemma RoomToSet(x: U32, k: nat)
    requires k < 31 && Bit(x, k) == 0
    ensures x + Pow2(k) < TWO32 && (x < TWO31 ==> x + Pow2(k) < TWO31)
  {
    hide Pow2;
    var p := Pow2(k);
    var m := HalfWords(k);
    var h, r := BitSplit(x, p);
    RoomAbove(x, p, 2 * p, h, r, 2 * m);
    if x < TWO31 { RoomAbove(x, p, 2 * p, h, r, m); }
  }

  lemma RoomToClear(x: U32, k: nat)
    requires k < 31 && Bit(x, k) == 1
    ensures x - Pow2(k) >= 0 && (x >= TWO31 ==> x - Pow2(k) >= TWO31)
  {
    hide Pow2;
    var p := Pow2(k);
    var m := HalfWords(k);
    var h, r := BitSplit(x, p);
    RoomBelow(x, p, 2 * p, h, r, 0);
    if x >= TWO31 { RoomBelow(x, p, 2 * p, h, r, m); }
  }

  lemma ClearBitExtends(x: U32, k: nat)
    requires k < 31
    ensures ClearBit(x, k) < TWO32 && ClearBit(SignExtend(x), k) == SignExtend(ClearBit(x, k))
  {
    hide Pow2, Bit;
    ExtendedBit(x, k);
    BitValue(x, k);
    if Bit(x, k) == 1 { RoomToClear(x, k); }
  }

  lemma BitValue(x: U32, k: nat)
    ensures Bit(x, k) == 0 || Bit(x, k) == 1
  {
  }

  // The emitted add uses the interpreter's branch immediate.
  lemma BranchImmAgrees(i: Instr)
    ensures BranchImm32(i) < TWO32 && SignExtend(BranchImm32(i)) == BranchImm(i)
  {
    hide SetBit, ClearBit, SignExtend;
    SetBitExtends(i.imm, BranchShift(i));
    ClearBitExtends(SetBit(i.imm, BranchShift(i)), BranchShift(i) - 1);
  }
}
