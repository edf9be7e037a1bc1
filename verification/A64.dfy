// The A64 instructions the emitters write: their 32-bit encodings, and what they
// do to the register file. Words are put together by bitwise or, as the emitters
// do; operand fields lie where the opcode constants are zero, so each word is
// also the sum of its fields.
module A64 {
  import opened Words
  import opened Arith
  import opened Bits

  type RegNo = n: nat | n < 32
  type Imm16 = n: nat | n < 0x1_0000

  const SUB: U32 := 0xCB00_0000
  const EOR: U32 := 0xCA00_0000
  const ADD: U32 := 0x8B00_0000
  const MUL: U32 := 0x9B00_7C00
  const UMULH: U32 := 0x9BC0_7C00
  const SMULH: U32 := 0x9B40_7C00
  const ROR_IMM: U32 := 0x93C0_0000
  const ROR: U32 := 0x9AC0_2C00
  const MOVZ: U32 := 0xD280_0000
  const MOVN: U32 := 0x9280_0000
  const MOVK: U32 := 0xF280_0000
  const ADD_IMM_LO: U32 := 0x9100_0000
  const ADD_IMM_HI: U32 := 0x9140_0000
  const LDR_LITERAL: U32 := 0x5800_0000
  const BRANCH: U32 := 0x1400_0000

  // ---- encoding ----

  lemma LowAdds(op: nat, low: nat, p: int)
    requires p > 0 && op % p == 0 && low < p
    ensures (op + low) / p == op / p
  {
    DivUnique(op + low, p, op / p, low);
  }

  // d and n in the two lowest register fields.
  lemma OrRegisters(op: nat, d: RegNo, n: RegNo)
    requires op % 0x400 == 0
    ensures Or(Or(op, d), 0x20 * n) == op + d + 0x20 * n
  {
    hide Or;
    FieldSizes();
    OrLow(op, d, 5);
    LowAdds(op, d, 0x20);
    OrAt(op + d, n, 5, 0x20, 5, 0x20);
  }

  // Every three-register opcode has zeros in its register fields. Only the
  // multiplications and the rotate by register use the bits of the amount.
  predicate IsOp3(op: U32, amount: nat) {
    && op in {SUB, EOR, ADD, MUL, UMULH, SMULH, ROR, ROR_IMM}
    && amount < 64 && (op != ADD && op != ROR_IMM ==> amount == 0)
  }

  lemma OrAmount(op: U32, low: nat, amount: nat)
    requires IsOp3(op, amount) && low < 0x400
    ensures Or(op + low, 0x400 * amount) == op + low + 0x400 * amount
  {
    hide Or;
    FieldSizes();
    if amount == 0 {
      OrZero(op + low);
    } else {
      LowAdds(op, low, 0x400);
      OrAt(op + low, amount, 10, 0x400, 6, 0x40);
    }
  }

  lemma Op3Bits(op: U32, amount: nat)
    requires IsOp3(op, amount)
    ensures op % 0x20_0000 + 0x400 * amount + 0x400 <= 0x1_0000
  {
  }

  lemma OrThird(op: U32, low: nat, amount: nat, m: RegNo)
    requires IsOp3(op, amount) && low < 0x400
    ensures Or(op + low + 0x400 * amount, 0x1_0000 * m) == op + low + 0x400 * amount + 0x1_0000 * m
  {
    hide Or, IsOp3;
    FieldSizes();
    Op3Bits(op, amount);
    var w, h := op + low + 0x400 * amount, op / 0x20_0000;
    DivUnique(w, 0x1_0000, 32 * h, op % 0x20_0000 + low + 0x400 * amount);
    DivUnique(32 * h, 32, h, 0);
    OrAt(w, m, 16, 0x1_0000, 5, 0x20);
  }

  function Op3(op: U32, d: RegNo, n: RegNo, amount: nat, m: RegNo): (w: U32)
    requires IsOp3(op, amount)
    ensures w == op + d + 0x20 * n + 0x400 * amount + 0x1_0000 * m
  {
    OrRegisters(op, d, n);
    OrAmount(op, d + 0x20 * n, amount);
    OrThird(op, d + 0x20 * n, amount, m);
    Or(Or(Or(Or(op, d), 0x20 * n), 0x400 * amount), 0x1_0000 * m)
  }

  lemma OrMove(op: U32, d: RegNo, h: nat, imm: Imm16)
    requires op in {MOVZ, MOVN, MOVK} && h < 2
    ensures Or(Or(Or(op, d), 0x20_0000 * h), 0x20 * imm) == op + d + 0x20_0000 * h + 0x20 * imm
  {
    hide Or, Pow2;
    FieldSizes();
    OrLow(op, d, 5);
    LowAdds(op, d, 0x20_0000);
    OrAt(op + d, h, 21, 0x20_0000, 1, 2);
    LowAdds(op + 0x20_0000 * h, d, 0x20);
    OrAt(op + d + 0x20_0000 * h, imm, 5, 0x20, 16, 0x1_0000);
  }

  function Move(op: U32, d: RegNo, high: bool, imm: Imm16): (w: U32)
    requires op in {MOVZ, MOVN, MOVK}
    ensures w == op + d + 0x20 * imm + if high then 0x20_0000 else 0
  {
    OrMove(op, d, if high then 1 else 0, imm);
    Or(Or(Or(op, d), if high then 0x20_0000 else 0), 0x20 * imm)
  }

  lemma OrImm(op: U32, d: RegNo, n: RegNo, imm: nat)
    requires (op == ADD_IMM_LO || op == ADD_IMM_HI) && imm < 0x1000
    ensures Or(Or(Or(op, d), 0x20 * n), 0x400 * imm) == op + d + 0x20 * n + 0x400 * imm
  {
    hide Or;
    FieldSizes();
    OrRegisters(op, d, n);
    LowAdds(op, d + 0x20 * n, 0x400);
    OrAt(op + d + 0x20 * n, imm, 10, 0x400, 12, 0x1000);
  }

  function AddImm(op: U32, d: RegNo, n: RegNo, imm: nat): (w: U32)
    requires (op == ADD_IMM_LO || op == ADD_IMM_HI) && imm < 0x1000
    ensures w == op + d + 0x20 * n + 0x400 * imm
  {
    OrImm(op, d, n, imm);
    Or(Or(Or(op, d), 0x20 * n), 0x400 * imm)
  }

  lemma OrLiteral(d: RegNo, offset: nat)
    requires offset < 0x8_0000
    ensures Or(Or(LDR_LITERAL, d), 0x20 * offset) == LDR_LITERAL + d + 0x20 * offset
  {
    hide Or;
    FieldSizes();
    OrLow(LDR_LITERAL, d, 5);
    LowAdds(LDR_LITERAL, d, 0x20);
    OrAt(LDR_LITERAL + d, offset, 5, 0x20, 19, 0x8_0000);
  }

  function LoadLiteral(d: RegNo, offset: nat): (w: U32)
    requires offset < 0x8_0000
    ensures w == LDR_LITERAL + d + 0x20 * offset
  {
    OrLiteral(d, offset);
    Or(Or(LDR_LITERAL, d), 0x20 * offset)
  }

  function Branch(offset: nat): (w: U32)
    requires offset < 0x400_0000
    ensures w == BRANCH + offset
  {
    FieldSizes();
    OrLow(BRANCH, offset, 26);
    Or(BRANCH, offset)
  }

  // ---- decoding ----

  datatype Inst =
    | Alu(op: U32, d: RegNo, n: RegNo, m: RegNo, amount: nat)
    | Mov(op: U32, d: RegNo, imm: Imm16, high: bool)
    | AddConst(d: RegNo, n: RegNo, addend: nat)
    | Literal(d: RegNo, offset: int)
    | Jump(offset: int)
    | Unknown

  // Two's complement reading of an n-valued field.
  function SignedField(x: nat, n: nat): int { if 2 * x < n then x else x - n }

  // The three-register opcode with these fixed bits, or 0.
  function Op3Of(top: nat, s: nat): U32 {
    if top == 0x658 && s == 0 then SUB
    else if top == 0x650 && s == 0 then EOR
    else if top == 0x458 then ADD
    else if top == 0x4D8 && s == 31 then MUL
    else if top == 0x4DE && s == 31 then UMULH
    else if top == 0x4DA && s == 31 then SMULH
    else if top == 0x4D6 && s == 11 then ROR
    else if top == 0x49E then ROR_IMM
    else 0
  }

  function DecodeImmediate(w: U32, top: nat): Inst {
    var q1 := w / 32;
    var d: RegNo, n: RegNo, imm := w % 32, q1 % 32, q1 / 32 % 0x1000;
    if top == 0x694 || top == 0x695 then Mov(MOVZ, d, q1 % 0x1_0000, top == 0x695)
    else if top == 0x494 || top == 0x495 then Mov(MOVN, d, q1 % 0x1_0000, top == 0x495)
    else if top == 0x794 || top == 0x795 then Mov(MOVK, d, q1 % 0x1_0000, top == 0x795)
    else if top / 2 == 0x244 then AddConst(d, n, imm)
    else if top / 2 == 0x245 then AddConst(d, n, imm * 0x1000)
    else if top / 8 == 0x58 then Literal(d, SignedField(q1 % 0x8_0000, 0x8_0000))
    else if top / 32 == 5 then Jump(SignedField(w % 0x400_0000, 0x400_0000))
    else Unknown
  }

  function Decode(w: U32): Inst {
    var q1 := w / 32;
    var q2 := q1 / 32;
    var q3 := q2 / 64;
    var top, s := q3 / 32, q2 % 64;
    var d: RegNo, n: RegNo, m: RegNo := w % 32, q1 % 32, q3 % 32;
    var op := Op3Of(top, s);
    if op == 0 then DecodeImmediate(w, top)
    else Alu(op, d, n, m, if op == ADD || op == ROR_IMM then s else 0)
  }

  // The opcode bits above the register fields.
  function Top(w: U32): nat { w / 32 / 32 / 64 / 32 }

  // A field of size p, with h above it.
  lemma FieldAt(h: nat, x: nat, p: int)
    requires p > 0 && x < p
    ensures (h * p + x) / p == h && (h * p + x) % p == x
  {
    DivUnique(h * p + x, p, h, x);
  }

  lemma TopIs(w: U32, h: nat, low: nat)
    requires w == h * 0x20_0000 + low && low < 0x20_0000
    ensures Top(w) == h
  {
    FieldAt(h, low, 0x20_0000);
    ModSplit(w, 32, 32);
    ModSplit(w, 64, 0x400);
    ModSplit(w, 32, 0x1_0000);
  }

  // One field at a time, from the lowest.
  lemma Fields(w: U32, top: nat, m: RegNo, s: nat, n: RegNo, d: RegNo)
    requires s < 64 && w == top * 0x20_0000 + m * 0x1_0000 + s * 0x400 + n * 0x20 + d
    ensures w % 32 == d && w / 32 % 32 == n && w / 32 / 32 % 64 == s && w / 32 / 32 / 64 % 32 == m
    ensures w / 32 / 32 / 64 / 32 == top
  {
    var q3 := top * 32 + m;
    var q2 := q3 * 64 + s;
    var q1 := q2 * 32 + n;
    FieldAt(q1, d, 32);
    FieldAt(q2, n, 32);
    FieldAt(q3, s, 64);
    FieldAt(top, m, 32);
    assert w == q1 * 32 + d;
  }

  lemma Op3OfOpcode(op: U32, amount: nat)
    requires IsOp3(op, amount)
    ensures var s := if op in {MUL, UMULH, SMULH} then 31 else if op == ROR then 11 else amount;
            && op == op / 0x20_0000 * 0x20_0000 + (s - amount) * 0x400 && Op3Of(op / 0x20_0000, s) == op
  {
  }

  lemma DecodeOp3(op: U32, d: RegNo, n: RegNo, amount: nat, m: RegNo)
    requires IsOp3(op, amount)
    ensures Decode(Op3(op, d, n, amount, m)) == Alu(op, d, n, m, amount)
  {
    hide Op3, Or, Op3Of, DecodeImmediate;
    var w := Op3(op, d, n, amount, m);
    var s := if op in {MUL, UMULH, SMULH} then 31 else if op == ROR then 11 else amount;
    Op3OfOpcode(op, amount);
    Fields(w, op / 0x20_0000, m, s, n, d);
  }

  lemma MoveTop(op: U32, d: RegNo, high: bool, imm: Imm16)
    requires op in {MOVZ, MOVN, MOVK}
    ensures Top(Move(op, d, high, imm)) == op / 0x20_0000 + if high then 1 else 0
    ensures Move(op, d, high, imm) / 32 % 0x1_0000 == imm && Move(op, d, high, imm) % 32 == d
  {
    hide Move, Or;
    var w, h := Move(op, d, high, imm), op / 0x20_0000 + if high then 1 else 0;
    FieldAt(h * 0x1_0000 + imm, d, 32);
    FieldAt(h, imm, 0x1_0000);
    TopIs(w, h, imm * 32 + d);
  }

  lemma DecodeMove(op: U32, d: RegNo, high: bool, imm: Imm16)
    requires op in {MOVZ, MOVN, MOVK}
    ensures Decode(Move(op, d, high, imm)) == Mov(op, d, imm, high)
  {
    hide Move, Or;
    MoveTop(op, d, high, imm);
  }

  lemma DecodeAdd(op: U32, d: RegNo, n: RegNo, imm: nat)
    requires (op == ADD_IMM_LO || op == ADD_IMM_HI) && imm < 0x1000
    ensures Decode(AddImm(op, d, n, imm)) == AddConst(d, n, if op == ADD_IMM_LO then imm else imm * 0x1000)
  {
    hide AddImm, Or;
    var w, h := AddImm(op, d, n, imm), op / 0x40_0000;
    FieldAt((h * 0x1000 + imm) * 32 + n, d, 32);
    FieldAt(h * 0x1000 + imm, n, 32);
    FieldAt(h, imm, 0x1000);
    AddImmTop(op, d, n, imm);
  }

  lemma AddImmTop(op: U32, d: RegNo, n: RegNo, imm: nat)
    requires (op == ADD_IMM_LO || op == ADD_IMM_HI) && imm < 0x1000
    ensures Top(AddImm(op, d, n, imm)) / 2 == op / 0x40_0000
    ensures 0x488 <= Top(AddImm(op, d, n, imm)) <= 0x48B
  {
    hide AddImm, Or;
    var w, h := AddImm(op, d, n, imm), op / 0x40_0000;
    var half := if imm < 0x800 then 0 else 1;
    TopIs(w, h * 2 + half, (imm - half * 0x800) * 0x400 + n * 0x20 + d);
  }

  lemma DecodeLiteral(d: RegNo, offset: nat)
    requires offset < 0x8_0000
    ensures Decode(LoadLiteral(d, offset)) == Literal(d, SignedField(offset, 0x8_0000))
  {
    hide LoadLiteral, Or;
    var w := LoadLiteral(d, offset);
    FieldAt(0x58 * 0x8_0000 + offset, d, 32);
    FieldAt(0x58, offset, 0x8_0000);
  }

  lemma DecodeBranch(offset: nat)
    requires offset < 0x400_0000
    ensures Decode(Branch(offset)) == Jump(SignedField(offset, 0x400_0000))
  {
    hide Branch, Or;
    var w := Branch(offset);
    FieldAt(5, offset, 0x400_0000);
    TopIs(w, 0xA0 + offset / 0x20_0000, offset % 0x20_0000);
  }

  // ---- execution ----

  type Regs = x: seq<Word> | |x| == 32 witness seq(32, _ => 0)

  // Register 31 reads as zero and swallows writes.
  function Get(x: Regs, n: RegNo): Word { if n == 31 then 0 else x[n] }

  function Set(x: Regs, n: RegNo, v: Word): Regs { if n == 31 then x else x[n := v] }

  // 64 bits of the pair a:b, from bit k of b on.
  function Extract(a: Word, b: Word, k: nat): Word {
    (b / Pow2(k % 64) + a * Pow2(64 - k % 64)) % TWO64
  }

  lemma ExtractRotates(a: Word, k: nat)
    ensures Extract(a, a, k) == Ror(a, k) == Extract(a, a, k % 64)
  {
    assert k % 64 % 64 == k % 64;
  }

  function AluValue(op: U32, a: Word, b: Word, amount: nat): Word {
    if op == SUB then Sub(a, b)
    else if op == EOR then Xor(a, b)
    else if op == ADD then Add(a, Shl(b, amount))
    else if op == MUL then Mul(a, b)
    else if op == UMULH then MulHigh(a, b)
    else if op == SMULH then SignedMulHigh(a, b)
    else if op == ROR then Ror(a, b)
    else Extract(a, b, amount)
  }

  function MoveValue(op: U32, was: Word, imm: Imm16, high: bool): Word {
    var p := if high then 0x1_0000 else 1;
    if op == MOVZ then imm * p
    else if op == MOVN then TWO64 - 1 - imm * p
    else was - was / p % 0x1_0000 * p + imm * p
  }

  // The effect of an instruction that uses registers only.
  function Compute(inst: Inst, x: Regs): Regs {
    match inst
    case Alu(op, d, n, m, amount) => Set(x, d, AluValue(op, Get(x, n), Get(x, m), amount))
    case Mov(op, d, imm, high) => Set(x, d, MoveValue(op, Get(x, d), imm, high))
    case AddConst(d, n, addend) => Set(x, d, (Get(x, n) + addend) % TWO64)
    case _ => x
  }

  // The effect of the word at index i on the registers.
  function Effect(code: seq<U32>, i: nat, x: Regs): Regs
    requires i < |code|
  {
    match Decode(code[i])
    case Literal(d, offset) =>
      if 0 <= i + offset && i + offset + 1 < |code|
      then Set(x, d, code[i + offset] + TWO32 * code[i + offset + 1]) else x
    case inst => Compute(inst, x)
  }

  // Run from index i to the end; the code only ever jumps forward.
  function Execute(code: seq<U32>, i: nat, x: Regs): Regs
    decreases |code| - i
  {
    if i >= |code| then x
    else if Decode(code[i]).Jump? && Decode(code[i]).offset > 0
    then Execute(code, i + Decode(code[i]).offset, x)
    else Execute(code, i + 1, Effect(code, i, x))
  }

  // ---- constants in registers ----

  function MoveConstant(d: RegNo, imm: U32): seq<U32> {
    [if imm < TWO31 then Move(MOVZ, d, true, imm / 0x1_0000)
     else Move(MOVN, d, true, (TWO32 - 1 - imm) / 0x1_0000),
     Move(MOVK, d, false, imm % 0x1_0000)]
  }

  // The two moves leave the sign-extended constant, whatever was there.
  lemma ConstantMoved(was: Word, imm: U32)
    ensures var high := if imm < TWO31 then MoveValue(MOVZ, was, imm / 0x1_0000, true)
                        else MoveValue(MOVN, was, (TWO32 - 1 - imm) / 0x1_0000, true);
            MoveValue(MOVK, high, imm % 0x1_0000, false) == SignExtend(imm)
  {
  }

  function AddSmall(d: RegNo, n: RegNo, imm: U32): seq<U32>
    requires imm < 0x100_0000
  {
    var lo, hi := imm % 0x1000, imm / 0x1000;
    if lo != 0 && hi != 0 then [AddImm(ADD_IMM_LO, d, n, lo), AddImm(ADD_IMM_HI, d, d, hi)]
    else if lo != 0 then [AddImm(ADD_IMM_LO, d, n, lo)]
    else [AddImm(ADD_IMM_HI, d, n, hi)]
  }

  lemma TwoAdds(a: Word, imm: U32)
    requires imm < 0x100_0000
    ensures ((a + imm % 0x1000) % TWO64 + imm / 0x1000 * 0x1000) % TWO64 == Add(a, SignExtend(imm))
    ensures imm % 0x1000 == 0 ==> (a + imm / 0x1000 * 0x1000) % TWO64 == Add(a, SignExtend(imm))
    ensures imm / 0x1000 == 0 ==> (a + imm % 0x1000) % TWO64 == Add(a, SignExtend(imm))
  {
    AddMod(a + imm % 0x1000, imm / 0x1000 * 0x1000, TWO64);
    AddMod((a + imm % 0x1000) % TWO64, imm / 0x1000 * 0x1000, TWO64);
  }

  lemma PlainAdd(a: Word, b: Word)
    ensures AluValue(ADD, a, b, 0) == Add(a, b)
  {
    assert Pow2(0) == 1;
  }
}
