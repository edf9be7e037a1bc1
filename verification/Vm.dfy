// The RandomX virtual machine: instructions, state, and what one straight-line
// instruction does (src/vm.cpp, include/armrx/instruction.hpp).
module Vm {
  import opened Words
  import opened Reciprocal

  datatype Op =
    | IADD_RS | IADD_M | ISUB_R | ISUB_M | IMUL_R | IMUL_M | IMULH_R | IMULH_M
    | ISMULH_R | ISMULH_M | IMUL_RCP | INEG_R | IXOR_R | IXOR_M | IROR_R | IROL_R
    | ISWAP_R | FSWAP_R | FADD_R | FADD_M | FSUB_R | FSUB_M | FSCAL_R | FMUL_R
    | FDIV_M | FSQRT_R | CBRANCH | CFROUND | ISTORE | NOP

  type Reg = i: int | 0 <= i < 8

  // An instruction after opcode lookup, with its register fields reduced mod 8.
  datatype Instr = Instr(op: Op, dst: Reg, src: Reg, mod: Byte, imm: U32)
  {
    function ModMem(): nat { mod % 4 }

    function ModShift(): nat { mod / 4 % 4 }

    function ModCond(): nat { mod / 16 }
  }

  type Program = seq<Instr>

  const L1: int := 0x4000
  const L2: int := 0x4_0000
  const L3: int := 0x20_0000

  // FSCAL_R flips these bits of each double.
  const SCALE: Word := 0x80F0_0000_0000_0000

  // Two doubles, kept as their bit patterns.
  datatype Double2 = Double2(lo: Word, hi: Word)

  // The scratchpad as 64-bit words; every access is 8-byte aligned.
  type Scratchpad = m: seq<Word> | |m| == 0x4_0000 witness seq(0x4_0000, _ => 0)

  datatype RawState = RawState(r: seq<Word>, f: seq<Double2>, e: seq<Double2>, mem: Scratchpad, rounding: nat)

  type State = s: RawState | |s.r| == 8 && |s.f| == 4 && |s.e| == 4
    witness RawState(seq(8, _ => 0), seq(4, _ => Double2(0, 0)), seq(4, _ => Double2(0, 0)), seq(0x4_0000, _ => 0), 0)

  // What a program run may not change: the floating-point unit, the group A
  // registers and the two exponent masks. The unit's operations take the
  // rounding mode first.
  datatype RawMachine = RawMachine(
    add: (nat, Word, Word) -> Word, sub: (nat, Word, Word) -> Word,
    mul: (nat, Word, Word) -> Word, div: (nat, Word, Word) -> Word,
    sqrt: (nat, Word) -> Word, fromInt: U32 -> Word,
    mask: (Word, Word) -> Word,
    a: seq<Double2>, eMaskLo: Word, eMaskHi: Word)

  ghost predicate IsMachine(m: RawMachine) { |m.a| == 4 }

  type Machine = m: RawMachine | IsMachine(m)
    ghost witness RawMachine((_, x, _) => x, (_, x, _) => x, (_, x, _) => x, (_, x, _) => x,
                       (_, x) => x, x => x, (x, _) => x, seq(4, _ => Double2(0, 0)), 0, 0)

  // Index of the scratchpad word at byte address (base + imm) wrapped to `size`.
  function WordIndex(base: Word, imm: U32, size: nat): (k: nat)
    requires size == L1 || size == L2 || size == L3
    ensures k < 0x4_0000
  {
    (base % TWO32 + imm) % TWO32 % size / 8
  }

  function LoadLevel(i: Instr): (size: nat)
    ensures size == L1 || size == L2
  {
    if i.ModMem() != 0 then L1 else L2
  }

  function StoreLevel(i: Instr): (size: nat)
    ensures size == L1 || size == L2 || size == L3
  {
    if i.ModCond() < 14 then LoadLevel(i) else L3
  }

  // Integer memory operand: with src == dst the address is the immediate alone.
  function LoadInt(i: Instr, s: State): Word {
    if i.src != i.dst then s.mem[WordIndex(s.r[i.src], i.imm, LoadLevel(i))]
    else s.mem[WordIndex(0, i.imm, L3)]
  }

  // Floating-point memory operand: two packed 32-bit integers.
  function LoadPair(m: Machine, i: Instr, s: State): Double2 {
    var w := s.mem[WordIndex(s.r[i.src], i.imm, LoadLevel(i))];
    Double2(m.fromInt(w % TWO32), m.fromInt(w / TWO32))
  }

  function Source(i: Instr, s: State, imm: Word): Word {
    if i.src != i.dst then s.r[i.src] else imm
  }

  function SetInt(s: State, d: Reg, v: Word): State { s.(r := s.r[d := v]) }

  function SetF(s: State, d: nat, v: Double2): State
    requires d < 4
  {
    s.(f := s.f[d := v])
  }

  function SetE(s: State, d: nat, v: Double2): State
    requires d < 4
  {
    s.(e := s.e[d := v])
  }

  function Lift2(op: (nat, Word, Word) -> Word, mode: nat, x: Double2, y: Double2): Double2 {
    Double2(op(mode, x.lo, y.lo), op(mode, x.hi, y.hi))
  }

  // Instructions that compile to nothing.
  predicate IsNop(i: Instr) {
    i.op == NOP
    || (i.op == ISWAP_R && i.src == i.dst)
    || (i.op == IMUL_RCP && ZeroOrPowerOfTwo(i.imm))
  }

  // The effect of one instruction other than a branch.
  function Exec(m: Machine, i: Instr, s: State): State
    requires i.op != CBRANCH
  {
    var d := s.r[i.dst];
    var d4 := i.dst % 4;
    match i.op
    case IADD_RS =>
      SetInt(s, i.dst, Add(Add(d, Shl(s.r[i.src], i.ModShift())), if i.dst == 5 then SignExtend(i.imm) else 0))
    case IADD_M => SetInt(s, i.dst, Add(d, LoadInt(i, s)))
    case ISUB_R => SetInt(s, i.dst, Sub(d, Source(i, s, SignExtend(i.imm))))
    case ISUB_M => SetInt(s, i.dst, Sub(d, LoadInt(i, s)))
    case IMUL_R => SetInt(s, i.dst, Mul(d, Source(i, s, SignExtend(i.imm))))
    case IMUL_M => SetInt(s, i.dst, Mul(d, LoadInt(i, s)))
    case IMULH_R => SetInt(s, i.dst, MulHigh(d, s.r[i.src]))
    case IMULH_M => SetInt(s, i.dst, MulHigh(d, LoadInt(i, s)))
    case ISMULH_R => SetInt(s, i.dst, SignedMulHigh(d, s.r[i.src]))
    case ISMULH_M => SetInt(s, i.dst, SignedMulHigh(d, LoadInt(i, s)))
    case IMUL_RCP => if ZeroOrPowerOfTwo(i.imm) then s else SetInt(s, i.dst, Mul(d, RandomxReciprocal(i.imm)))
    case INEG_R => SetInt(s, i.dst, Neg(d))
    case IXOR_R => SetInt(s, i.dst, Xor(d, Source(i, s, SignExtend(i.imm))))
    case IXOR_M => SetInt(s, i.dst, Xor(d, LoadInt(i, s)))
    case IROR_R => SetInt(s, i.dst, Ror(d, Source(i, s, i.imm) % 64))
    case IROL_R => SetInt(s, i.dst, Rol(d, Source(i, s, i.imm) % 64))
    case ISWAP_R => s.(r := s.r[i.dst := s.r[i.src]][i.src := d])
    case FSWAP_R =>
      if i.dst < 4 then SetF(s, i.dst, Double2(s.f[i.dst].hi, s.f[i.dst].lo))
      else SetE(s, i.dst - 4, Double2(s.e[i.dst - 4].hi, s.e[i.dst - 4].lo))
    case FADD_R => SetF(s, d4, Lift2(m.add, s.rounding, s.f[d4], m.a[i.src % 4]))
    case FADD_M => SetF(s, d4, Lift2(m.add, s.rounding, s.f[d4], LoadPair(m, i, s)))
    case FSUB_R => SetF(s, d4, Lift2(m.sub, s.rounding, s.f[d4], m.a[i.src % 4]))
    case FSUB_M => SetF(s, d4, Lift2(m.sub, s.rounding, s.f[d4], LoadPair(m, i, s)))
    case FSCAL_R => SetF(s, d4, Double2(Xor(s.f[d4].lo, SCALE), Xor(s.f[d4].hi, SCALE)))
    case FMUL_R => SetE(s, d4, Lift2(m.mul, s.rounding, s.e[d4], m.a[i.src % 4]))
    case FDIV_M =>
      var q := LoadPair(m, i, s);
      SetE(s, d4, Lift2(m.div, s.rounding, s.e[d4], Double2(m.mask(q.lo, m.eMaskLo), m.mask(q.hi, m.eMaskHi))))
    case FSQRT_R => SetE(s, d4, Double2(m.sqrt(s.rounding, s.e[d4].lo), m.sqrt(s.rounding, s.e[d4].hi)))
    case CFROUND => s.(rounding := Ror(s.r[i.src], i.imm % 64) % 4)
    case ISTORE => s.(mem := s.mem[WordIndex(d, i.imm, StoreLevel(i)) := s.r[i.src]])
    case NOP => s
  }

  function BranchShift(i: Instr): (k: nat)
    ensures 8 <= k <= 23
  {
    i.ModCond() + 8
  }

  function BranchImm(i: Instr): Word {
    ClearBit(SetBit(SignExtend(i.imm), BranchShift(i)), BranchShift(i) - 1)
  }

  // A branch is taken when the eight condition bits of the sum are all zero.
  predicate Taken(i: Instr, sum: Word) {
    sum / Pow2(BranchShift(i)) % 256 == 0
  }

  function BranchAdd(i: Instr, s: State): State {
    SetInt(s, i.dst, Add(s.r[i.dst], BranchImm(i)))
  }
}
