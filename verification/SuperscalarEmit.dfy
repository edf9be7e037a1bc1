// The machine code emitted for superscalar programs, and the proof that it
// computes what the interpreter computes (src/jit_compiler_a64.cpp,
// src/jit_dataset_2way.cpp).
module SuperscalarEmit {
  import opened Words
  import opened Arith
  import opened A64
  import opened Superscalar

  // Where a stream keeps its eight registers and its temporaries. The one-way
  // emitter loads every constant with two moves; the two-way emitter uses the
  // shortest form.
  datatype Stream = Stream(first: nat, tmp: RegNo, addTmp: RegNo, short: bool)

  const ONE_WAY := Stream(0, 12, 13, false)
  const STREAM_A := Stream(0, 12, 12, true)
  const STREAM_B := Stream(19, 16, 16, true)

  predicate IsStream(t: Stream) { t == ONE_WAY || t == STREAM_A || t == STREAM_B }

  function Phys(t: Stream, k: Reg): RegNo
    requires IsStream(t)
  {
    t.first + k
  }

  function View(t: Stream, x: Regs): RegFile
    requires IsStream(t)
  {
    seq(8, k requires 0 <= k < 8 => x[t.first + k])
  }

  // ---- emission ----

  // The 19-bit field: wrapping unsigned difference, divided by four, masked.
  function Offset(lit: nat, pos: nat): (o: nat)
    ensures o < 0x8_0000
  {
    (lit - pos) % TWO32 / 4 % 0x8_0000
  }

  function MoveShort(d: RegNo, imm: U32): seq<U32> {
    if imm < 0x1_0000 then [Move(MOVZ, d, false, imm)] else MoveConstant(d, imm)
  }

  function LoadConstant(t: Stream, d: RegNo, imm: U32): seq<U32> {
    if t.short then MoveShort(d, imm) else MoveConstant(d, imm)
  }

  function AddConstant(t: Stream, d: RegNo, imm: U32): seq<U32> {
    if t.short && imm < 0x100_0000 then AddSmall(d, d, imm)
    else LoadConstant(t, t.addTmp, imm) + [Op3(ADD, d, d, 0, t.addTmp)]
  }

  // One instruction, emitted at byte position pos with the literal cursor at lit.
  function Emit(t: Stream, i: Instr, pos: nat, lit: nat): (ws: seq<U32>)
    requires IsStream(t)
    ensures 1 <= |ws| <= 3
  {
    var d, s := Phys(t, i.dst), Phys(t, i.src);
    match i.op
    case ISUB_R => [Op3(SUB, d, d, 0, s)]
    case IXOR_R => [Op3(EOR, d, d, 0, s)]
    case IADD_RS => [Op3(ADD, d, d, i.ModShift(), s)]
    case IMUL_R => [Op3(MUL, d, d, 0, s)]
    case IROR_C => [Op3(ROR_IMM, d, d, i.imm % 64, d)]
    case IADD_C7 | IADD_C8 | IADD_C9 => AddConstant(t, d, i.imm)
    case IXOR_C7 | IXOR_C8 | IXOR_C9 => LoadConstant(t, t.tmp, i.imm) + [Op3(EOR, d, d, 0, t.tmp)]
    case IMULH_R => [Op3(UMULH, d, d, 0, s)]
    case ISMULH_R => [Op3(SMULH, d, d, 0, s)]
    case IMUL_RCP => [LoadLiteral(t.tmp, Offset(lit, pos)), Op3(MUL, d, d, 0, t.tmp)]
  }

  // ---- what emitted words do ----

  // x and y differ at most in the destination and the temporaries of a stream.
  ghost predicate Frame(t: Stream, d: RegNo, x: Regs, y: Regs) {
    forall k :: 0 <= k < 32 && k != d && k != t.tmp && k != t.addTmp ==> y[k] == x[k]
  }

  ghost predicate At(code: seq<U32>, at: nat, ws: seq<U32>) {
    at + |ws| <= |code| && code[at..at + |ws|] == ws
  }

  lemma AluStep(code: seq<U32>, at: nat, op: U32, d: RegNo, n: RegNo, amount: nat, m: RegNo, x: Regs)
    requires op in {SUB, EOR, ADD, MUL, UMULH, SMULH, ROR_IMM}
    requires amount < 64 && (op != ADD && op != ROR_IMM ==> amount == 0) && op <= 0xCB00_7C00
    requires at < |code| && code[at] == Op3(op, d, n, amount, m)
    ensures Execute(code, at, x) == Execute(code, at + 1, Set(x, d, AluValue(op, Get(x, n), Get(x, m), amount)))
  {
    hide Decode, AluValue, Op3;
    DecodeOp3(op, d, n, amount, m);
  }

  lemma MoveStep(code: seq<U32>, at: nat, op: U32, d: RegNo, high: bool, imm: Imm16, x: Regs)
    requires op in {MOVZ, MOVN, MOVK} && op <= MOVK && at < |code| && code[at] == Move(op, d, high, imm)
    ensures Execute(code, at, x) == Execute(code, at + 1, Set(x, d, MoveValue(op, Get(x, d), imm, high)))
  {
    hide Decode, MoveValue, Move;
    DecodeMove(op, d, high, imm);
  }

  lemma LoadConstantStep(code: seq<U32>, at: nat, d: RegNo, imm: U32, x: Regs)
    requires d < 31 && At(code, at, MoveConstant(d, imm))
    ensures Execute(code, at, x) == Execute(code, at + 2, x[d := SignExtend(imm)])
  {
    hide Execute, MoveValue, Move;
    var ws := MoveConstant(d, imm);
    assert code[at] == ws[0] && code[at + 1] == code[at..at + 2][1] == ws[1];
    var high := if imm < TWO31 then MoveValue(MOVZ, x[d], imm / 0x1_0000, true)
                else MoveValue(MOVN, x[d], (TWO32 - 1 - imm) / 0x1_0000, true);
    if imm < TWO31 {
      MoveStep(code, at, MOVZ, d, true, imm / 0x1_0000, x);
    } else {
      MoveStep(code, at, MOVN, d, true, (TWO32 - 1 - imm) / 0x1_0000, x);
    }
    MoveStep(code, at + 1, MOVK, d, false, imm % 0x1_0000, x[d := high]);
    ConstantMoved(x[d], imm);
    assert x[d := high][d := SignExtend(imm)] == x[d := SignExtend(imm)];
  }

  lemma LoadShortStep(code: seq<U32>, at: nat, d: RegNo, imm: U32, x: Regs)
    requires d < 31 && At(code, at, MoveShort(d, imm))
    ensures Execute(code, at, x) == Execute(code, at + |MoveShort(d, imm)|, x[d := SignExtend(imm)])
  {
    hide Execute, Move;
    if imm < 0x1_0000 {
      assert code[at] == MoveShort(d, imm)[0];
      MoveStep(code, at, MOVZ, d, false, imm, x);
    } else {
      LoadConstantStep(code, at, d, imm, x);
    }
  }

  lemma AddLowStep(code: seq<U32>, at: nat, d: RegNo, n: RegNo, imm: nat, x: Regs)
    requires d < 31 && n < 31 && imm < 0x1000 && at < |code| && code[at] == AddImm(ADD_IMM_LO, d, n, imm)
    ensures Execute(code, at, x) == Execute(code, at + 1, x[d := (x[n] + imm) % TWO64])
  {
    hide Decode, AddImm;
    DecodeAdd(ADD_IMM_LO, d, n, imm);
  }

  lemma AddHighStep(code: seq<U32>, at: nat, d: RegNo, n: RegNo, imm: nat, x: Regs)
    requires d < 31 && n < 31 && imm < 0x1000 && at < |code| && code[at] == AddImm(ADD_IMM_HI, d, n, imm)
    ensures Execute(code, at, x) == Execute(code, at + 1, x[d := (x[n] + imm * 0x1000) % TWO64])
  {
    hide Decode, AddImm;
    DecodeAdd(ADD_IMM_HI, d, n, imm);
  }

  lemma AddSmallStep(code: seq<U32>, at: nat, d: RegNo, n: RegNo, imm: U32, x: Regs)
    requires d < 31 && n < 31 && imm < 0x100_0000 && At(code, at, AddSmall(d, n, imm))
    ensures Execute(code, at, x) == Execute(code, at + |AddSmall(d, n, imm)|, x[d := Add(x[n], SignExtend(imm))])
  {
    hide Execute, AddImm, Add, SignExtend;
    TwoAdds(x[n], imm);
    var lo, hi := imm % 0x1000, imm / 0x1000;
    var ws := AddSmall(d, n, imm);
    assert code[at] == ws[0] && (|ws| == 2 ==> code[at + 1] == code[at..at + 2][1] == ws[1]);
    if lo != 0 {
      AddLowStep(code, at, d, n, lo, x);
      if hi != 0 {
        var y := x[d := (x[n] + lo) % TWO64];
        AddHighStep(code, at + 1, d, d, hi, y);
        assert y[d := (y[d] + hi * 0x1000) % TWO64] == x[d := Add(x[n], SignExtend(imm))];
      }
    } else {
      AddHighStep(code, at, d, n, hi, x);
    }
  }

  lemma OffsetReaches(lit: nat, pos: nat)
    requires lit < pos <= lit + 0x10_0000 && (pos - lit) % 4 == 0
    ensures SignedField(Offset(lit, pos), 0x8_0000) == -((pos - lit) / 4)
  {
    var n := (pos - lit) / 4;
    assert (lit - pos) % TWO32 == TWO32 - 4 * n;
    assert (TWO32 - 4 * n) / 4 == 0x4000_0000 - n;
    assert (0x4000_0000 - n) % 0x8_0000 == 0x8_0000 - n;
  }

  lemma LiteralStep(code: seq<U32>, base: nat, at: nat, lit: nat, d: RegNo, x: Regs)
    requires d < 31 && lit + 1 < at <= lit + 0x4_0000 && at < |code|
    requires code[at] == LoadLiteral(d, Offset(base + 4 * lit, base + 4 * at))
    ensures Execute(code, at, x) == Execute(code, at + 1, x[d := code[lit] + TWO32 * code[lit + 1]])
  {
    hide Decode, LoadLiteral, Offset;
    DecodeLiteral(d, Offset(base + 4 * lit, base + 4 * at));
    OffsetReaches(base + 4 * lit, base + 4 * at);
  }

  // ---- one emitted instruction ----

  ghost predicate Simulated(t: Stream, code: seq<U32>, at: nat, n: nat, d: RegNo, x: Regs, y: Regs, v: Word)
    requires IsStream(t)
  {
    && Execute(code, at, x) == Execute(code, at + n, y)
    && y[d] == v && Frame(t, d, x, y)
  }

  lemma AddConstantStep(t: Stream, code: seq<U32>, at: nat, d: RegNo, imm: U32, x: Regs) returns (y: Regs)
    requires IsStream(t) && d < 31 && d != t.addTmp && At(code, at, AddConstant(t, d, imm))
    ensures Simulated(t, code, at, |AddConstant(t, d, imm)|, d, x, y, Add(x[d], SignExtend(imm)))
  {
    hide Execute, Op3, AddSmall, MoveShort, MoveConstant, Add, SignExtend;
    if t.short && imm < 0x100_0000 {
      AddSmallStep(code, at, d, d, imm, x);
      y := x[d := Add(x[d], SignExtend(imm))];
    } else {
      var ws := LoadConstant(t, t.addTmp, imm);
      LoadThen(code, at, ws, Op3(ADD, d, d, 0, t.addTmp));
      if t.short {
        LoadShortStep(code, at, t.addTmp, imm, x);
      } else {
        LoadConstantLength(t.addTmp, imm);
        LoadConstantStep(code, at, t.addTmp, imm, x);
      }
      var z := x[t.addTmp := SignExtend(imm)];
      AluStep(code, at + |ws|, ADD, d, d, 0, t.addTmp, z);
      PlainAdd(z[d], z[t.addTmp]);
      y := z[d := Add(x[d], SignExtend(imm))];
    }
  }

  lemma LoadConstantLength(d: RegNo, imm: U32)
    ensures |MoveConstant(d, imm)| == 2
  {
  }

  lemma LoadThen(code: seq<U32>, at: nat, ws: seq<U32>, w: U32)
    requires At(code, at, ws + [w])
    ensures At(code, at, ws) && code[at + |ws|] == w
  {
    assert code[at + |ws|] == code[at..at + |ws| + 1][|ws|];
    assert code[at..at + |ws|] == code[at..at + |ws| + 1][..|ws|];
  }

  lemma XorConstantStep(t: Stream, code: seq<U32>, at: nat, d: RegNo, imm: U32, x: Regs) returns (y: Regs)
    requires IsStream(t) && d < 31 && d != t.tmp
    requires At(code, at, LoadConstant(t, t.tmp, imm) + [Op3(EOR, d, d, 0, t.tmp)])
    ensures Simulated(t, code, at, |LoadConstant(t, t.tmp, imm)| + 1, d, x, y, Xor(x[d], SignExtend(imm)))
  {
    hide Execute, Op3, MoveShort, MoveConstant, Xor, SignExtend;
    var ws := LoadConstant(t, t.tmp, imm);
    LoadThen(code, at, ws, Op3(EOR, d, d, 0, t.tmp));
    if t.short {
      LoadShortStep(code, at, t.tmp, imm, x);
    } else {
      LoadConstantLength(t.tmp, imm);
      LoadConstantStep(code, at, t.tmp, imm, x);
    }
    var z := x[t.tmp := SignExtend(imm)];
    AluStep(code, at + |ws|, EOR, d, d, 0, t.tmp, z);
    y := z[d := Xor(x[d], SignExtend(imm))];
  }

  // What the literal cursor must name for an instruction emitted at word `at`.
  ghost predicate LiteralOk(i: Instr, code: seq<U32>, at: nat, lit: nat, rcp: seq<Word>) {
    i.Rcp() ==>
      && i.imm < |rcp| && lit + 1 < at <= lit + 0x4_0000 && at < |code|
      && code[lit] + TWO32 * code[lit + 1] == rcp[i.imm]
  }

  // Instructions emitted as one three-register word.
  predicate OneWord(i: Instr) { !i.AddsConstant() && !i.XorsConstant() && !i.Rcp() }

  function AluOp(i: Instr): (op: U32)
    ensures op in {SUB, EOR, ADD, MUL, UMULH, SMULH, ROR_IMM}
  {
    match i.op
    case ISUB_R => SUB
    case IADD_RS => ADD
    case IMUL_R => MUL
    case IROR_C => ROR_IMM
    case IMULH_R => UMULH
    case ISMULH_R => SMULH
    case _ => EOR
  }

  function Amount(i: Instr): (k: nat)
    ensures k < 64
  {
    if i.op == IADD_RS then i.ModShift() else if i.op == IROR_C then i.imm % 64 else 0
  }

  lemma EmitOneWord(t: Stream, i: Instr, pos: nat, lit: nat)
    requires IsStream(t) && OneWord(i)
    ensures var d, s := Phys(t, i.dst), Phys(t, i.src);
            && AluOp(i) <= 0xCB00_7C00
            && Emit(t, i, pos, lit) == [Op3(AluOp(i), d, d, Amount(i), if i.op == IROR_C then d else s)]
  {
    hide Op3;
  }

  lemma ValueOneWord(i: Instr, a: Word, b: Word, rcp: seq<Word>)
    requires OneWord(i)
    ensures Value(i, a, b, rcp) == AluValue(AluOp(i), a, if i.op == IROR_C then a else b, Amount(i))
  {
    hide Mul, MulHigh, SignedMulHigh, Xor, Sub, Add, Shl, Extract, Ror;
    ExtractRotates(a, i.imm);
  }

  lemma EmitOthers(t: Stream, i: Instr, pos: nat, lit: nat)
    requires IsStream(t)
    ensures var d, ws := Phys(t, i.dst), Emit(t, i, pos, lit);
            && (i.AddsConstant() ==> ws == AddConstant(t, d, i.imm))
            && (i.XorsConstant() ==> ws == LoadConstant(t, t.tmp, i.imm) + [Op3(EOR, d, d, 0, t.tmp)])
            && (i.Rcp() ==> ws == [LoadLiteral(t.tmp, Offset(lit, pos)), Op3(MUL, d, d, 0, t.tmp)])
  {
    hide AddConstant, LoadConstant, Offset, Op3, LoadLiteral;
  }

  lemma ValueOthers(i: Instr, a: Word, b: Word, rcp: seq<Word>)
    requires i.Rcp() ==> i.imm < |rcp|
    ensures i.AddsConstant() ==> Value(i, a, b, rcp) == Add(a, SignExtend(i.imm))
    ensures i.XorsConstant() ==> Value(i, a, b, rcp) == Xor(a, SignExtend(i.imm))
    ensures i.Rcp() ==> Value(i, a, b, rcp) == Mul(a, rcp[i.imm])
  {
    hide Mul, Xor, Add, SignExtend;
  }

  lemma RcpStep(t: Stream, code: seq<U32>, base: nat, at: nat, lit: nat, d: RegNo, v: Word, x: Regs) returns (y: Regs)
    requires IsStream(t) && d < 31 && d != t.tmp && lit + 1 < at <= lit + 0x4_0000
    requires At(code, at, [LoadLiteral(t.tmp, Offset(base + 4 * lit, base + 4 * at)), Op3(MUL, d, d, 0, t.tmp)])
    requires code[lit] + TWO32 * code[lit + 1] == v
    ensures Simulated(t, code, at, 2, d, x, y, Mul(x[d], v))
  {
    hide Execute, Op3, LoadLiteral, Offset, Mul;
    assert code[at] == code[at..at + 2][0] && code[at + 1] == code[at..at + 2][1];
    LiteralStep(code, base, at, lit, t.tmp, x);
    var z := x[t.tmp := v];
    AluStep(code, at + 1, MUL, d, d, 0, t.tmp, z);
    y := z[d := Mul(x[d], v)];
  }

  lemma ValueSimulated(t: Stream, i: Instr, code: seq<U32>, base: nat, at: nat, lit: nat, x: Regs, rcp: seq<Word>)
    returns (y: Regs)
    requires IsStream(t) && LiteralOk(i, code, at, lit, rcp)
    requires At(code, at, Emit(t, i, base + 4 * at, base + 4 * lit))
    ensures var d, s := Phys(t, i.dst), Phys(t, i.src);
            Simulated(t, code, at, |Emit(t, i, base + 4 * at, base + 4 * lit)|, d, x, y, Value(i, x[d], x[s], rcp))
  {
    hide Execute, Op3, LoadLiteral, Offset, AddConstant, LoadConstant, Emit, Value, Mul, Add, Xor, SignExtend, AluValue;
    var d, s := Phys(t, i.dst), Phys(t, i.src);
    EmitOthers(t, i, base + 4 * at, base + 4 * lit);
    ValueOthers(i, x[d], x[s], rcp);
    if i.AddsConstant() {
      y := AddConstantStep(t, code, at, d, i.imm, x);
    } else if i.XorsConstant() {
      y := XorConstantStep(t, code, at, d, i.imm, x);
    } else if i.Rcp() {
      y := RcpStep(t, code, base, at, lit, d, rcp[i.imm], x);
    } else {
      y := x[d := Value(i, x[d], x[s], rcp)];
      EmitOneWord(t, i, base + 4 * at, base + 4 * lit);
      ValueOneWord(i, x[d], x[s], rcp);
      assert code[at] == code[at..at + 1][0];
      AluStep(code, at, AluOp(i), d, d, Amount(i), if i.op == IROR_C then d else s, x);
    }
  }

  lemma EmitSimulates(t: Stream, i: Instr, code: seq<U32>, base: nat, at: nat, lit: nat, x: Regs, rcp: seq<Word>)
    returns (y: Regs)
    requires IsStream(t) && LiteralOk(i, code, at, lit, rcp)
    requires At(code, at, Emit(t, i, base + 4 * at, base + 4 * lit))
    ensures Execute(code, at, x) == Execute(code, at + |Emit(t, i, base + 4 * at, base + 4 * lit)|, y)
    ensures View(t, y) == Exec(i, View(t, x), rcp) && Frame(t, Phys(t, i.dst), x, y)
  {
    hide Execute, Emit, Value;
    y := ValueSimulated(t, i, code, base, at, lit, x, rcp);
  }
}
