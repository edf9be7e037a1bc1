// A processor for the code emitted for the main program: register and memory
// words, the test and the two branches of a CBRANCH, and literal loads. Words of
// the vector unit are a parameter (src/jit_compiler_a64.cpp).
module JitMachine {
  import opened Words
  import opened Arith
  import opened Bits
  import opened A64
  import opened Vm
  import opened JitOperands
  import opened JitInteger
  import opened Iteration

  datatype Fpu = Fpu(f: seq<Double2>, e: seq<Double2>, rounding: nat)

  // pc counts words; `zero` is the condition flag that tst sets.
  datatype Core = Core(pc: int, zero: bool, cpu: Cpu, fpu: Fpu)

  // What the words not listed here do.
  type VectorUnit = (U32, Core) -> Core

  datatype Control =
    | TestByte(n: RegNo, shift: nat)      // tst n, #(0xFF << shift)
    | SkipUnlessZero(offset: int)         // b.ne
    | GoTo(offset: int)                   // b
    | LoadFrom(d: RegNo, offset: int)     // ldr d, literal
    | Ordinary

  function ControlOf(w: U32): Control {
    var top := Top(w);
    if top == 0x793 && w / 0x400 % 64 == 7 && w % 32 == 31 then TestByte(w / 32 % 32, 32 - w / 0x1_0000 % 32)
    else if top / 8 == 0x54 && w % 32 == 1 then SkipUnlessZero(SignedField(w / 32 % 0x8_0000, 0x8_0000))
    else if top / 32 == 5 then GoTo(SignedField(w % 0x400_0000, 0x400_0000))
    else if top / 8 == 0x58 then LoadFrom(w % 32, SignedField(w / 32 % 0x8_0000, 0x8_0000))
    else Ordinary
  }

  function CoreStep(unit: VectorUnit, code: seq<U32>, c: Core): Core {
    if !(0 <= c.pc < |code|) then c
    else
      var w := code[c.pc];
      match ControlOf(w)
      case TestByte(n, k) => c.(pc := c.pc + 1, zero := Get(c.cpu.x, n) / Pow2(k) % 256 == 0)
      case SkipUnlessZero(offset) => c.(pc := c.pc + if c.zero then 1 else offset)
      case GoTo(offset) => c.(pc := c.pc + offset)
      case LoadFrom(d, offset) =>
        var at := c.pc + offset;
        if 0 <= at && at + 1 < |code|
        then c.(pc := c.pc + 1, cpu := c.cpu.(x := Set(c.cpu.x, d, code[at] + TWO32 * code[at + 1]))) else c
      case Ordinary =>
        if DecodeMem(w) == Plain(Unknown) then unit(w, c) else c.(pc := c.pc + 1, cpu := Step(c.cpu, w))
  }

  function Stepper(unit: VectorUnit, code: seq<U32>): Core -> Core {
    (c: Core) => CoreStep(unit, code, c)
  }

  function CoreN(unit: VectorUnit, code: seq<U32>, n: nat, c: Core): Core { Iterate(Stepper(unit, code), n, c) }

  lemma CoreAdd(unit: VectorUnit, code: seq<U32>, a: nat, b: nat, c: Core)
    ensures CoreN(unit, code, a + b, c) == CoreN(unit, code, b, CoreN(unit, code, a, c))
  {
    IterateAdd(Stepper(unit, code), a, b, c);
  }

  lemma CoreOne(unit: VectorUnit, code: seq<U32>, c: Core)
    ensures CoreN(unit, code, 1, c) == CoreStep(unit, code, c) && CoreN(unit, code, 0, c) == c
  {
    var f := Stepper(unit, code);
    assert Iterate(f, 1, c) == Iterate(f, 0, f(c));
  }

  // ---- straight-line words ----

  // A register or memory word.
  predicate Known(w: U32) { ControlOf(w).Ordinary? && DecodeMem(w) != Plain(Unknown) }

  ghost predicate AllKnown(ws: seq<U32>) { forall k :: 0 <= k < |ws| ==> Known(ws[k]) }

  // The words ws stand in the code from index `at` on.
  ghost predicate Placed(code: seq<U32>, at: int, ws: seq<U32>) {
    0 <= at && at + |ws| <= |code| && code[at..at + |ws|] == ws
  }

  lemma PlacedParts(code: seq<U32>, at: int, a: seq<U32>, b: seq<U32>)
    ensures Placed(code, at, a + b) <==> Placed(code, at, a) && Placed(code, at + |a|, b)
  {
    if Placed(code, at, a + b) {
      assert code[at..at + |a|] == (a + b)[..|a|];
      assert code[at + |a|..at + |a| + |b|] == (a + b)[|a|..];
    }
    if Placed(code, at, a) && Placed(code, at + |a|, b) {
      assert code[at..at + |a| + |b|] == code[at..at + |a|] + code[at + |a|..at + |a| + |b|];
    }
  }

  lemma {:induction false} PerformRuns(unit: VectorUnit, code: seq<U32>, ws: seq<U32>, c: Core)
    requires Placed(code, c.pc, ws) && AllKnown(ws)
    ensures CoreN(unit, code, |ws|, c) == c.(pc := c.pc + |ws|, cpu := Perform(c.cpu, ws))
    decreases |ws|
  {
    hide ControlOf, DecodeMem, Step, CoreN;
    CoreOne(unit, code, c);
    if ws != [] {
      assert code[c.pc] == code[c.pc..c.pc + |ws|][0] == ws[0] && Known(ws[0]);
      var y := c.(pc := c.pc + 1, cpu := Step(c.cpu, ws[0]));
      assert code[y.pc..y.pc + |ws| - 1] == code[c.pc..c.pc + |ws|][1..] == ws[1..];
      PerformRuns(unit, code, ws[1..], y);
      CoreAdd(unit, code, 1, |ws| - 1, c);
    }
  }

  // ---- which words are register or memory words ----

  lemma OrdinaryTop(w: U32)
    requires Top(w) != 0x793 && Top(w) / 8 != 0x54 && Top(w) / 8 != 0x58 && Top(w) / 32 != 5
    ensures ControlOf(w).Ordinary?
  {
    hide Top;
  }

  lemma KnownOp3(op: U32, d: RegNo, n: RegNo, amount: nat, m: RegNo)
    requires IsOp3(op, amount)
    ensures Known(Op3(op, d, n, amount, m))
  {
    hide Op3, Decode, DecodeMem, Top, ControlOf;
    var w := Op3(op, d, n, amount, m);
    Op3Top(op, d, n, amount, m);
    OrdinaryTop(w);
    PlainWord(w);
    DecodeOp3(op, d, n, amount, m);
  }

  lemma KnownMove(op: U32, d: RegNo, high: bool, imm: Imm16)
    requires op in {MOVZ, MOVN, MOVK}
    ensures Known(Move(op, d, high, imm))
  {
    hide Move, Decode, DecodeMem, Top, ControlOf;
    var w := Move(op, d, high, imm);
    MoveTop(op, d, high, imm);
    OrdinaryTop(w);
    PlainWord(w);
    DecodeMove(op, d, high, imm);
  }

  lemma KnownAddImm(op: U32, d: RegNo, n: RegNo, imm: nat)
    requires (op == ADD_IMM_LO || op == ADD_IMM_HI) && imm < 0x1000
    ensures Known(AddImm(op, d, n, imm))
  {
    hide AddImm, Decode, DecodeMem, Top, ControlOf;
    var w := AddImm(op, d, n, imm);
    AddImmTop(op, d, n, imm);
    OrdinaryTop(w);
    PlainWord(w);
    DecodeAdd(op, d, n, imm);
  }

  lemma KnownLane(signed: bool, d: RegNo, lane: nat)
    requires lane < 64
    ensures Known(LaneMove(signed, d, lane))
  {
    hide LaneMove, ControlOf, Decode;
    var w := LaneMove(signed, d, lane);
    Fields(w, if signed then 0x270 else 0x070, 4 + 8 * (lane % 4), if signed then 11 else 15, lane / 4, d);
    OrdinaryTop(w);
  }

  lemma KnownMask(d: RegNo, n: RegNo, log2: nat)
    requires 4 <= log2 <= 21
    ensures Known(MaskTo(d, n, log2))
  {
    hide MaskTo, ControlOf, Decode;
    var w := MaskTo(d, n, log2);
    Fields(w, 0x493, 29, log2 - 4, n, d);
    OrdinaryTop(w);
  }

  lemma KnownAccess(d: RegNo, m: RegNo, scaled: bool)
    ensures Known(LoadWord(d, m, scaled)) && Known(StoreWord(d, m)) && Known(CopyWord(d, m))
  {
    hide LoadWord, StoreWord, CopyWord, ControlOf, Decode;
    Fields(LoadWord(d, m, scaled), 0x7C3, m, if scaled then 30 else 26, 2, d);
    OrdinaryTop(LoadWord(d, m, scaled));
    Fields(StoreWord(d, m), 0x7C1, m, 26, 2, d);
    OrdinaryTop(StoreWord(d, m));
    Fields(CopyWord(d, m), 0x550, m, 0, 31, d);
    OrdinaryTop(CopyWord(d, m));
  }

  lemma KnownMovImmediate(d: RegNo, imm: U32, pool: seq<U32>)
    ensures AllKnown(MovImmediate(d, imm, pool).words)
  {
    hide Known, Move, LaneMove;
    if imm < 0x1_0000 {
      KnownMove(MOVZ, d, false, imm);
    } else if |pool| < 64 {
      KnownLane(imm >= TWO31, d, |pool|);
    } else {
      if imm < TWO31 { KnownMove(MOVZ, d, true, imm / 0x1_0000); }
      else { KnownMove(MOVN, d, true, (TWO32 - 1 - imm) / 0x1_0000); }
      KnownMove(MOVK, d, false, imm % 0x1_0000);
    }
  }

  lemma KnownAddSmall(d: RegNo, n: RegNo, imm: U32)
    requires imm < 0x100_0000
    ensures AllKnown(AddSmall(d, n, imm))
  {
    hide Known, AddImm;
    var lo, hi := imm % 0x1000, imm / 0x1000;
    KnownAddImm(ADD_IMM_LO, d, n, lo);
    KnownAddImm(ADD_IMM_HI, d, n, hi);
    KnownAddImm(ADD_IMM_HI, d, d, hi);
  }

  lemma KnownAddImmediate(d: RegNo, n: RegNo, imm: U32, tmp: RegNo, pool: seq<U32>)
    ensures AllKnown(AddImmediate(d, n, imm, tmp, pool).words)
  {
    hide Known, AddSmall, MovImmediate, Op3;
    if imm < 0x100_0000 {
      KnownAddSmall(d, n, imm);
    } else {
      KnownMovImmediate(tmp, imm, pool);
      KnownOp3(ADD, d, n, 0, tmp);
    }
  }

  lemma KnownMemLoad(d: RegNo, s: RegNo, i: Instr, pool: seq<U32>)
    ensures AllKnown(MemLoad(d, s, i, pool).words)
  {
    hide Known, AddImmediate, MovImmediate, MaskTo, LoadWord;
    KnownAccess(TMP, TMP, s == d);
    if s != d {
      var size := LoadLevel(i);
      KnownAddImmediate(TMP, s, i.imm % size, TMP, pool);
      KnownMask(TMP, if i.imm % size != 0 then TMP else s, Log2(size));
    } else {
      KnownMovImmediate(TMP, i.imm % L3 / 8, pool);
    }
  }

  lemma KnownMemStore(d: RegNo, s: RegNo, i: Instr, pool: seq<U32>)
    ensures AllKnown(MemStore(d, s, i, pool).words)
  {
    hide Known, AddImmediate, MaskTo, StoreWord;
    KnownAccess(s, TMP, false);
    KnownAddImmediate(TMP, d, i.imm % StoreLevel(i), TMP, pool);
    KnownMask(TMP, TMP, Log2(StoreLevel(i)));
  }

  lemma KnownSubImmediate(d: RegNo, imm: U32, pool: seq<U32>)
    ensures AllKnown(SubImmediate(d, imm, pool).words)
  {
    hide Known, Move, Op3, AddImmediate;
    KnownMove(MOVZ, TMP, true, 0x8000);
    KnownOp3(ADD, d, d, 0, TMP);
    KnownAddImmediate(d, d, (TWO32 - imm) % TWO32, TMP, pool);
  }

  // Every word of an integer instruction is a register or memory word.
  lemma KnownInteger(i: Instr, pool: seq<U32>)
    requires IsInteger(i)
    ensures AllKnown(IntWords(i, pool).words)
  {
    hide Known, Op3, CopyWord, MemLoad, MemStore, MovImmediate, AddImmediate, SubImmediate;
    var d, s := X(i.dst), X(i.src);
    forall op: U32, dd: RegNo, n: RegNo, k: nat, m: RegNo | IsOp3(op, k) ensures Known(Op3(op, dd, n, k, m)) {
      KnownOp3(op, dd, n, k, m);
    }
    forall dd: RegNo, m: RegNo ensures Known(CopyWord(dd, m)) { KnownAccess(dd, m, false); }
    KnownAddImmediate(d, d, i.imm, TMP, pool);
    KnownSubImmediate(d, i.imm, pool);
    KnownMovImmediate(TMP, i.imm, pool);
    KnownMemLoad(d, s, i, pool);
    KnownMemStore(d, s, i, pool);
  }
}
