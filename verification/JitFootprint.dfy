// The scheduler's footprints against the emitted code: the registers an integer
// instruction is said to read and write are exactly those its words read and
// write, and it is said to use memory exactly when a word does
// (src/jit_compiler_a64.cpp).
module JitFootprint {
  import opened Words
  import opened A64
  import opened Vm
  import opened Footprint
  import opened JitOperands
  import opened JitInteger

  // The registers a word reads; register 31 is none.
  function WordReads(w: U32): set<RegNo> {
    var s: set<RegNo> :=
      match DecodeMem(w)
      case Lane(_, _, _) => {}
      case Mask(_, n, _) => {n}
      case Load(_, m, _) => {m}
      case Store(s, m) => {s, m}
      case Copy(_, m) => {m}
      case Plain(Alu(_, _, n, m, _)) => {n, m}
      case Plain(Mov(op, d, _, _)) => if op == MOVK then {d} else {}
      case Plain(AddConst(_, n, _)) => {n}
      case Plain(_) => {};
    s - {31}
  }

  function WordWrites(w: U32): set<RegNo> {
    match DecodeMem(w)
    case Lane(d, _, _) => {d}
    case Mask(d, _, _) => {d}
    case Load(d, _, _) => {d}
    case Store(_, _) => {}
    case Copy(d, _) => {d}
    case Plain(Alu(_, d, _, _, _)) => {d}
    case Plain(Mov(_, d, _, _)) => {d}
    case Plain(AddConst(d, _, _)) => {d}
    case Plain(Literal(d, _)) => {d}
    case Plain(_) => {}
  }

  predicate WordTouchesMemory(w: U32) { DecodeMem(w).Load? || DecodeMem(w).Store? }

  // What a sequence of words needs from before, and what it leaves changed.
  datatype Touch = Touch(needs: set<RegNo>, writes: set<RegNo>, memory: bool)

  const NOTHING := Touch({}, {}, false)

  function Then(a: Touch, b: Touch): Touch {
    Touch(a.needs + (b.needs - a.writes), a.writes + b.writes, a.memory || b.memory)
  }

  function TouchOf(w: U32): Touch { Touch(WordReads(w), WordWrites(w), WordTouchesMemory(w)) }

  function Touches(ws: seq<U32>): Touch {
    if ws == [] then NOTHING else Then(TouchOf(ws[0]), Touches(ws[1..]))
  }

  lemma ThenAssoc(a: Touch, b: Touch, c: Touch)
    ensures Then(Then(a, b), c) == Then(a, Then(b, c))
  {
  }

  lemma {:induction false} TouchesConcat(a: seq<U32>, b: seq<U32>)
    ensures Touches(a + b) == Then(Touches(a), Touches(b))
    decreases |a|
  {
    if a == [] {
      assert a + b == b;
    } else {
      assert (a + b)[1..] == a[1..] + b;
      TouchesConcat(a[1..], b);
      ThenAssoc(TouchOf(a[0]), Touches(a[1..]), Touches(b));
    }
  }

  lemma TouchesOne(w: U32)
    ensures Touches([w]) == TouchOf(w)
  {
    assert [w][1..] == [];
    assert TouchOf(w).needs + {} == TouchOf(w).needs;
  }

  // ---- single words ----

  lemma TouchOp3(op: U32, d: RegNo, n: RegNo, amount: nat, m: RegNo)
    requires IsOp3(op, amount)
    ensures TouchOf(Op3(op, d, n, amount, m)) == Touch({n, m} - {31}, {d}, false)
  {
    hide Op3, Decode, DecodeMem, Top;
    Op3Top(op, d, n, amount, m);
    PlainWord(Op3(op, d, n, amount, m));
    DecodeOp3(op, d, n, amount, m);
  }

  lemma TouchMove(op: U32, d: RegNo, high: bool, imm: Imm16)
    requires op in {MOVZ, MOVN, MOVK} && d < 31
    ensures TouchOf(Move(op, d, high, imm)) == Touch(if op == MOVK then {d} else {}, {d}, false)
  {
    hide Move, Decode, DecodeMem, Top;
    MoveTop(op, d, high, imm);
    PlainWord(Move(op, d, high, imm));
    DecodeMove(op, d, high, imm);
  }

  lemma TouchAddImm(op: U32, d: RegNo, n: RegNo, imm: nat)
    requires (op == ADD_IMM_LO || op == ADD_IMM_HI) && imm < 0x1000 && n < 31
    ensures TouchOf(AddImm(op, d, n, imm)) == Touch({n}, {d}, false)
  {
    hide AddImm, Decode, DecodeMem, Top;
    AddImmTop(op, d, n, imm);
    PlainWord(AddImm(op, d, n, imm));
    DecodeAdd(op, d, n, imm);
  }

  lemma TouchLane(signed: bool, d: RegNo, lane: nat)
    requires lane < 64
    ensures TouchOf(LaneMove(signed, d, lane)) == Touch({}, {d}, false)
  {
    hide LaneMove, Decode;
    var w := LaneMove(signed, d, lane);
    Fields(w, if signed then 0x270 else 0x070, 4 + 8 * (lane % 4), if signed then 11 else 15, lane / 4, d);
  }

  lemma TouchMask(d: RegNo, n: RegNo, log2: nat)
    requires 4 <= log2 <= 21 && n < 31
    ensures TouchOf(MaskTo(d, n, log2)) == Touch({n}, {d}, false)
  {
    hide MaskTo, Decode;
    Fields(MaskTo(d, n, log2), 0x493, 29, log2 - 4, n, d);
  }

  lemma TouchAccess(d: RegNo, m: RegNo, scaled: bool)
    requires d < 31 && m < 31
    ensures TouchOf(LoadWord(d, m, scaled)) == Touch({m}, {d}, true)
    ensures TouchOf(StoreWord(d, m)) == Touch({d, m}, {}, true)
    ensures TouchOf(CopyWord(d, m)) == Touch({m}, {d}, false)
  {
    hide LoadWord, StoreWord, CopyWord, Decode;
    Fields(LoadWord(d, m, scaled), 0x7C3, m, if scaled then 30 else 26, 2, d);
    Fields(StoreWord(d, m), 0x7C1, m, 26, 2, d);
    Fields(CopyWord(d, m), 0x550, m, 0, 31, d);
  }

  // ---- operands ----

  lemma TouchTwo(v: U32, w: U32)
    ensures Touches([v, w]) == Then(TouchOf(v), TouchOf(w))
  {
    hide Touches, TouchOf;
    assert [v, w] == [v] + [w];
    TouchesConcat([v], [w]);
    TouchesOne(v);
    TouchesOne(w);
  }

  lemma TouchMovImmediate(d: RegNo, imm: U32, pool: seq<U32>)
    requires d < 31
    ensures Touches(MovImmediate(d, imm, pool).words) == Touch({}, {d}, false)
  {
    hide Touches, TouchOf, Move, LaneMove;
    if imm < 0x1_0000 {
      TouchesOne(Move(MOVZ, d, false, imm));
      TouchMove(MOVZ, d, false, imm);
    } else if |pool| < 64 {
      TouchesOne(LaneMove(imm >= TWO31, d, |pool|));
      TouchLane(imm >= TWO31, d, |pool|);
    } else {
      var ws := MoveConstant(d, imm);
      TouchTwo(ws[0], ws[1]);
      if imm < TWO31 { TouchMove(MOVZ, d, true, imm / 0x1_0000); }
      else { TouchMove(MOVN, d, true, (TWO32 - 1 - imm) / 0x1_0000); }
      TouchMove(MOVK, d, false, imm % 0x1_0000);
    }
  }

  lemma TouchAddSmall(d: RegNo, n: RegNo, imm: U32)
    requires imm < 0x100_0000 && d < 31 && n < 31
    ensures Touches(AddSmall(d, n, imm)) == Touch({n}, {d}, false)
  {
    hide Touches, TouchOf, AddImm;
    var lo, hi := imm % 0x1000, imm / 0x1000;
    TouchAddImm(ADD_IMM_LO, d, n, lo);
    TouchAddImm(ADD_IMM_HI, d, n, hi);
    TouchAddImm(ADD_IMM_HI, d, d, hi);
    TouchesOne(AddImm(ADD_IMM_LO, d, n, lo));
    TouchesOne(AddImm(ADD_IMM_HI, d, n, hi));
    TouchTwo(AddImm(ADD_IMM_LO, d, n, lo), AddImm(ADD_IMM_HI, d, d, hi));
  }

  // The temporary is written only for long immediates.
  lemma TouchAddImmediate(d: RegNo, n: RegNo, imm: U32, pool: seq<U32>)
    requires d < 31 && n < 31 && n != TMP
    ensures var t := Touches(AddImmediate(d, n, imm, TMP, pool).words);
            t.needs == {n} && !t.memory && d in t.writes && t.writes <= {d, TMP}
  {
    hide Touches, AddSmall, MovImmediate, Op3, TouchOf;
    if imm < 0x100_0000 {
      TouchAddSmall(d, n, imm);
    } else {
      var e, w := MovImmediate(TMP, imm, pool), Op3(ADD, d, n, 0, TMP);
      TouchMovImmediate(TMP, imm, pool);
      TouchesConcat(e.words, [w]);
      TouchesOne(w);
      TouchOp3(ADD, d, n, 0, TMP);
    }
  }

  lemma TouchSubImmediate(d: RegNo, imm: U32, pool: seq<U32>)
    requires d < 31 && d != TMP
    ensures var t := Touches(SubImmediate(d, imm, pool).words);
            t.needs == {d} && !t.memory && d in t.writes && t.writes <= {d, TMP}
  {
    hide Touches, AddImmediate, Move, Op3, TouchOf;
    TouchTwo(Move(MOVZ, TMP, true, 0x8000), Op3(ADD, d, d, 0, TMP));
    TouchMove(MOVZ, TMP, true, 0x8000);
    TouchOp3(ADD, d, d, 0, TMP);
    TouchAddImmediate(d, d, (TWO32 - imm) % TWO32, pool);
  }

  // ---- memory operands ----

  lemma TouchMaskLoad(n: RegNo, log2: nat)
    requires 4 <= log2 <= 21 && n < 31
    ensures Touches([MaskTo(TMP, n, log2), LoadWord(TMP, TMP, false)]) == Touch({n}, {TMP}, true)
  {
    hide Touches, TouchOf, MaskTo, LoadWord;
    TouchTwo(MaskTo(TMP, n, log2), LoadWord(TMP, TMP, false));
    TouchMask(TMP, n, log2);
    TouchAccess(TMP, TMP, false);
  }

  lemma TouchMemLoad(d: RegNo, s: RegNo, i: Instr, pool: seq<U32>)
    requires s < 20
    ensures Touches(MemLoad(d, s, i, pool).words) == Touch(if s != d then {s} else {}, {TMP}, true)
  {
    hide Touches, TouchOf, AddSmall, MovImmediate, MaskTo, LoadWord;
    if s != d {
      var size := LoadLevel(i);
      var imm := i.imm % size;
      var n := if imm != 0 then TMP else s;
      var ws := [MaskTo(TMP, n, Log2(size)), LoadWord(TMP, TMP, false)];
      TouchMaskLoad(n, Log2(size));
      if imm != 0 {
        TouchesConcat(AddSmall(TMP, s, imm), ws);
        TouchAddSmall(TMP, s, imm);
      } else {
        assert [] + ws == ws;
      }
    } else {
      var e, w := MovImmediate(TMP, i.imm % L3 / 8, pool), LoadWord(TMP, TMP, true);
      TouchesConcat(e.words, [w]);
      TouchMovImmediate(TMP, i.imm % L3 / 8, pool);
      TouchesOne(w);
      TouchAccess(TMP, TMP, true);
    }
  }

  lemma TouchMemStore(d: RegNo, s: RegNo, i: Instr, pool: seq<U32>)
    requires d < 20 && s < 20
    ensures Touches(MemStore(d, s, i, pool).words) == Touch({d, s}, {TMP}, true)
  {
    hide Touches, TouchOf, AddSmall, MaskTo, StoreWord;
    var size := StoreLevel(i);
    var first := AddSmall(TMP, d, i.imm % size);
    var ws := [MaskTo(TMP, TMP, Log2(size)), StoreWord(s, TMP)];
    TouchesConcat(first, ws);
    TouchAddSmall(TMP, d, i.imm % size);
    TouchTwo(ws[0], ws[1]);
    TouchMask(TMP, TMP, Log2(size));
    TouchAccess(s, TMP, false);
  }

  // ---- instructions ----

  function Xs(s: set<Reg>): set<RegNo> { set r | r in s :: X(r) }

  // The words touch what the footprint says and, apart from the temporary, no more.
  ghost predicate Exact(i: Instr, t: Touch) {
    var a := FootprintOf(i);
    t.needs == Xs(a.intRead) && t.writes - {TMP} == Xs(a.intWrite) && t.memory == a.memory
  }

  // An operation on d with an operand register, or with the temporary that earlier
  // words filled from `from`.
  lemma TouchOne(op: U32, d: RegNo, n: RegNo, amount: nat, m: RegNo)
    requires IsOp3(op, amount)
    ensures Touches([Op3(op, d, n, amount, m)]) == Touch({n, m} - {31}, {d}, false)
  {
    hide Touches, TouchOf, Op3;
    TouchesOne(Op3(op, d, n, amount, m));
    TouchOp3(op, d, n, amount, m);
  }

  lemma TouchOnTemporary(ws: seq<U32>, needs: set<RegNo>, memory: bool, op: U32, d: RegNo)
    requires IsOp3(op, 0) && d < 31 && d != TMP && Touches(ws) == Touch(needs, {TMP}, memory)
    ensures Touches(ws + [Op3(op, d, d, 0, TMP)]) == Touch(needs + {d}, {TMP, d}, memory)
  {
    hide Touches, Op3;
    TouchesConcat(ws, [Op3(op, d, d, 0, TMP)]);
    TouchOne(op, d, d, 0, TMP);
  }

  lemma XsOf(i: Instr)
    ensures Xs({i.dst, i.src}) == {X(i.dst), X(i.src)} && Xs({i.dst}) == {X(i.dst)} && Xs({}) == {}
    ensures X(i.dst) == X(i.src) <==> i.dst == i.src
    ensures X(i.dst) < 16 && X(i.src) < 16
  {
    assert forall r: Reg :: r in {i.dst, i.src} ==> X(r) in Xs({i.dst, i.src});
    assert forall r: Reg :: r in {i.dst} ==> X(r) in Xs({i.dst});
  }

  lemma LoadExact(i: Instr, op: U32, pool: seq<U32>)
    requires IsOp3(op, 0) && i.op in {IADD_M, ISUB_M, IMUL_M, IMULH_M, ISMULH_M, IXOR_M}
    ensures Exact(i, Touches(WithLoad(op, X(i.dst), X(i.src), i, pool).words))
  {
    hide Touches, MemLoad, Op3, Xs, X;
    XsOf(i);
    TouchMemLoad(X(i.dst), X(i.src), i, pool);
    TouchOnTemporary(MemLoad(X(i.dst), X(i.src), i, pool).words,
                     if X(i.src) != X(i.dst) then {X(i.src)} else {}, true, op, X(i.dst));
    assert {TMP, X(i.dst)} - {TMP} == {X(i.dst)};
  }

  lemma SourceExact(i: Instr, op: U32, pool: seq<U32>)
    requires IsOp3(op, 0) && i.op in {IMUL_R, IXOR_R}
    ensures Exact(i, Touches(WithSource(op, X(i.dst), X(i.src), i.imm, pool).words))
  {
    hide Touches, MovImmediate, Op3, Xs, X;
    XsOf(i);
    var d, s := X(i.dst), X(i.src);
    if s != d {
      TouchOne(op, d, d, 0, s);
    } else {
      TouchMovImmediate(TMP, i.imm, pool);
      TouchOnTemporary(MovImmediate(TMP, i.imm, pool).words, {}, false, op, d);
    }
  }

  lemma SumExact(i: Instr, pool: seq<U32>)
    requires i.op == IADD_RS || i.op == ISUB_R
    ensures Exact(i, Touches(IntWords(i, pool).words))
  {
    hide Touches, AddImmediate, SubImmediate, Op3, Xs, X;
    XsOf(i);
    var d, s := X(i.dst), X(i.src);
    if i.op == ISUB_R {
      TouchOne(SUB, d, d, 0, s);
      TouchSubImmediate(d, i.imm, pool);
    } else {
      var w := Op3(ADD, d, d, i.ModShift(), s);
      TouchOne(ADD, d, d, i.ModShift(), s);
      if i.dst == 5 {
        TouchAddImmediate(d, d, i.imm, pool);
        TouchesConcat([w], AddImmediate(d, d, i.imm, TMP, pool).words);
      } else {
        assert [w] + [] == [w];
      }
    }
  }

  lemma RotateExact(i: Instr, pool: seq<U32>)
    requires i.op == IROR_R || i.op == IROL_R
    ensures Exact(i, Touches(IntWords(i, pool).words))
  {
    hide Touches, Op3, Xs, X, TouchOf;
    XsOf(i);
    var d, s := X(i.dst), X(i.src);
    TouchOne(ROR, d, d, 0, s);
    TouchOne(ROR_IMM, d, d, i.imm % 64, d);
    TouchOne(ROR_IMM, d, d, (TWO32 - i.imm) % 64, d);
    TouchTurned(d, s);
  }

  // A left rotation turns right by the negated count.
  lemma TouchTurned(d: RegNo, s: RegNo)
    requires d < 20 && s < 20
    ensures Touches([Op3(SUB, TMP, 31, 0, s), Op3(ROR, d, d, 0, TMP)]) == Touch({d, s}, {TMP, d}, false)
  {
    hide Touches, Op3, TouchOf;
    TouchTwo(Op3(SUB, TMP, 31, 0, s), Op3(ROR, d, d, 0, TMP));
    TouchOp3(SUB, TMP, 31, 0, s);
    TouchOp3(ROR, d, d, 0, TMP);
    assert Then(Touch({s}, {TMP}, false), Touch({d, TMP}, {d}, false)) == Touch({d, s}, {TMP, d}, false);
  }

  lemma OneWordExact(i: Instr, pool: seq<U32>)
    requires i.op in {INEG_R, IMULH_R, ISMULH_R}
    ensures Exact(i, Touches(IntWords(i, pool).words))
  {
    hide Touches, Op3, Xs, X, TouchOf;
    XsOf(i);
    var d, s := X(i.dst), X(i.src);
    TouchOne(SUB, d, 31, 0, d);
    TouchOne(UMULH, d, d, 0, s);
    TouchOne(SMULH, d, d, 0, s);
  }

  lemma TouchCopies(d: RegNo, s: RegNo)
    requires d < 20 && s < 20
    ensures Touches([CopyWord(TMP, d), CopyWord(d, s), CopyWord(s, TMP)]) == Touch({d, s}, {TMP, d, s}, false)
  {
    hide Touches, CopyWord, TouchOf, Then;
    var u, v, w := CopyWord(TMP, d), CopyWord(d, s), CopyWord(s, TMP);
    assert [u, v, w] == [u, v] + [w];
    TouchesConcat([u, v], [w]);
    TouchTwo(u, v);
    TouchesOne(w);
    TouchAccess(TMP, d, false);
    TouchAccess(d, s, false);
    TouchAccess(s, TMP, false);
    CopySets(d, s);
  }

  lemma CopySets(d: RegNo, s: RegNo)
    requires d < 20 && s < 20
    ensures Then(Then(Touch({d}, {TMP}, false), Touch({s}, {d}, false)), Touch({TMP}, {s}, false)) ==
            Touch({d, s}, {TMP, d, s}, false)
  {
  }

  lemma ExchangeExact(i: Instr, pool: seq<U32>)
    requires i.op == ISWAP_R && i.src != i.dst
    ensures Exact(i, Touches(IntWords(i, pool).words))
  {
    hide Touches, CopyWord, Xs, X;
    XsOf(i);
    TouchCopies(X(i.dst), X(i.src));
    assert {TMP, X(i.dst), X(i.src)} - {TMP} == {X(i.dst), X(i.src)};
  }

  lemma StoreExact(i: Instr, pool: seq<U32>)
    requires i.op == ISTORE
    ensures Exact(i, Touches(IntWords(i, pool).words))
  {
    hide Touches, MemStore, Xs, X;
    XsOf(i);
    TouchMemStore(X(i.dst), X(i.src), i, pool);
    assert {TMP} - {TMP} == {};
  }

  // Footprints of integer instructions are exact for the emitted code.
  lemma FootprintExact(i: Instr, pool: seq<U32>)
    requires IsInteger(i) && !IsNop(i)
    ensures Exact(i, Touches(IntWords(i, pool).words))
  {
    hide Exact, Touches, WithLoad, WithSource, X;
    match i.op {
      case IADD_RS | ISUB_R => SumExact(i, pool);
      case IROR_R | IROL_R => RotateExact(i, pool);
      case INEG_R | IMULH_R | ISMULH_R => OneWordExact(i, pool);
      case ISWAP_R => ExchangeExact(i, pool);
      case ISTORE => StoreExact(i, pool);
      case IMUL_R => SourceExact(i, MUL, pool);
      case IXOR_R => SourceExact(i, EOR, pool);
      case IADD_M => LoadExact(i, ADD, pool);
      case ISUB_M => LoadExact(i, SUB, pool);
      case IMUL_M => LoadExact(i, MUL, pool);
      case IMULH_M => LoadExact(i, UMULH, pool);
      case ISMULH_M => LoadExact(i, SMULH, pool);
      case IXOR_M => LoadExact(i, EOR, pool);
    }
  }
}
