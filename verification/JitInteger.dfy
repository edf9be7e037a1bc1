// The words emitted for the integer instructions of the main program, against
// what the interpreter does (src/jit_compiler_a64.cpp, src/vm.cpp).
module JitInteger {
  import opened Words
  import opened Arith
  import opened A64
  import opened Vm
  import opened JitOperands

  const TMP: RegNo := 20

  // Where the machine keeps register r.
  function X(r: Reg): RegNo { if r < 4 then 4 + r else 8 + r }

  predicate HoldsVm(k: RegNo) { 4 <= k < 8 || 12 <= k < 16 }

  // Registers 0 to 7 take x4 to x7 and x12 to x15 in this order.
  lemma RegistersAscend(r: Reg, q: Reg)
    ensures HoldsVm(X(r)) && (r < q ==> X(r) < X(q))
  {
  }

  // The registers and the scratchpad are those of the virtual machine.
  ghost predicate Shows(c: Cpu, s: State) {
    c.mem == s.mem && forall r: Reg :: c.x[X(r)] == s.r[r]
  }

  // Nothing but virtual-machine registers, the temporary and the scratchpad changed.
  ghost predicate Undisturbed(c: Cpu, y: Cpu) {
    y.lanes == c.lanes && forall k: RegNo :: !HoldsVm(k) && k != TMP ==> y.x[k] == c.x[k]
  }

  // From c to y only register d and the temporary changed, and d holds v.
  ghost predicate Wrote(c: Cpu, y: Cpu, d: RegNo, v: Word) {
    && y.mem == c.mem && y.lanes == c.lanes && y.x[d] == v
    && forall k: RegNo :: k != d && k != TMP ==> y.x[k] == c.x[k]
  }

  lemma WroteShows(c: Cpu, y: Cpu, s: State, r: Reg, v: Word)
    requires Shows(c, s) && Wrote(c, y, X(r), v)
    ensures Shows(y, SetInt(s, r, v)) && Undisturbed(c, y)
  {
    forall q: Reg ensures y.x[X(q)] == SetInt(s, r, v).r[q] {
      assert q != r ==> X(q) != X(r) && X(q) != TMP;
    }
  }

  lemma {:induction false} LanesKept(c: Cpu, ws: seq<U32>)
    ensures Perform(c, ws).lanes == c.lanes
    decreases |ws|
  {
    hide DecodeMem, Compute;
    if ws != [] { LanesKept(Step(c, ws[0]), ws[1..]); }
  }

  // ---- the words ----

  function Then(e: Emitted, w: U32): Emitted { Emitted(e.words + [w], e.pool) }

  // The operand is the source register, or the immediate if that is the
  // destination itself.
  function WithSource(op: U32, d: RegNo, s: RegNo, imm: U32, pool: seq<U32>): Emitted
    requires IsOp3(op, 0)
  {
    if s != d then Emitted([Op3(op, d, d, 0, s)], pool)
    else Then(MovImmediate(TMP, imm, pool), Op3(op, d, d, 0, TMP))
  }

  function WithLoad(op: U32, d: RegNo, s: RegNo, i: Instr, pool: seq<U32>): Emitted
    requires IsOp3(op, 0)
  {
    Then(MemLoad(d, s, i, pool), Op3(op, d, d, 0, TMP))
  }

  predicate IsInteger(i: Instr) {
    i.op in {IADD_RS, IADD_M, ISUB_R, ISUB_M, IMUL_R, IMUL_M, IMULH_R, IMULH_M, ISMULH_R, ISMULH_M,
             INEG_R, IXOR_R, IXOR_M, IROR_R, IROL_R, ISWAP_R, ISTORE, NOP}
  }

  // The handlers of every integer instruction but the reciprocal multiply and
  // the branch.
  function IntWords(i: Instr, pool: seq<U32>): Emitted
    requires IsInteger(i)
  {
    var d, s := X(i.dst), X(i.src);
    match i.op
    case IADD_RS =>
      var e := if i.dst == 5 then AddImmediate(d, d, i.imm, TMP, pool) else Emitted([], pool);
      Emitted([Op3(ADD, d, d, i.ModShift(), s)] + e.words, e.pool)
    case ISUB_R => if s != d then Emitted([Op3(SUB, d, d, 0, s)], pool) else SubImmediate(d, i.imm, pool)
    case IMUL_R => WithSource(MUL, d, s, i.imm, pool)
    case IXOR_R => WithSource(EOR, d, s, i.imm, pool)
    case IMULH_R => Emitted([Op3(UMULH, d, d, 0, s)], pool)
    case ISMULH_R => Emitted([Op3(SMULH, d, d, 0, s)], pool)
    case IADD_M => WithLoad(ADD, d, s, i, pool)
    case ISUB_M => WithLoad(SUB, d, s, i, pool)
    case IMUL_M => WithLoad(MUL, d, s, i, pool)
    case IMULH_M => WithLoad(UMULH, d, s, i, pool)
    case ISMULH_M => WithLoad(SMULH, d, s, i, pool)
    case IXOR_M => WithLoad(EOR, d, s, i, pool)
    case INEG_R => Emitted([Op3(SUB, d, 31, 0, d)], pool)
    case IROR_R => Emitted([if s != d then Op3(ROR, d, d, 0, s) else Op3(ROR_IMM, d, d, i.imm % 64, d)], pool)
    case IROL_R =>
      Emitted(if s != d then [Op3(SUB, TMP, 31, 0, s), Op3(ROR, d, d, 0, TMP)]
              else [Op3(ROR_IMM, d, d, (TWO32 - i.imm) % 64, d)], pool)
    case ISWAP_R => Emitted(if s != d then [CopyWord(TMP, d), CopyWord(d, s), CopyWord(s, TMP)] else [], pool)
    case ISTORE => MemStore(d, s, i, pool)
    case NOP => Emitted([], pool)
  }

  // ---- one operation ----

  lemma OneOp(c: Cpu, op: U32, d: RegNo, n: RegNo, amount: nat, m: RegNo)
    requires IsOp3(op, amount) && d < 31
    ensures Wrote(c, Perform(c, [Op3(op, d, n, amount, m)]), d, AluValue(op, Get(c.x, n), Get(c.x, m), amount))
  {
    hide Step, Perform, Op3, AluValue;
    PerformOne(c, Op3(op, d, n, amount, m));
    StepAlu(c, op, d, n, amount, m);
  }

  // An operation on what earlier words left in the temporary.
  lemma OpOnTemporary(c: Cpu, ws: seq<U32>, op: U32, d: RegNo, v: Word)
    requires IsOp3(op, 0) && d < 31 && d != TMP
    requires Wrote(c, Perform(c, ws), TMP, v)
    ensures Wrote(c, Perform(c, ws + [Op3(op, d, d, 0, TMP)]), d, AluValue(op, c.x[d], v, 0))
  {
    hide Step, Perform, Op3, AluValue;
    PerformConcat(c, ws, [Op3(op, d, d, 0, TMP)]);
    OneOp(Perform(c, ws), op, d, d, 0, TMP);
  }

  lemma SourceOp(c: Cpu, op: U32, d: RegNo, s: RegNo, imm: U32, pool: seq<U32>)
    requires IsOp3(op, 0) && d < 31 && s < 31 && d != TMP
    requires |pool| <= 64 && WithSource(op, d, s, imm, pool).pool <= c.lanes
    ensures var e := WithSource(op, d, s, imm, pool);
            && Extends(e, pool)
            && Wrote(c, Perform(c, e.words), d, AluValue(op, c.x[d], if s != d then c.x[s] else SignExtend(imm), 0))
  {
    hide Step, Perform, Op3, AluValue, MovImmediate, SignExtend;
    if s != d {
      OneOp(c, op, d, d, 0, s);
    } else {
      MovImmediateCorrect(c, TMP, imm, pool);
      OpOnTemporary(c, MovImmediate(TMP, imm, pool).words, op, d, SignExtend(imm));
    }
  }

  lemma LoadedValue(c: Cpu, i: Instr, s: State, pool: seq<U32>)
    requires Shows(c, s) && |pool| <= 64 && MemLoad(X(i.dst), X(i.src), i, pool).pool <= c.lanes
    ensures var e := MemLoad(X(i.dst), X(i.src), i, pool);
            Extends(e, pool) && Wrote(c, Perform(c, e.words), TMP, LoadInt(i, s))
  {
    hide Perform, MemLoad, WordIndex;
    var d, n := X(i.dst), X(i.src);
    MemLoadCorrect(c, d, n, i, pool);
    LanesKept(c, MemLoad(d, n, i, pool).words);
    assert d == n <==> i.dst == i.src;
  }

  lemma LoadOp(c: Cpu, op: U32, i: Instr, s: State, pool: seq<U32>)
    requires IsOp3(op, 0) && Shows(c, s) && |pool| <= 64
    requires WithLoad(op, X(i.dst), X(i.src), i, pool).pool <= c.lanes
    ensures var e := WithLoad(op, X(i.dst), X(i.src), i, pool);
            && Extends(e, pool)
            && Wrote(c, Perform(c, e.words), X(i.dst), AluValue(op, s.r[i.dst], LoadInt(i, s), 0))
  {
    hide Step, Perform, Op3, AluValue, MemLoad, LoadInt;
    LoadedValue(c, i, s, pool);
    OpOnTemporary(c, MemLoad(X(i.dst), X(i.src), i, pool).words, op, X(i.dst), LoadInt(i, s));
  }

  // ---- rotations, negation, sums, exchanges ----

  lemma RotateBy(a: Word, k: nat, j: nat)
    requires k % 64 == j % 64
    ensures Ror(a, k) == Ror(a, j)
  {
  }

  lemma NegatedCount(v: nat, n: int, k: int)
    requires k > 0 && n == k * 64
    ensures n > 0 && (0 - v) % n % 64 == (64 - v % 64 % 64) % 64
  {
    ModMod(0 - v, n, k, 64);
    assert (0 - v) % 64 == (64 - v % 64) % 64;
  }

  lemma RotateLeftIs(a: Word, k: nat, c: nat)
    requires c % 64 == (64 - k % 64) % 64
    ensures Ror(a, c) == Rol(a, k)
  {
    hide Ror;
    RotateBy(a, c, 64 - k % 64);
  }

  lemma RotateLeftByRegister(a: Word, v: Word)
    ensures Ror(a, Neg(v)) == Rol(a, v % 64)
  {
    hide Ror, Rol;
    NegatedCount(v, TWO64, TWO64 / 64);
    RotateLeftIs(a, v % 64, Neg(v));
  }

  lemma NegatedImmediateCount(imm: U32)
    ensures (TWO32 - imm) % 64 == (64 - imm % 64) % 64
  {
    var q, r := imm / 64, imm % 64;
    DivUnique(TWO32 - imm, 64, if r == 0 then TWO32 / 64 - q else TWO32 / 64 - q - 1, (64 - r) % 64);
  }

  lemma RotateLeftByImmediate(a: Word, imm: U32)
    ensures Ror(a, (TWO32 - imm) % 64) == Rol(a, imm % 64)
  {
    hide Ror, Rol;
    NegatedImmediateCount(imm);
    ModTwice(imm, 64);
    ModTwice(TWO32 - imm, 64);
    RotateLeftIs(a, imm % 64, (TWO32 - imm) % 64);
  }

  lemma ModTwice(x: int, n: int)
    requires n > 0
    ensures x % n % n == x % n
  {
    DivUnique(x % n, n, 0, x % n);
  }

  lemma RotateRight(c: Cpu, i: Instr, s: State, pool: seq<U32>)
    requires Shows(c, s) && i.op == IROR_R
    ensures Wrote(c, Perform(c, IntWords(i, pool).words), X(i.dst), Ror(s.r[i.dst], Source(i, s, i.imm) % 64))
  {
    hide Perform, Op3, Ror, Extract;
    var d, n, a := X(i.dst), X(i.src), s.r[i.dst];
    if i.src != i.dst {
      OneOp(c, ROR, d, d, 0, n);
      RotateBy(a, s.r[i.src], s.r[i.src] % 64);
    } else {
      OneOp(c, ROR_IMM, d, d, i.imm % 64, d);
      ExtractRotates(a, i.imm % 64);
    }
  }

  lemma RotateLeft(c: Cpu, i: Instr, s: State, pool: seq<U32>)
    requires Shows(c, s) && i.op == IROL_R
    ensures Wrote(c, Perform(c, IntWords(i, pool).words), X(i.dst), Rol(s.r[i.dst], Source(i, s, i.imm) % 64))
  {
    hide Perform, Op3, Ror, Rol, Neg, Extract;
    var d, n, a := X(i.dst), X(i.src), s.r[i.dst];
    RotateLeftByRegister(a, s.r[i.src]);
    RotateLeftByImmediate(a, i.imm);
    if i.src != i.dst {
      OneOp(c, SUB, TMP, 31, 0, n);
      SubFromZero(s.r[i.src]);
      OpOnTemporary(c, [Op3(SUB, TMP, 31, 0, n)], ROR, d, Neg(s.r[i.src]));
      assert [Op3(SUB, TMP, 31, 0, n)] + [Op3(ROR, d, d, 0, TMP)] == IntWords(i, pool).words;
    } else {
      OneOp(c, ROR_IMM, d, d, (TWO32 - i.imm) % 64, d);
      ExtractRotates(a, (TWO32 - i.imm) % 64);
    }
  }

  lemma SubFromZero(v: Word)
    ensures AluValue(SUB, 0, v, 0) == Neg(v)
  {
  }

  lemma Sum(c: Cpu, i: Instr, s: State, pool: seq<U32>)
    requires Shows(c, s) && i.op == IADD_RS && |pool| <= 64 && IntWords(i, pool).pool <= c.lanes
    ensures var v := Add(Add(s.r[i.dst], Shl(s.r[i.src], i.ModShift())), if i.dst == 5 then SignExtend(i.imm) else 0);
            Extends(IntWords(i, pool), pool) && Wrote(c, Perform(c, IntWords(i, pool).words), X(i.dst), v)
  {
    hide Perform, Op3, Add, Shl, SignExtend, AddImmediate;
    var d, n := X(i.dst), X(i.src);
    var w := Op3(ADD, d, d, i.ModShift(), n);
    var v := Add(s.r[i.dst], Shl(s.r[i.src], i.ModShift()));
    OneOp(c, ADD, d, d, i.ModShift(), n);
    var y := Perform(c, [w]);
    if i.dst == 5 {
      var e := AddImmediate(d, d, i.imm, TMP, pool);
      PerformConcat(c, [w], e.words);
      AddImmediateCorrect(y, d, d, i.imm, TMP, pool);
    } else {
      assert [w] + [] == [w];
      AddZero(v);
    }
  }

  lemma AddZero(v: Word)
    ensures Add(v, 0) == v
  {
  }

  lemma Difference(c: Cpu, i: Instr, s: State, pool: seq<U32>)
    requires Shows(c, s) && i.op == ISUB_R && |pool| <= 64 && IntWords(i, pool).pool <= c.lanes
    ensures Extends(IntWords(i, pool), pool)
    ensures Wrote(c, Perform(c, IntWords(i, pool).words), X(i.dst),
                  Sub(s.r[i.dst], Source(i, s, SignExtend(i.imm))))
  {
    hide Perform, Op3, Sub, SignExtend, SubImmediate;
    var d, n := X(i.dst), X(i.src);
    if i.src != i.dst {
      OneOp(c, SUB, d, d, 0, n);
    } else {
      SubImmediateCorrect(c, d, i.imm, pool);
      LanesKept(c, SubImmediate(d, i.imm, pool).words);
    }
  }

  lemma PerformThree(c: Cpu, u: U32, v: U32, w: U32)
    ensures Perform(c, [u, v, w]) == Step(Step(Step(c, u), v), w)
  {
    hide Step, Perform;
    assert [u, v, w] == [u, v] + [w];
    PerformConcat(c, [u, v], [w]);
    PerformTwo(c, u, v);
    PerformOne(Step(Step(c, u), v), w);
  }

  lemma Exchange(m: Machine, c: Cpu, i: Instr, s: State, pool: seq<U32>)
    requires Shows(c, s) && i.op == ISWAP_R
    ensures var y := Perform(c, IntWords(i, pool).words); Shows(y, Exec(m, i, s)) && Undisturbed(c, y)
  {
    hide Step, Perform, CopyWord, LoadInt, LoadPair, Lift2;
    var d, n := X(i.dst), X(i.src);
    if i.src != i.dst {
      PerformThree(c, CopyWord(TMP, d), CopyWord(d, n), CopyWord(n, TMP));
      StepCopy(c, TMP, d);
      var y1 := Step(c, CopyWord(TMP, d));
      StepCopy(y1, d, n);
      var y2 := Step(y1, CopyWord(d, n));
      StepCopy(y2, n, TMP);
      forall r: Reg ensures y2.x[n := y2.x[TMP]][X(r)] == Exec(m, i, s).r[r] {
        assert r != i.dst ==> X(r) != d;
        assert r != i.src ==> X(r) != n;
      }
    } else {
      PerformNothing(c);
      assert s.r[i.dst := s.r[i.src]][i.src := s.r[i.dst]] == s.r;
    }
  }

  lemma Stored(m: Machine, c: Cpu, i: Instr, s: State, pool: seq<U32>)
    requires Shows(c, s) && i.op == ISTORE && |pool| <= 64
    ensures var e := IntWords(i, pool);
            && Extends(e, pool)
            && var y := Perform(c, e.words); Shows(y, Exec(m, i, s)) && Undisturbed(c, y)
  {
    hide Perform, MemStore, WordIndex, LoadInt, LoadPair, Lift2;
    MemStoreCorrect(c, X(i.dst), X(i.src), i, pool);
    LanesKept(c, MemStore(X(i.dst), X(i.src), i, pool).words);
  }

  // ---- the theorem for one instruction ----

  lemma OnlyDestination(m: Machine, i: Instr, s: State)
    requires IsInteger(i) && i.op !in {ISWAP_R, ISTORE, NOP}
    ensures Exec(m, i, s) == SetInt(s, i.dst, Exec(m, i, s).r[i.dst])
  {
    hide Add, Sub, Mul, MulHigh, SignedMulHigh, Neg, Xor, Ror, Rol, Shl, SignExtend, LoadInt, LoadPair, Lift2, Source;
  }

  lemma ValueWritten(m: Machine, c: Cpu, i: Instr, s: State, pool: seq<U32>)
    requires IsInteger(i) && i.op !in {ISWAP_R, ISTORE, NOP}
    requires Shows(c, s) && |pool| <= 64 && IntWords(i, pool).pool <= c.lanes
    ensures Extends(IntWords(i, pool), pool)
    ensures Wrote(c, Perform(c, IntWords(i, pool).words), X(i.dst), Exec(m, i, s).r[i.dst])
  {
    hide Perform, Op3, Add, Sub, Mul, MulHigh, SignedMulHigh, Neg, Xor, Ror, Rol, Shl, SignExtend, LoadInt,
      WithSource, WithLoad, MemStore, SubImmediate, AddImmediate, LoadPair, Lift2;
    var d, n := X(i.dst), X(i.src);
    assert d == n <==> i.dst == i.src;
    match i.op {
      case IADD_RS => Sum(c, i, s, pool);
      case ISUB_R => Difference(c, i, s, pool);
      case IROR_R => RotateRight(c, i, s, pool);
      case IROL_R => RotateLeft(c, i, s, pool);
      case IMUL_R => SourceOp(c, MUL, d, n, i.imm, pool);
      case IXOR_R => SourceOp(c, EOR, d, n, i.imm, pool);
      case IMULH_R => OneOp(c, UMULH, d, d, 0, n);
      case ISMULH_R => OneOp(c, SMULH, d, d, 0, n);
      case INEG_R => OneOp(c, SUB, d, 31, 0, d); SubFromZero(s.r[i.dst]);
      case IADD_M => LoadOp(c, ADD, i, s, pool); PlainAdd(s.r[i.dst], LoadInt(i, s));
      case ISUB_M => LoadOp(c, SUB, i, s, pool);
      case IMUL_M => LoadOp(c, MUL, i, s, pool);
      case IMULH_M => LoadOp(c, UMULH, i, s, pool);
      case ISMULH_M => LoadOp(c, SMULH, i, s, pool);
      case IXOR_M => LoadOp(c, EOR, i, s, pool);
    }
  }

  // Whatever the literals so far, the words leave what the interpreter leaves and
  // disturb nothing else.
  lemma IntegerAgrees(m: Machine, c: Cpu, i: Instr, s: State, pool: seq<U32>)
    requires IsInteger(i) && Shows(c, s) && |pool| <= 64 && IntWords(i, pool).pool <= c.lanes
    ensures var e := IntWords(i, pool);
            && Extends(e, pool)
            && var y := Perform(c, e.words); Shows(y, Exec(m, i, s)) && Undisturbed(c, y)
  {
    hide Perform, Exec, IntWords, Wrote;
    if i.op == ISWAP_R {
      SwapPool(i, pool);
      Exchange(m, c, i, s, pool);
    } else if i.op == ISTORE {
      Stored(m, c, i, s, pool);
    } else if i.op == NOP {
      NopWords(m, c, i, s, pool);
    } else {
      ValueWritten(m, c, i, s, pool);
      OnlyDestination(m, i, s);
      WroteShows(c, Perform(c, IntWords(i, pool).words), s, i.dst, Exec(m, i, s).r[i.dst]);
    }
  }

  lemma SwapPool(i: Instr, pool: seq<U32>)
    requires i.op == ISWAP_R
    ensures IntWords(i, pool).pool == pool
  {
  }

  lemma NopWords(m: Machine, c: Cpu, i: Instr, s: State, pool: seq<U32>)
    requires i.op == NOP
    ensures IntWords(i, pool) == Emitted([], pool) && Perform(c, []) == c && Exec(m, i, s) == s
  {
    hide LoadInt, LoadPair, Lift2;
  }
}
