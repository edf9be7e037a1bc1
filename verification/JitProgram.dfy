// A whole program as machine code: where the handlers put their words and
// literals, and the theorem that running the code runs the program
// (src/jit_compiler_a64.cpp). What the handlers of the floating-point
// instructions emit is a parameter.
module JitProgram {
  import opened Words
  import opened Arith
  import opened Reciprocal
  import opened A64
  import opened Vm
  import opened Footprint
  import opened Interpreter
  import opened Replay
  import opened Scheduler
  import opened JitOperands
  import opened JitInteger
  import opened JitMachine
  import opened JitSlots

  const BASE: nat := 120          // word index of the first instruction
  const MAX_PROGRAM: nat := 256
  const MAX_WORDS: nat := 16

  // The words of a floating-point instruction or a CFROUND.
  type FpWords = f: Instr -> seq<U32> | (forall i: Instr :: |f(i)| <= MAX_WORDS) ghost witness (i: Instr) => []

  // The 32-bit literals and the reciprocals handed out so far.
  datatype Pools = Pools(lits: seq<U32>, rcps: seq<Word>)

  datatype Code = Code(words: seq<U32>, pools: Pools)

  predicate UsesRcp(i: Instr) { i.op == IMUL_RCP && !ZeroOrPowerOfTwo(i.imm) }

  // What the handler of i emits at word index pos; a branch returns to `target`.
  function Handler(fp: FpWords, i: Instr, pos: int, target: int, p: Pools): Code {
    if i.op == CBRANCH then
      var e := BranchWords(i, pos, target, p.lits);
      Code(e.words, p.(lits := e.pool))
    else if i.op == IMUL_RCP then
      if ZeroOrPowerOfTwo(i.imm) then Code([], p)
      else Code(RcpWords(X(i.dst), pos, |p.rcps|), p.(rcps := p.rcps + [RandomxReciprocal(i.imm)]))
    else if IsInteger(i) then
      var e := IntWords(i, p.lits);
      Code(e.words, p.(lits := e.pool))
    else Code(fp(i), p)
  }

  // Position and literals before slot k.
  datatype Spot = Spot(pos: int, pools: Pools)

  function SpotAt(fp: FpWords, q: Program, k: nat): Spot
    requires k <= |q|
    decreases k, 0
  {
    if k == 0 then Spot(BASE, Pools([], []))
    else
      var b, e := SpotAt(fp, q, k - 1), CodeAt(fp, q, k - 1);
      Spot(b.pos + |e.words|, e.pools)
  }

  // The code of slot k.
  function CodeAt(fp: FpWords, q: Program, k: nat): Code
    requires k < |q|
    decreases k, 1
  {
    var b := SpotAt(fp, q, k);
    Handler(fp, q[k], b.pos, SpotAt(fp, q, Target(q, k) + 1).pos, b.pools)
  }

  // The program stands in the code.
  ghost predicate Assembled(fp: FpWords, q: Program, code: seq<U32>) {
    forall k :: 0 <= k < |q| ==> Placed(code, SpotAt(fp, q, k).pos, CodeAt(fp, q, k).words)
  }

  // ---- sizes and pools ----

  lemma ShortOperands(d: RegNo, s: RegNo, i: Instr, imm: U32, pool: seq<U32>)
    ensures |MovImmediate(d, imm, pool).words| <= 2 && |AddImmediate(d, s, imm, TMP, pool).words| <= 3
    ensures |SubImmediate(d, imm, pool).words| <= 3 && |MemLoad(d, s, i, pool).words| <= 5
    ensures |MemStore(d, s, i, pool).words| <= 5
  {
    hide Move, LaneMove, AddImm, Op3, MaskTo, LoadWord, StoreWord;
  }

  lemma ShortHandler(fp: FpWords, i: Instr, pos: int, target: int, p: Pools)
    ensures |Handler(fp, i, pos, target, p).words| <= MAX_WORDS
    ensures p.rcps <= Handler(fp, i, pos, target, p).pools.rcps
    ensures |Handler(fp, i, pos, target, p).pools.rcps| <= |p.rcps| + 1
  {
    hide MovImmediate, AddImmediate, SubImmediate, MemLoad, MemStore, Op3, TestWord, Branch, BranchImm32,
      RandomxReciprocal, ZeroOrPowerOfTwo, CopyWord;
    ShortOperands(X(i.dst), X(i.src), i, i.imm, p.lits);
    ShortOperands(TMP, X(i.src), i, i.imm, p.lits);
    ShortOperands(X(i.dst), X(i.dst), i, i.imm, p.lits);
    if i.op == CBRANCH {
      BranchImmAgrees(i);
      ShortOperands(X(i.dst), X(i.dst), i, BranchImm32(i), p.lits);
    }
  }

  lemma PoolGrows(d: RegNo, s: RegNo, i: Instr, imm: U32, pool: seq<U32>)
    requires |pool| <= 64
    ensures Extends(MovImmediate(d, imm, pool), pool) && Extends(AddImmediate(d, s, imm, TMP, pool), pool)
    ensures Extends(SubImmediate(d, imm, pool), pool) && Extends(MemLoad(d, s, i, pool), pool)
    ensures Extends(MemStore(d, s, i, pool), pool)
  {
    hide Move, LaneMove, AddImm, Op3, MaskTo, LoadWord, StoreWord, AddSmall;
  }

  lemma IntegerPools(i: Instr, pool: seq<U32>)
    requires IsInteger(i) && |pool| <= 64
    ensures Extends(IntWords(i, pool), pool)
  {
    hide MovImmediate, AddImmediate, SubImmediate, MemLoad, MemStore, Op3, CopyWord;
    PoolGrows(X(i.dst), X(i.src), i, i.imm, pool);
    PoolGrows(TMP, X(i.src), i, i.imm, pool);
    PoolGrows(X(i.dst), X(i.dst), i, i.imm, pool);
  }

  lemma BranchPools(i: Instr, pos: int, target: int, pool: seq<U32>)
    requires |pool| <= 64
    ensures Extends(BranchWords(i, pos, target, pool), pool)
  {
    hide AddImmediate, TestWord, Branch, BranchImm32;
    BranchImmAgrees(i);
    PoolGrows(X(i.dst), X(i.dst), i, BranchImm32(i), pool);
  }

  lemma HandlerPools(fp: FpWords, i: Instr, pos: int, target: int, p: Pools)
    requires |p.lits| <= 64
    ensures p.lits <= Handler(fp, i, pos, target, p).pools.lits
    ensures |Handler(fp, i, pos, target, p).pools.lits| <= 64
  {
    hide IntWords, BranchWords, RandomxReciprocal, ZeroOrPowerOfTwo, RcpWords;
    if i.op == CBRANCH {
      BranchPools(i, pos, target, p.lits);
    } else if IsInteger(i) {
      IntegerPools(i, p.lits);
    }
  }

  // Code grows upwards from BASE, literals downwards from LITERALS_END.
  lemma {:induction false} SpotBounds(fp: FpWords, q: Program, k: nat)
    requires k <= |q|
    ensures BASE <= SpotAt(fp, q, k).pos <= BASE + MAX_WORDS * k
    ensures |SpotAt(fp, q, k).pools.rcps| <= k && |SpotAt(fp, q, k).pools.lits| <= 64
  {
    hide Handler;
    if k > 0 {
      SpotBounds(fp, q, k - 1);
      var b := SpotAt(fp, q, k - 1);
      var target := SpotAt(fp, q, Target(q, k - 1) + 1).pos;
      ShortHandler(fp, q[k - 1], b.pos, target, b.pools);
      HandlerPools(fp, q[k - 1], b.pos, target, b.pools);
    }
  }

  lemma {:induction false} SpotsGrow(fp: FpWords, q: Program, j: nat, k: nat)
    requires j <= k <= |q|
    ensures SpotAt(fp, q, j).pos <= SpotAt(fp, q, k).pos
    ensures SpotAt(fp, q, j).pools.lits <= SpotAt(fp, q, k).pools.lits
    ensures SpotAt(fp, q, j).pools.rcps <= SpotAt(fp, q, k).pools.rcps
    decreases k
  {
    hide Handler;
    if j < k {
      SpotsGrow(fp, q, j, k - 1);
      SpotBounds(fp, q, k - 1);
      var b := SpotAt(fp, q, k - 1);
      var target := SpotAt(fp, q, Target(q, k - 1) + 1).pos;
      ShortHandler(fp, q[k - 1], b.pos, target, b.pools);
      HandlerPools(fp, q[k - 1], b.pos, target, b.pools);
    }
  }

  // ---- running one slot ----

  predicate IsFloat(i: Instr) { i.op != CBRANCH && i.op != IMUL_RCP && !IsInteger(i) }

  // What is asked of the words of a floating-point instruction: wherever they
  // stand in the code, they do what the interpreter does.
  ghost predicate FloatDone(unit: VectorUnit, fp: FpWords, code: seq<U32>, m: Machine, i: Instr, c: Core, s: State)
    requires i.op != CBRANCH
  {
    Represents(c, s) && Placed(code, c.pc, fp(i)) ==> CanReach(unit, code, c, c.pc + |fp(i)|, Exec(m, i, s))
  }

  ghost predicate CanReach(unit: VectorUnit, code: seq<U32>, c: Core, pc: int, s: State) {
    exists n: nat :: Reaches(unit, code, c, n, pc, s)
  }

  ghost predicate FloatsDone(unit: VectorUnit, fp: FpWords, code: seq<U32>, m: Machine, q: Program) {
    forall k, c: Core, s: State :: 0 <= k < |q| && IsFloat(q[k]) ==> FloatDone(unit, fp, code, m, q[k], c, s)
  }

  // The literals of the whole program are where the code expects them.
  ghost predicate Loaded(fp: FpWords, q: Program, code: seq<U32>, c: Cpu) {
    var p := SpotAt(fp, q, |q|).pools;
    p.lits <= c.lanes && LiteralsIn(code, c, p.rcps)
  }

  lemma LoadedKept(fp: FpWords, q: Program, code: seq<U32>, c: Cpu, y: Cpu)
    requires Loaded(fp, q, code, c) && KeepsLiterals(c, y)
    ensures Loaded(fp, q, code, y)
  {
    hide SpotAt;
  }

  ghost predicate Sited(fp: FpWords, q: Program, code: seq<U32>, k: nat, c: Core, s: State) {
    k <= |q| && c.pc == SpotAt(fp, q, k).pos && Represents(c, s) && Loaded(fp, q, code, c.cpu)
  }

  lemma NextSpot(fp: FpWords, q: Program, k: nat)
    requires k < |q|
    ensures SpotAt(fp, q, k + 1) == Spot(SpotAt(fp, q, k).pos + |CodeAt(fp, q, k).words|, CodeAt(fp, q, k).pools)
  {
    hide Handler;
  }

  lemma CodeIs(fp: FpWords, q: Program, k: nat)
    requires k < |q|
    ensures var b := SpotAt(fp, q, k);
            CodeAt(fp, q, k) == Handler(fp, q[k], b.pos, SpotAt(fp, q, Target(q, k) + 1).pos, b.pools)
  {
    hide Handler, SpotAt;
  }

  lemma IntegerStep(unit: VectorUnit, fp: FpWords, q: Program, code: seq<U32>, m: Machine, k: nat, c: Core, s: State)
    returns (n: nat)
    requires Assembled(fp, q, code) && k < |q| && Sited(fp, q, code, k, c, s) && IsInteger(q[k])
    ensures Reaches(unit, code, c, n, SpotAt(fp, q, k + 1).pos, Exec(m, q[k], s))
  {
    hide SpotAt, CodeAt, Exec, IntWords, Reaches, Represents, LiteralsIn, Placed;
    var i, p := q[k], SpotAt(fp, q, k).pools;
    CodeIs(fp, q, k);
    NextSpot(fp, q, k);
    SpotBounds(fp, q, k);
    SpotsGrow(fp, q, k + 1, |q|);
    IntegerSlot(unit, code, c, m, i, s, p.lits);
    n := |IntWords(i, p.lits).words|;
  }

  lemma RcpStep(unit: VectorUnit, fp: FpWords, q: Program, code: seq<U32>, m: Machine, k: nat, c: Core, s: State)
    returns (n: nat)
    requires |q| <= MAX_PROGRAM && Assembled(fp, q, code) && k < |q| && Sited(fp, q, code, k, c, s) && UsesRcp(q[k])
    ensures Reaches(unit, code, c, n, SpotAt(fp, q, k + 1).pos, Exec(m, q[k], s))
  {
    hide SpotAt, CodeAt, Exec, RcpWords, Reaches, Represents, LiteralsIn, Placed, RandomxReciprocal, ZeroOrPowerOfTwo;
    var i, p := q[k], SpotAt(fp, q, k).pools;
    CodeIs(fp, q, k);
    NextSpot(fp, q, k);
    SpotBounds(fp, q, k);
    SpotsGrow(fp, q, k + 1, |q|);
    var rcps := SpotAt(fp, q, |q|).pools.rcps;
    RcpSlot(unit, code, c, m, i, s, rcps, |p.rcps|);
    n := |RcpWords(X(i.dst), c.pc, |p.rcps|)|;
  }

  lemma IdleRcpStep(unit: VectorUnit, fp: FpWords, q: Program, code: seq<U32>, m: Machine, k: nat, c: Core, s: State)
    requires k < |q| && Sited(fp, q, code, k, c, s) && q[k].op == IMUL_RCP && !UsesRcp(q[k])
    ensures Reaches(unit, code, c, 0, SpotAt(fp, q, k + 1).pos, Exec(m, q[k], s))
  {
    hide SpotAt, CodeAt, CoreN, LiteralsIn, ZeroOrPowerOfTwo, LoadInt, LoadPair, Lift2;
    CodeIs(fp, q, k);
    NextSpot(fp, q, k);
    CoreOne(unit, code, c);
  }

  lemma FloatStep(unit: VectorUnit, fp: FpWords, q: Program, code: seq<U32>, m: Machine, k: nat, c: Core, s: State)
    returns (n: nat)
    requires Assembled(fp, q, code) && FloatsDone(unit, fp, code, m, q)
    requires k < |q| && Sited(fp, q, code, k, c, s) && IsFloat(q[k])
    ensures Reaches(unit, code, c, n, SpotAt(fp, q, k + 1).pos, Exec(m, q[k], s))
  {
    hide SpotAt, CodeAt, Exec, Reaches, Represents, LiteralsIn, Placed, Loaded;
    CodeIs(fp, q, k);
    NextSpot(fp, q, k);
    assert FloatDone(unit, fp, code, m, q[k], c, s);
    n :| Reaches(unit, code, c, n, c.pc + |fp(q[k])|, Exec(m, q[k], s));
  }

  lemma BranchStep(unit: VectorUnit, fp: FpWords, q: Program, code: seq<U32>, m: Machine, k: nat, c: Core, s: State)
    returns (n: nat)
    requires |q| <= MAX_PROGRAM && Assembled(fp, q, code)
    requires k < |q| && Sited(fp, q, code, k, c, s) && q[k].op == CBRANCH
    ensures var t := Interpreter.Step(m, q, Config(k, s)); Reaches(unit, code, c, n, SpotAt(fp, q, t.pc).pos, t.s)
  {
    hide SpotAt, CodeAt, BranchWords, Reaches, Represents, LiteralsIn, Placed, Taken, BranchImm, LastWriter;
    var i, p := q[k], SpotAt(fp, q, k).pools;
    var target := SpotAt(fp, q, Target(q, k) + 1).pos;
    CodeIs(fp, q, k);
    NextSpot(fp, q, k);
    SpotBounds(fp, q, k);
    SpotBounds(fp, q, Target(q, k) + 1);
    SpotsGrow(fp, q, Target(q, k) + 1, k);
    SpotsGrow(fp, q, k + 1, |q|);
    n := BranchSlot(unit, code, c, i, s, target, p.lits);
  }

  // One step of the interpreter is a run of one slot's words.
  lemma SlotRuns(unit: VectorUnit, fp: FpWords, q: Program, code: seq<U32>, m: Machine, k: nat, c: Core, s: State)
    returns (n: nat)
    requires |q| <= MAX_PROGRAM && Assembled(fp, q, code) && FloatsDone(unit, fp, code, m, q)
    requires k < |q| && Sited(fp, q, code, k, c, s)
    ensures var t := Interpreter.Step(m, q, Config(k, s)); Sited(fp, q, code, t.pc, CoreN(unit, code, n, c), t.s)
  {
    hide SpotAt, CodeAt, Exec, CoreN, FloatsDone, Assembled, Represents, Loaded, Taken, BranchAdd, KeepsLiterals;
    if q[k].op == CBRANCH {
      n := BranchStep(unit, fp, q, code, m, k, c, s);
    } else if UsesRcp(q[k]) {
      n := RcpStep(unit, fp, q, code, m, k, c, s);
    } else if q[k].op == IMUL_RCP {
      n := 0;
      IdleRcpStep(unit, fp, q, code, m, k, c, s);
    } else if IsInteger(q[k]) {
      n := IntegerStep(unit, fp, q, code, m, k, c, s);
    } else {
      n := FloatStep(unit, fp, q, code, m, k, c, s);
    }
    LoadedKept(fp, q, code, c.cpu, CoreN(unit, code, n, c).cpu);
  }

  // ---- running the program ----

  lemma {:induction false} RunSimulated(unit: VectorUnit, fp: FpWords, q: Program, code: seq<U32>, m: Machine,
                                        steps: nat, k: nat, c: Core, s: State) returns (n: nat)
    requires |q| <= MAX_PROGRAM && Assembled(fp, q, code) && FloatsDone(unit, fp, code, m, q)
    requires k <= |q| && Sited(fp, q, code, k, c, s)
    ensures var t := StepN(m, q, steps, Config(k, s)); Sited(fp, q, code, t.pc, CoreN(unit, code, n, c), t.s)
    decreases steps
  {
    hide Interpreter.Step, StepN, CoreN, Sited, Assembled, FloatsDone;
    if steps == 0 || k == |q| {
      NoSteps(m, q, Config(k, s));
      if k == |q| { Halted(m, q, steps, Config(k, s)); }
      CoreOne(unit, code, c);
      n := 0;
    } else {
      var t := Interpreter.Step(m, q, Config(k, s));
      var a := SlotRuns(unit, fp, q, code, m, k, c, s);
      var y := CoreN(unit, code, a, c);
      var b := RunSimulated(unit, fp, q, code, m, steps - 1, t.pc, y, t.s);
      StepNAdd(m, q, 1, steps - 1, Config(k, s));
      StepOne(m, q, Config(k, s));
      CoreAdd(unit, code, a, b, c);
      n := a + b;
    }
  }

  // The machine code of a program ends behind its last slot, in the state the
  // interpreter ends in.
  lemma CodeRunsProgram(unit: VectorUnit, fp: FpWords, q: Program, code: seq<U32>, m: Machine, c: Core, s: State)
    returns (n: nat)
    requires |q| <= MAX_PROGRAM && Assembled(fp, q, code) && FloatsDone(unit, fp, code, m, q)
    requires c.pc == BASE && Represents(c, s) && Loaded(fp, q, code, c.cpu)
    ensures var y := CoreN(unit, code, n, c); y.pc == SpotAt(fp, q, |q|).pos && Represents(y, Result(m, q, s))
  {
    hide Interpreter.Step, StepN, CoreN, Assembled, FloatsDone, Represents, Loaded, WorkLeft;
    FirstSpot(fp, q);
    n := RunSimulated(unit, fp, q, code, m, 3 * |q|, 0, c, s);
    HaltsWithin(m, q, 3 * |q|, Config(0, s));
  }

  lemma FirstSpot(fp: FpWords, q: Program)
    ensures SpotAt(fp, q, 0).pos == BASE
  {
  }

  // From the program to the processor: the scheduled, assembled code leaves the
  // interpreter's result, provided no branch anchor compiles to nothing.
  lemma ScheduledCodeRunsProgram(unit: VectorUnit, fp: FpWords, p: Program, budget: int, code: seq<U32>,
                                 m: Machine, c: Core, s: State) returns (n: nat)
    requires |p| <= MAX_PROGRAM && forall k :: 0 <= k < |p| && p[k].op == CBRANCH ==> AnchorReal(p, k)
    requires KeepsHazards(p, Plan(p, 0, budget))
    requires var q := Permute(p, Plan(p, 0, budget));
             && Assembled(fp, q, code) && FloatsDone(unit, fp, code, m, q)
             && c.pc == BASE && Represents(c, s) && Loaded(fp, q, code, c.cpu)
    ensures Represents(CoreN(unit, code, n, c), Result(m, p, s))
  {
    hide CoreN, Assembled, FloatsDone, Represents, Loaded, Result, AnchorReal, Plan, KeepsHazards, Permute;
    OrderFits(p, Plan(p, 0, budget));
    ScheduledRunAgrees(m, p, budget, s);
    n := CodeRunsProgram(unit, fp, Permute(p, Plan(p, 0, budget)), code, m, c, s);
  }
}
