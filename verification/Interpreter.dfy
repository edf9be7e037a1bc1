// Repeating a step.
module Iteration {
  function Iterate<C>(f: C -> C, n: nat, c: C): C {
    if n == 0 then c else Iterate(f, n - 1, f(c))
  }

  lemma {:induction false} IterateAdd<C>(f: C -> C, a: nat, b: nat, c: C)
    ensures Iterate(f, a + b, c) == Iterate(f, b, Iterate(f, a, c))
    decreases a
  {
    if a > 0 {
      IterateAdd(f, a - 1, b, f(c));
      assert a + b - 1 == (a - 1) + b;
    }
  }
}

// The bytecode interpreter: branch targets, the program-counter machine, and
// the proof that it halts with every instruction executed at most three times
// (src/vm.cpp).
module Interpreter {
  import opened Words
  import opened Reciprocal
  import opened Vm
  import opened BranchArith
  import opened Iteration

  // Does compiling this instruction record it as a writer of register r?
  predicate Records(i: Instr, r: Reg) {
    match i.op
    case CBRANCH => true
    case ISWAP_R => i.src != i.dst && (r == i.dst || r == i.src)
    case IMUL_RCP => !ZeroOrPowerOfTwo(i.imm) && r == i.dst
    case FSWAP_R | FADD_R | FADD_M | FSUB_R | FSUB_M | FSCAL_R | FMUL_R | FDIV_M | FSQRT_R => false
    case CFROUND | ISTORE | NOP => false
    case _ => r == i.dst
  }

  // The last instruction before c recorded as a writer of r, or -1.
  function LastWriter(p: Program, r: Reg, c: nat): (t: int)
    requires c <= |p|
    ensures -1 <= t < c
    ensures 0 <= t ==> Records(p[t], r)
    ensures forall j :: t < j < c ==> !Records(p[j], r)
  {
    if c == 0 then -1
    else if Records(p[c - 1], r) then c - 1
    else LastWriter(p, r, c - 1)
  }

  // A taken branch at c continues at Target + 1.
  function Target(p: Program, c: nat): (t: int)
    requires c < |p|
    ensures -1 <= t < c
  {
    LastWriter(p, p[c].dst, c)
  }

  datatype Config = Config(pc: nat, s: State)

  function Step(m: Machine, p: Program, c: Config): (c': Config)
    requires c.pc <= |p|
    ensures c'.pc <= |p|
  {
    if c.pc == |p| then c
    else if p[c.pc].op != CBRANCH then Config(c.pc + 1, Exec(m, p[c.pc], c.s))
    else
      var s := BranchAdd(p[c.pc], c.s);
      Config(if Taken(p[c.pc], s.r[p[c.pc].dst]) then Target(p, c.pc) + 1 else c.pc + 1, s)
  }

  function Stepper(m: Machine, p: Program): Config -> Config {
    (c: Config) => if c.pc <= |p| then Step(m, p, c) else c
  }

  function StepN(m: Machine, p: Program, n: nat, c: Config): Config {
    Iterate(Stepper(m, p), n, c)
  }

  // What a program run leaves behind. HaltsWithin shows these steps suffice.
  function Result(m: Machine, p: Program, s: State): State {
    StepN(m, p, 3 * |p|, Config(0, s)).s
  }

  // How often instruction k is executed in the first n steps.
  function Visits(m: Machine, p: Program, n: nat, c: Config, k: nat): nat
    requires c.pc <= |p|
  {
    if n == 0 then 0 else (if c.pc == k then 1 else 0) + Visits(m, p, n - 1, Step(m, p, c), k)
  }

  // The first branch at or after pc.
  function NextBranch(p: Program, pc: nat): (c: nat)
    requires pc <= |p|
    ensures pc <= c <= |p|
    ensures c < |p| ==> p[c].op == CBRANCH
    ensures forall j :: pc <= j < c ==> p[j].op != CBRANCH
    decreases |p| - pc
  {
    if pc == |p| || p[pc].op == CBRANCH then pc else NextBranch(p, pc + 1)
  }

  // How often in a row the branch i will be taken, starting from register value v.
  function TakesLeft(i: Instr, v: Word): (n: nat)
    ensures n <= 2
  {
    var v1 := Add(v, BranchImm(i));
    if !Taken(i, v1) then 0 else if !Taken(i, Add(v1, BranchImm(i))) then 1 else 2
  }

  lemma TakesLeftDrops(i: Instr, v: Word)
    requires Taken(i, Add(v, BranchImm(i)))
    ensures TakesLeft(i, Add(v, BranchImm(i))) == TakesLeft(i, v) - 1
  {
    NeverThrice(i, v);
  }

  lemma UnrecordedKeeps(m: Machine, i: Instr, s: State, r: Reg)
    requires i.op != CBRANCH && !Records(i, r)
    ensures Exec(m, i, s).r[r] == s.r[r]
  {
  }

  // Loop bodies hold no branch and no writer of the branch register, and lie
  // strictly between one branch and the next.
  lemma LoopBodyClean(p: Program, c: nat, j: nat)
    requires c < |p| && p[c].op == CBRANCH && Target(p, c) < j < c
    ensures p[j].op != CBRANCH && !Records(p[j], p[c].dst)
    ensures NextBranch(p, j) <= c
  {
  }

  lemma {:induction false} NextBranchFrom(p: Program, pc: nat, c: nat)
    requires pc <= c <= |p| && (c < |p| ==> p[c].op == CBRANCH)
    requires forall j :: pc <= j < c ==> p[j].op != CBRANCH
    ensures NextBranch(p, pc) == c
  {
  }

  // A bound on future executions of instruction k.
  function VisitsLeft(p: Program, c: Config, k: nat): (n: nat)
    requires c.pc <= |p|
    ensures n <= 3
  {
    var b := NextBranch(p, c.pc);
    if k > b then 3
    else
      (if k >= c.pc then 1 else 0) +
      (if b == |p| || k <= Target(p, b) then 0
       else if c.pc <= Target(p, b) then 2
       else TakesLeft(p[b], c.s.r[p[b].dst]))
  }

  lemma VisitsLeftStraight(m: Machine, p: Program, c: Config, k: nat)
    requires c.pc < |p| && p[c.pc].op != CBRANCH
    ensures VisitsLeft(p, c, k) >= (if c.pc == k then 1 else 0) + VisitsLeft(p, Step(m, p, c), k)
  {
    hide Exec, TakesLeft, Records;
    var b := NextBranch(p, c.pc);
    var s' := Exec(m, p[c.pc], c.s);
    NextBranchFrom(p, c.pc + 1, b);
    if b < |p| && Target(p, b) < c.pc {
      UnrecordedKeeps(m, p[c.pc], c.s, p[b].dst);
    }
  }

  lemma VisitsLeftBranch(m: Machine, p: Program, c: Config, k: nat)
    requires c.pc < |p| && p[c.pc].op == CBRANCH
    ensures VisitsLeft(p, c, k) >= (if c.pc == k then 1 else 0) + VisitsLeft(p, Step(m, p, c), k)
  {
    hide Exec, BranchImm, Taken, TakesLeft, Add;
    var i := p[c.pc];
    if Taken(i, Add(c.s.r[i.dst], BranchImm(i))) {
      TakesLeftDrops(i, c.s.r[i.dst]);
      NextBranchFrom(p, Target(p, c.pc) + 1, c.pc);
    } else {
      var b := NextBranch(p, c.pc + 1);
      if b < |p| {
        assert Records(i, p[b].dst);
        assert Target(p, b) >= c.pc;
      }
    }
  }

  lemma VisitsLeftStep(m: Machine, p: Program, c: Config, k: nat)
    requires c.pc < |p|
    ensures VisitsLeft(p, c, k) >= (if c.pc == k then 1 else 0) + VisitsLeft(p, Step(m, p, c), k)
  {
    if p[c.pc].op == CBRANCH {
      VisitsLeftBranch(m, p, c, k);
    } else {
      VisitsLeftStraight(m, p, c, k);
    }
  }

  lemma StepAtEnd(m: Machine, p: Program, c: Config)
    requires c.pc == |p|
    ensures Step(m, p, c) == c
  {
  }

  // No run executes any instruction more than three times.
  lemma {:induction false} AtMostThreeVisits(m: Machine, p: Program, n: nat, c: Config, k: nat)
    requires c.pc <= |p|
    ensures k < |p| ==> Visits(m, p, n, c, k) <= VisitsLeft(p, c, k) <= 3
    decreases n
  {
    hide Step, VisitsLeft;
    if n > 0 {
      AtMostThreeVisits(m, p, n - 1, Step(m, p, c), k);
      if c.pc < |p| {
        VisitsLeftStep(m, p, c, k);
      } else {
        StepAtEnd(m, p, c);
      }
    }
  }

  function WorkLeft(p: Program, c: Config, k: nat): (n: nat)
    requires c.pc <= |p| && k <= |p|
    ensures n <= 3 * k
  {
    if k == 0 then 0 else WorkLeft(p, c, k - 1) + VisitsLeft(p, c, k - 1)
  }

  lemma {:induction false} WorkDrops(m: Machine, p: Program, c: Config, k: nat)
    requires c.pc < |p| && k <= |p|
    ensures WorkLeft(p, c, k) >= WorkLeft(p, Step(m, p, c), k) + (if c.pc < k then 1 else 0)
  {
    hide Step, VisitsLeft;
    if k > 0 {
      WorkDrops(m, p, c, k - 1);
      VisitsLeftStep(m, p, c, k - 1);
    }
  }

  // The machine halts once the remaining work is used up.
  lemma {:induction false} HaltsWithin(m: Machine, p: Program, n: nat, c: Config)
    requires c.pc <= |p| && WorkLeft(p, c, |p|) <= n
    ensures StepN(m, p, n, c).pc == |p|
    decreases n
  {
    hide Step, StepN, WorkLeft;
    if c.pc == |p| {
      Halted(m, p, n, c);
    } else {
      WorkDrops(m, p, c, |p|);
      HaltsWithin(m, p, n - 1, Step(m, p, c));
      StepNAdd(m, p, 1, n - 1, c);
      StepOne(m, p, c);
    }
  }

  lemma {:induction false} Halted(m: Machine, p: Program, n: nat, c: Config)
    requires c.pc == |p|
    ensures StepN(m, p, n, c) == c
    decreases n
  {
    if n > 0 { Halted(m, p, n - 1, c); }
  }

  lemma StepNAdd(m: Machine, p: Program, a: nat, b: nat, c: Config)
    ensures StepN(m, p, a + b, c) == StepN(m, p, b, StepN(m, p, a, c))
  {
    IterateAdd(Stepper(m, p), a, b, c);
  }

  lemma StepOne(m: Machine, p: Program, c: Config)
    requires c.pc <= |p|
    ensures StepN(m, p, 1, c) == Step(m, p, c)
  {
    var f := Stepper(m, p);
    assert Iterate(f, 1, c) == Iterate(f, 0, f(c));
  }

  lemma NoSteps(m: Machine, p: Program, c: Config)
    ensures StepN(m, p, 0, c) == c
  {
  }

  // Any number of steps that reaches the end gives the result.
  lemma ResultByAnyRun(m: Machine, p: Program, n: nat, s: State)
    requires StepN(m, p, n, Config(0, s)).pc == |p|
    ensures StepN(m, p, n, Config(0, s)).s == Result(m, p, s)
  {
    hide StepN, WorkLeft, Exec;
    var c, k := Config(0, s), 3 * |p|;
    HaltsWithin(m, p, k, c);
    if n <= k {
      StepNAdd(m, p, n, k - n, c);
      Halted(m, p, k - n, StepN(m, p, n, c));
    } else {
      StepNAdd(m, p, k, n - k, c);
      Halted(m, p, n - k, StepN(m, p, k, c));
    }
  }

  // The bookkeeping every compile handler does: v is noted for each register
  // the instruction is recorded as writing.
  function Note<T>(usage: seq<T>, i: Instr, v: T): (usage': seq<T>)
    requires |usage| == 8
    ensures |usage'| == 8
    ensures forall r: Reg :: usage'[r] == if Records(i, r) then v else usage[r]
  {
    if i.op == CBRANCH then seq(8, _ => v)
    else
      var u := if Records(i, i.src) then usage[i.src := v] else usage;
      if Records(i, i.dst) then u[i.dst := v] else u
  }

  // compile_program: one pass that keeps, per register, its last writer so far.
  method CompileProgram(p: Program) returns (targets: seq<int>)
    ensures |targets| == |p|
    ensures forall c :: 0 <= c < |p| && p[c].op == CBRANCH ==> targets[c] == Target(p, c)
  {
    hide Records, Note;
    var usage: seq<int> := seq(8, _ => -1);
    targets := [];
    for i := 0 to |p|
      invariant |targets| == i && |usage| == 8
      invariant forall r: Reg :: usage[r] == LastWriter(p, r, i)
      invariant forall c :: 0 <= c < i && p[c].op == CBRANCH ==> targets[c] == Target(p, c)
    {
      var instr := p[i];
      targets := targets + [usage[instr.dst]];
      usage := Note(usage, instr, i);
    }
  }

  // execute_bytecode: the loop ends on every program and state.
  method ExecuteBytecode(m: Machine, p: Program, targets: seq<int>, start: State) returns (s: State)
    requires |targets| == |p|
    requires forall c :: 0 <= c < |p| && p[c].op == CBRANCH ==> targets[c] == Target(p, c)
    ensures s == Result(m, p, start)
  {
    hide StepN, WorkLeft, Exec, BranchAdd, Taken, Result, Records;
    s := start;
    var pc := 0;
    ghost var n := 0;
    NoSteps(m, p, Config(0, start));
    while pc < |p|
      invariant 0 <= pc <= |p|
      invariant StepN(m, p, n, Config(0, start)) == Config(pc, s)
      decreases WorkLeft(p, Config(pc, s), |p|)
    {
      WorkDrops(m, p, Config(pc, s), |p|);
      StepNAdd(m, p, n, 1, Config(0, start));
      StepOne(m, p, Config(pc, s));
      if p[pc].op != CBRANCH {
        s := Exec(m, p[pc], s);
      } else {
        s := BranchAdd(p[pc], s);
        if Taken(p[pc], s.r[p[pc].dst]) {
          pc := targets[pc];
        }
      }
      pc := pc + 1;
      n := n + 1;
    }
    ResultByAnyRun(m, p, n, start);
  }
}
