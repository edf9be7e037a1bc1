// Filling a program up to its fixed length with instructions that do nothing:
// neither the run nor the schedule of the first part changes.
module Padding {
  import opened Words
  import opened Reciprocal
  import opened Vm
  import opened Footprint
  import opened Interpreter
  import opened Reorder
  import opened Replay
  import opened Scheduler

  const PROGRAM_SIZE: nat := 256

  // Swapping a register with itself compiles to nothing.
  const IDLE: Instr := Instr(ISWAP_R, 5, 5, 0, 0)

  function Pad(p: Program, n: nat): (q: Program)
    ensures |q| == |p| + n
    ensures forall k :: 0 <= k < |p| ==> q[k] == p[k]
    ensures forall k :: |p| <= k < |q| ==> q[k] == IDLE
  {
    p + seq(n, _ => IDLE)
  }

  lemma IdleEffect(m: Machine, s: State)
    ensures IDLE.op != CBRANCH && Exec(m, IDLE, s) == s
  {
    hide LoadInt, LoadPair, Lift2;
  }

  lemma PadTarget(p: Program, n: nat, c: nat)
    requires c < |p|
    ensures Target(Pad(p, n), c) == Target(p, c)
  {
    hide Records;
    LastWriterIs(Pad(p, n), p[c].dst, c, Target(p, c));
  }

  lemma PadStep(m: Machine, p: Program, n: nat, c: Config)
    requires c.pc < |p|
    ensures Step(m, Pad(p, n), c) == Step(m, p, c)
  {
    hide Exec, BranchAdd, Taken, Target, Pad;
    PadTarget(p, n, c.pc);
  }

  lemma FirstStep(m: Machine, p: Program, k: nat, c: Config)
    requires c.pc <= |p| && k > 0
    ensures StepN(m, p, k, c) == StepN(m, p, k - 1, Step(m, p, c))
  {
    hide StepN, Step;
    StepNAdd(m, p, 1, k - 1, c);
    StepOne(m, p, c);
  }

  // A run of the first part is a run of the padded program.
  lemma {:induction false} PadRun(m: Machine, p: Program, n: nat, k: nat, c: Config) returns (j: nat)
    requires c.pc <= |p| && StepN(m, p, k, c).pc == |p|
    ensures StepN(m, Pad(p, n), j, c) == StepN(m, p, k, c)
    decreases k
  {
    hide StepN, Step, Pad;
    NoSteps(m, p, c);
    if c.pc == |p| || k == 0 {
      Halted(m, p, k, c);
      NoSteps(m, Pad(p, n), c);
      j := 0;
    } else {
      FirstStep(m, p, k, c);
      PadStep(m, p, n, c);
      var i := PadRun(m, p, n, k - 1, Step(m, p, c));
      j := i + 1;
      FirstStep(m, Pad(p, n), j, c);
    }
  }

  lemma {:induction false} IdleRun(m: Machine, p: Program, n: nat, k: nat, s: State)
    requires k <= n
    ensures StepN(m, Pad(p, n), k, Config(|p| + n - k, s)) == Config(|p| + n, s)
  {
    hide StepN, Exec, Pad;
    if k == 0 {
      NoSteps(m, Pad(p, n), Config(|p| + n, s));
    } else {
      IdleEffect(m, s);
      FirstStep(m, Pad(p, n), k, Config(|p| + n - k, s));
      IdleRun(m, p, n, k - 1, s);
    }
  }

  // Padding changes no result.
  lemma PadResult(m: Machine, p: Program, n: nat, s: State)
    ensures Result(m, Pad(p, n), s) == Result(m, p, s)
  {
    hide StepN, Pad, WorkLeft, Exec;
    var c := Config(0, s);
    HaltsWithin(m, p, 3 * |p|, c);
    var j := PadRun(m, p, n, 3 * |p|, c);
    var t := Result(m, p, s);
    StepNAdd(m, Pad(p, n), j, n, c);
    IdleRun(m, p, n, n, t);
    ResultByAnyRun(m, Pad(p, n), j + n, s);
  }

  lemma {:induction false} PadDomain(p: Program, n: nat, c: nat)
    requires c <= |p|
    ensures DomainStart(Pad(p, n), c) == DomainStart(p, c)
  {
    hide Pad;
    if c > 0 { PadDomain(p, n, c - 1); }
  }

  lemma {:induction false} PadAnchor(p: Program, n: nat, r: Reg, lo: nat, c: nat)
    requires lo <= c <= |p|
    ensures Anchor(Pad(p, n), r, lo, c) == Anchor(p, r, lo, c)
    decreases c
  {
    hide Pad, FootprintOf;
    if lo < c { PadAnchor(p, n, r, lo, c - 1); }
  }

  lemma PadAnchorOf(p: Program, n: nat, c: nat)
    requires c < |p|
    ensures AnchorOf(Pad(p, n), c) == AnchorOf(p, c)
    ensures AnchorReal(Pad(p, n), c) <==> AnchorReal(p, c)
  {
    hide Pad, FootprintOf, IsNop;
    PadDomain(p, n, c);
    PadAnchor(p, n, p[c].dst, DomainStart(p, c), c);
  }

  lemma PadIsAnchor(p: Program, n: nat, j: nat)
    ensures IsAnchor(Pad(p, n), j) <==> IsAnchor(p, j)
  {
    hide Pad, AnchorOf, AnchorReal;
    var q := Pad(p, n);
    assert IDLE.op != CBRANCH;
    if c :| 0 <= c < |p| && p[c].op == CBRANCH && AnchorOf(p, c) == j {
      PadAnchorOf(p, n, c);
      assert q[c].op == CBRANCH && AnchorOf(q, c) == j;
    }
    if c :| 0 <= c < |q| && q[c].op == CBRANCH && AnchorOf(q, c) == j {
      PadAnchorOf(p, n, c);
      assert p[c].op == CBRANCH && AnchorOf(p, c) == j;
    }
  }

  // An idle instruction takes part in no swap.
  lemma PadMovable(p: Program, n: nat, j: nat)
    requires j < |p| + n
    ensures Movable(Pad(p, n), j) <==> j < |p| && Movable(p, j)
  {
    hide Pad, IsAnchor, FootprintOf;
    PadIsAnchor(p, n, j);
  }

  lemma PadBlock(p: Program, n: nat, i: nat, budget: int)
    requires i < |p| + n
    ensures Block(Pad(p, n), i, budget) == if i < |p| then Block(p, i, budget) else [i]
  {
    hide Pad, Movable, FootprintOf, HasHazard;
    var q := Pad(p, n);
    forall j | i <= j < |q| ensures Movable(q, j) <==> j < |p| && Movable(p, j) {
      PadMovable(p, n, j);
    }
    assert !FootprintOf(IDLE).longLatency by { IdleIsQuick(); }
    PadFills(p, n, i);
  }

  lemma IdleIsQuick()
    ensures !FootprintOf(IDLE).longLatency
  {
  }

  lemma PadFills(p: Program, n: nat, i: nat)
    requires i < |p| + n
    requires forall j :: i <= j < |p| + n ==> (Movable(Pad(p, n), j) <==> j < |p| && Movable(p, j))
    requires !FootprintOf(IDLE).longLatency
    ensures CanFillNext(Pad(p, n), i) <==> i < |p| && CanFillNext(p, i)
    ensures CanFillSecond(Pad(p, n), i) <==> i < |p| && CanFillSecond(p, i)
  {
    hide Pad, Movable, FootprintOf, HasHazard;
  }

  lemma {:induction false} PadPlan(p: Program, n: nat, i: nat, budget: int)
    requires i <= |p| + n
    ensures Plan(Pad(p, n), i, budget) ==
            if i <= |p| then Plan(p, i, budget) + Range(|p|, |p| + n) else Range(i, |p| + n)
    decreases |p| + n - i
  {
    hide Pad, Block;
    if i == |p| + n {
      assert Range(i, i) == [];
    } else {
      PadBlock(p, n, i, budget);
      var b := Block(Pad(p, n), i, budget);
      PadPlan(p, n, i + |b|, BudgetAfter(b, budget));
      if i >= |p| {
        assert Range(i, |p| + n) == [i] + Range(i + 1, |p| + n);
      }
    }
  }

  // The schedule of a padded program is the padded schedule.
  lemma PadSchedule(p: Program, n: nat, budget: int)
    ensures KeepsHazards(p, Plan(p, 0, budget)) && KeepsHazards(Pad(p, n), Plan(Pad(p, n), 0, budget))
    ensures Permute(Pad(p, n), Plan(Pad(p, n), 0, budget)) == Pad(Permute(p, Plan(p, 0, budget)), n)
  {
    hide Pad, Plan, Hazard, Permutation;
    PlanKeepsHazards(p, budget);
    PlanKeepsHazards(Pad(p, n), budget);
    PadPlan(p, n, 0, budget);
  }

  // So a program that its schedule changes is one that its padded schedule changes.
  lemma PadScheduledResult(m: Machine, p: Program, n: nat, budget: int, s: State)
    ensures KeepsHazards(p, Plan(p, 0, budget)) && KeepsHazards(Pad(p, n), Plan(Pad(p, n), 0, budget))
    ensures Result(m, Permute(Pad(p, n), Plan(Pad(p, n), 0, budget)), s) ==
            Result(m, Permute(p, Plan(p, 0, budget)), s)
  {
    hide Pad, Plan, KeepsHazards, Permute, Result;
    PadSchedule(p, n, budget);
    OrderFits(p, Plan(p, 0, budget));
    OrderFits(Pad(p, n), Plan(Pad(p, n), 0, budget));
    PadResult(m, Permute(p, Plan(p, 0, budget)), n, s);
  }
}
