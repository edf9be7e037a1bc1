// Running a program in a different order: any order that keeps hazards,
// branches and branch targets in place leaves the same state behind.
module Replay {
  import opened Words
  import opened Vm
  import opened Footprint
  import opened BranchArith
  import opened Interpreter
  import opened Reorder

  function Straight(m: Machine, p: Program): (nat, State) -> State {
    (k: nat, s: State) => if k < |p| && p[k].op != CBRANCH then Exec(m, p[k], s) else s
  }

  // Instructions lo, ..., hi - 1 in order.
  function ExecRange(m: Machine, p: Program, lo: nat, hi: nat, s: State): State
    requires lo <= hi
  {
    Run(Straight(m, p), Range(lo, hi), s)
  }

  lemma ExecRangeFirst(m: Machine, p: Program, lo: nat, hi: nat, s: State)
    requires lo < hi <= |p| && p[lo].op != CBRANCH
    ensures ExecRange(m, p, lo, hi, s) == ExecRange(m, p, lo + 1, hi, Exec(m, p[lo], s))
  {
    assert Range(lo, hi)[1..] == Range(lo + 1, hi);
  }

  lemma ExecRangeEmpty(m: Machine, p: Program, lo: nat, s: State)
    ensures ExecRange(m, p, lo, lo, s) == s
  {
    assert Range(lo, lo) == [];
  }

  lemma {:induction false} BodyKeeps(m: Machine, p: Program, lo: nat, hi: nat, r: Reg, s: State)
    requires lo <= hi <= |p|
    requires forall j :: lo <= j < hi ==> p[j].op != CBRANCH && !Records(p[j], r)
    ensures ExecRange(m, p, lo, hi, s).r[r] == s.r[r]
    decreases hi - lo
  {
    hide Exec;
    if lo < hi {
      var s1 := Straight(m, p)(lo, s);
      assert s1.r[r] == s.r[r] by { UnrecordedKeeps(m, p[lo], s, r); }
      assert ExecRange(m, p, lo, hi, s) == ExecRange(m, p, lo + 1, hi, s1) by { ExecRangeFirst(m, p, lo, hi, s); }
      BodyKeeps(m, p, lo + 1, hi, r, s1);
    } else {
      assert Range(lo, hi) == [];
    }
  }

  function LoopBody(m: Machine, p: Program, c: nat, s: State): (t: State)
    requires c < |p| && p[c].op == CBRANCH
    ensures t.r[p[c].dst] == s.r[p[c].dst]
  {
    BodyKeeps(m, p, Target(p, c) + 1, c, p[c].dst, s);
    ExecRange(m, p, Target(p, c) + 1, c, s)
  }

  // A branch executed as often as its condition demands.
  function Loop(m: Machine, p: Program, c: nat, s: State): State
    requires c < |p| && p[c].op == CBRANCH
    decreases TakesLeft(p[c], s.r[p[c].dst])
  {
    var s1 := BranchAdd(p[c], s);
    if Taken(p[c], s1.r[p[c].dst]) then
      TakesLeftDrops(p[c], s.r[p[c].dst]);
      Loop(m, p, c, LoopBody(m, p, c, s1))
    else s1
  }

  // From instruction b to the end, one branch at a time.
  function RunFrom(m: Machine, p: Program, b: nat, s: State): State
    requires b <= |p|
    decreases |p| - b
  {
    var c := NextBranch(p, b);
    var s1 := ExecRange(m, p, b, c, s);
    if c == |p| then s1 else RunFrom(m, p, c + 1, Loop(m, p, c, s1))
  }

  lemma {:induction false} RangeSteps(m: Machine, p: Program, lo: nat, hi: nat, s: State)
    requires lo <= hi <= |p| && forall j :: lo <= j < hi ==> p[j].op != CBRANCH
    ensures StepN(m, p, hi - lo, Config(lo, s)) == Config(hi, ExecRange(m, p, lo, hi, s))
    decreases hi - lo
  {
    hide Exec, StepN, ExecRange;
    if lo < hi {
      ExecRangeFirst(m, p, lo, hi, s);
      RangeSteps(m, p, lo + 1, hi, Exec(m, p[lo], s));
      StepNAdd(m, p, 1, hi - lo - 1, Config(lo, s));
      StepOne(m, p, Config(lo, s));
    } else {
      ExecRangeEmpty(m, p, lo, s);
      NoSteps(m, p, Config(lo, s));
    }
  }

  lemma ThreeRuns(m: Machine, p: Program, a: nat, b: nat, c: nat, x: Config, y: Config, z: Config)
    requires StepN(m, p, a, x) == y && StepN(m, p, b, y) == z
    ensures StepN(m, p, a + b + c, x) == StepN(m, p, c, z)
  {
    StepNAdd(m, p, a, b, x);
    StepNAdd(m, p, a + b, c, x);
  }

  lemma BranchStep(m: Machine, p: Program, c: nat, s: State)
    requires c < |p| && p[c].op == CBRANCH
    ensures var s1 := BranchAdd(p[c], s);
            StepN(m, p, 1, Config(c, s)) ==
            Config(if Taken(p[c], s1.r[p[c].dst]) then Target(p, c) + 1 else c + 1, s1)
    ensures BranchAdd(p[c], s).r[p[c].dst] == Add(s.r[p[c].dst], BranchImm(p[c]))
  {
    hide StepN, BranchImm, Taken;
    StepOne(m, p, Config(c, s));
  }

  lemma {:induction false} LoopSteps(m: Machine, p: Program, c: nat, s: State) returns (n: nat)
    requires c < |p| && p[c].op == CBRANCH
    ensures StepN(m, p, n, Config(c, s)) == Config(c + 1, Loop(m, p, c, s))
    decreases TakesLeft(p[c], s.r[p[c].dst])
  {
    hide Exec, ExecRange, StepN;
    var s1 := BranchAdd(p[c], s);
    BranchStep(m, p, c, s);
    n := 1;
    if Taken(p[c], s1.r[p[c].dst]) {
      var t := Target(p, c) + 1;
      TakesLeftDrops(p[c], s.r[p[c].dst]);
      RangeSteps(m, p, t, c, s1);
      var s2 := LoopBody(m, p, c, s1);
      var k := LoopSteps(m, p, c, s2);
      ThreeRuns(m, p, 1, c - t, k, Config(c, s), Config(t, s1), Config(c, s2));
      n := 1 + (c - t) + k;
    }
  }

  lemma {:induction false} RunSteps(m: Machine, p: Program, b: nat, s: State) returns (n: nat)
    requires b <= |p|
    ensures StepN(m, p, n, Config(b, s)) == Config(|p|, RunFrom(m, p, b, s))
    decreases |p| - b
  {
    hide Exec, Step, Run, Loop, StepN;
    var c := NextBranch(p, b);
    var s1 := ExecRange(m, p, b, c, s);
    RangeSteps(m, p, b, c, s);
    n := c - b;
    if c < |p| {
      var s2 := Loop(m, p, c, s1);
      var k := LoopSteps(m, p, c, s1);
      var j := RunSteps(m, p, c + 1, s2);
      ThreeRuns(m, p, c - b, k, j, Config(b, s), Config(c, s1), Config(c + 1, s2));
      n := c - b + k + j;
    }
  }

  // The program-counter machine and the branch-by-branch reading agree.
  lemma ResultIsRunFrom(m: Machine, p: Program, s: State)
    ensures Result(m, p, s) == RunFrom(m, p, 0, s)
  {
    var n := RunSteps(m, p, 0, s);
    ResultByAnyRun(m, p, n, s);
  }

  // The program as emitted: slot k holds instruction order[k].
  function Permute(p: Program, order: seq<nat>): (q: Program)
    requires |order| == |p| && forall a :: 0 <= a < |order| ==> order[a] < |p|
    ensures |q| == |p|
  {
    seq(|p|, k requires 0 <= k < |p| => p[order[k]])
  }

  // A permutation that only ever swaps instructions without a hazard, and
  // leaves every branch in its place.
  ghost predicate KeepsHazards(p: Program, order: seq<nat>) {
    && Permutation(order, |p|) && |order| == |p|
    && (forall a :: 0 <= a < |order| ==> order[a] < |p|)
    && (forall a, b :: 0 <= a < b < |p| && order[a] > order[b] ==> !Hazard(p[order[b]], p[order[a]]))
    && (forall c :: 0 <= c < |p| && p[c].op == CBRANCH ==> order[c] == c && Cut(order, c))
  }

  // The instruction a branch returns to keeps its slot and its neighbours' sides.
  ghost predicate TargetKept(p: Program, order: seq<nat>, c: nat)
    requires c < |p|
  {
    var t := Target(p, c);
    t >= 0 ==> t < |order| && order[t] == t && Cut(order, t)
  }

  lemma CutNext(order: seq<nat>, n: nat, k: nat)
    requires Permutation(order, n) && k < |order| && Cut(order, k) && order[k] == k
    ensures Cut(order, k + 1)
  {
    PermutationFacts(order, n);
  }

  lemma TargetCut(p: Program, order: seq<nat>, c: nat)
    requires c < |p| && KeepsHazards(p, order) && TargetKept(p, order, c)
    ensures Cut(order, Target(p, c) + 1)
  {
    if Target(p, c) >= 0 { CutNext(order, |p|, Target(p, c)); }
  }

  lemma SameBranches(p: Program, order: seq<nat>, k: nat)
    requires KeepsHazards(p, order) && k < |p|
    ensures Permute(p, order)[k].op == CBRANCH <==> p[k].op == CBRANCH
    ensures p[k].op == CBRANCH ==> Permute(p, order)[k] == p[k]
  {
    PermutationFacts(order, |p|);
    if p[order[k]].op == CBRANCH { assert order[order[k]] == order[k]; }
  }

  lemma {:induction false} SameNextBranch(p: Program, order: seq<nat>, b: nat)
    requires KeepsHazards(p, order) && b <= |p|
    ensures NextBranch(Permute(p, order), b) == NextBranch(p, b)
    decreases |p| - b
  {
    if b < |p| {
      SameBranches(p, order, b);
      SameNextBranch(p, order, b + 1);
    }
  }

  lemma LastWriterIs(p: Program, r: Reg, c: nat, t: int)
    requires c <= |p| && -1 <= t < c
    requires 0 <= t ==> Records(p[t], r)
    requires forall j :: t < j < c ==> !Records(p[j], r)
    ensures LastWriter(p, r, c) == t
  {
  }

  // Kept targets are found again in the emitted program.
  lemma SameTarget(p: Program, order: seq<nat>, c: nat)
    requires KeepsHazards(p, order) && c < |p| && p[c].op == CBRANCH && TargetKept(p, order, c)
    ensures Target(Permute(p, order), c) == Target(p, c)
  {
    var q, t := Permute(p, order), Target(p, c);
    TargetCut(p, order, c);
    forall j | t < j < c ensures !Records(q[j], p[c].dst) {
      assert t < order[j] < c;
    }
    LastWriterIs(q, p[c].dst, c, t);
  }

  lemma {:induction false} Reindex(m: Machine, p: Program, order: seq<nat>, lo: nat, hi: nat, s: State)
    requires KeepsHazards(p, order) && lo <= hi <= |p|
    ensures ExecRange(m, Permute(p, order), lo, hi, s) == Run(Straight(m, p), order[lo..hi], s)
    decreases hi - lo
  {
    hide Exec, Records;
    var q := Permute(p, order);
    if lo < hi {
      var s1 := Straight(m, q)(lo, s);
      assert s1 == Straight(m, p)(order[lo], s);
      assert Range(lo, hi)[1..] == Range(lo + 1, hi);
      assert order[lo..hi][1..] == order[lo + 1..hi];
      Reindex(m, p, order, lo + 1, hi, s1);
    } else {
      assert Range(lo, hi) == [] == order[lo..hi];
    }
  }

  lemma StraightCommutes(m: Machine, p: Program, a: nat, b: nat)
    requires a < |p| && b < |p| && !Hazard(p[a], p[b])
    ensures Commute(Straight(m, p), a, b) && Commute(Straight(m, p), b, a)
  {
    hide Exec, Hazard;
    NoHazardNoBranch(p[a], p[b]);
    forall s: State ensures Straight(m, p)(a, Straight(m, p)(b, s)) == Straight(m, p)(b, Straight(m, p)(a, s)) {
      NoHazardCommutes(m, p[a], p[b], s);
    }
  }

  // Between cuts, the emitted code does what the original code does.
  lemma SameRange(m: Machine, p: Program, order: seq<nat>, lo: nat, hi: nat, s: State)
    requires KeepsHazards(p, order) && lo <= hi && Cut(order, lo) && Cut(order, hi)
    ensures ExecRange(m, Permute(p, order), lo, hi, s) == ExecRange(m, p, lo, hi, s)
  {
    hide Exec, Straight, Hazard, Run;
    var xs := order[lo..hi];
    Reindex(m, p, order, lo, hi, s);
    CutRange(order, |p|, lo, hi);
    forall a, b | 0 <= a < b < |xs| && xs[a] > xs[b] ensures Commute(Straight(m, p), xs[a], xs[b]) {
      StraightCommutes(m, p, xs[b], xs[a]);
    }
    ReorderPreserves(Straight(m, p), xs, Range(lo, hi), s);
  }

  lemma SameBody(m: Machine, p: Program, order: seq<nat>, c: nat, s: State)
    requires KeepsHazards(p, order) && c < |p| && p[c].op == CBRANCH && TargetKept(p, order, c)
    requires Permute(p, order)[c] == p[c]
    ensures LoopBody(m, Permute(p, order), c, s) == LoopBody(m, p, c, s)
  {
    hide Exec, Records, Run, ExecRange, Hazard, Permutation, Target;
    SameTarget(p, order, c);
    TargetCut(p, order, c);
    SameRange(m, p, order, Target(p, c) + 1, c, s);
  }

  lemma {:induction false} SameLoop(m: Machine, p: Program, order: seq<nat>, c: nat, s: State)
    requires KeepsHazards(p, order) && c < |p| && p[c].op == CBRANCH && TargetKept(p, order, c)
    ensures Permute(p, order)[c] == p[c]
    ensures Loop(m, Permute(p, order), c, s) == Loop(m, p, c, s)
    decreases TakesLeft(p[c], s.r[p[c].dst])
  {
    hide Exec, Records, Run, ExecRange, Target, Taken, BranchImm, Hazard, Permutation;
    SameBranches(p, order, c);
    var s1 := BranchAdd(p[c], s);
    if Taken(p[c], s1.r[p[c].dst]) {
      TakesLeftDrops(p[c], s.r[p[c].dst]);
      SameBody(m, p, order, c, s1);
      SameLoop(m, p, order, c, LoopBody(m, p, c, s1));
    }
  }

  lemma OrderFits(p: Program, order: seq<nat>)
    requires KeepsHazards(p, order)
    ensures |order| == |p| && forall a :: 0 <= a < |order| ==> order[a] < |p|
  {
  }

  // Branches and the end of the program are cuts.
  lemma BranchCut(p: Program, order: seq<nat>, c: nat)
    requires KeepsHazards(p, order) && c <= |p| && (c < |p| ==> p[c].op == CBRANCH)
    ensures Cut(order, c) && (c < |p| ==> Cut(order, c + 1))
  {
    hide Hazard, Permutation;
    if c < |p| { CutNext(order, |p|, c); }
  }

  lemma {:induction false} SameRunFrom(m: Machine, p: Program, order: seq<nat>, b: nat, s: State)
    requires KeepsHazards(p, order) && b <= |p| && Cut(order, b)
    requires forall c :: 0 <= c < |p| && p[c].op == CBRANCH ==> TargetKept(p, order, c)
    ensures RunFrom(m, Permute(p, order), b, s) == RunFrom(m, p, b, s)
    decreases |p| - b
  {
    hide Exec, Loop, ExecRange, KeepsHazards, Permute, Records, TargetKept, Cut;
    OrderFits(p, order);
    var q, c := Permute(p, order), NextBranch(p, b);
    SameNextBranch(p, order, b);
    var s1 := ExecRange(m, p, b, c, s);
    assert ExecRange(m, q, b, c, s) == s1 by {
      BranchCut(p, order, c);
      SameRange(m, p, order, b, c, s);
    }
    if c < |p| {
      var s2 := Loop(m, p, c, s1);
      assert q[c] == p[c] && Loop(m, q, c, s1) == s2 by { SameLoop(m, p, order, c, s1); }
      BranchCut(p, order, c);
      SameRunFrom(m, p, order, c + 1, s2);
    }
  }

  // The replay theorem: same registers, scratchpad and rounding mode.
  lemma ReplayPreserves(m: Machine, p: Program, order: seq<nat>, s: State)
    requires KeepsHazards(p, order)
    requires forall c :: 0 <= c < |p| && p[c].op == CBRANCH ==> TargetKept(p, order, c)
    ensures Result(m, Permute(p, order), s) == Result(m, p, s)
  {
    hide Exec, Records, RunFrom;
    ResultIsRunFrom(m, p, s);
    ResultIsRunFrom(m, Permute(p, order), s);
    SameRunFrom(m, p, order, 0, s);
  }
}
