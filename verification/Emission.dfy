// Loops in a scheduled program: exactly when the emitted loops replay what the
// interpreter's loops replay (src/jit_compiler_a64.cpp).
module Emission {
  import opened Words
  import opened Reciprocal
  import opened Vm
  import opened Footprint
  import opened Interpreter
  import opened Reorder
  import opened Replay
  import opened Scheduler

  // The original instructions the interpreter's loop at c replays.
  ghost function LoopOf(p: Program, c: nat): multiset<nat>
    requires c < |p|
  {
    multiset(Range(Target(p, c) + 1, c))
  }

  // The original instructions the emitted loop at c replays.
  ghost function EmittedLoopOf(p: Program, order: seq<nat>, c: nat): multiset<nat>
    requires |order| == |p| && (forall a :: 0 <= a < |order| ==> order[a] < |p|) && c < |p|
  {
    multiset(order[Target(Permute(p, order), c) + 1..c])
  }

  lemma SameLoopSameTarget(p: Program, order: seq<nat>, c: nat)
    requires KeepsHazards(p, order) && c < |p| && p[c].op == CBRANCH
    requires EmittedLoopOf(p, order, c) == LoopOf(p, c)
    ensures Target(Permute(p, order), c) == Target(p, c)
  {
    hide Records, Hazard;
    assert |EmittedLoopOf(p, order, c)| == c - 1 - Target(Permute(p, order), c);
    assert |LoopOf(p, c)| == c - 1 - Target(p, c);
  }

  lemma NotTwice(order: seq<nat>, n: nat, lo: nat, hi: nat, a: nat)
    requires Permutation(order, n) && |order| == n && a < lo <= hi <= n
    ensures order[a] !in multiset(order[lo..hi])
  {
    PermutationFacts(order, n);
    assert forall k :: 0 <= k < hi - lo ==> order[lo..hi][k] == order[lo + k];
  }

  // A stretch up to a cut that holds exactly its own numbers begins at a cut.
  lemma StretchCut(order: seq<nat>, n: nat, lo: nat, hi: nat)
    requires Permutation(order, n) && |order| == n && lo <= hi && Cut(order, hi)
    requires multiset(order[lo..hi]) == multiset(Range(lo, hi))
    ensures Cut(order, lo)
  {
    hide Permutation, Range;
    var xs := order[lo..hi];
    forall k | lo <= k < hi ensures order[k] >= lo {
      assert xs[k - lo] in multiset(xs);
      RangeOnce(lo, hi, order[k]);
    }
    forall a | 0 <= a < lo ensures order[a] < lo {
      NotTwice(order, n, lo, hi, a);
      RangeOnce(lo, hi, order[a]);
    }
  }

  lemma SameLoopCut(p: Program, order: seq<nat>, c: nat)
    requires KeepsHazards(p, order) && c < |p| && p[c].op == CBRANCH
    requires EmittedLoopOf(p, order, c) == LoopOf(p, c)
    ensures Cut(order, Target(p, c) + 1)
  {
    hide Records, Hazard, Permutation, Cut, Range;
    SameLoopSameTarget(p, order, c);
    StretchCut(order, |p|, Target(p, c) + 1, c);
  }

  lemma RecordersConflict(a: Instr, b: Instr, r: Reg)
    requires Records(a, r) && Records(b, r)
    ensures Hazard(a, b)
  {
    if a.op != CBRANCH && b.op != CBRANCH {
      RecordsWrites(a, r);
      RecordsWrites(b, r);
      assert r in FootprintOf(a).intWrite * FootprintOf(b).intWrite;
    }
  }

  // A displaced writer would have passed another writer of the same register.
  lemma WriterInPlace(p: Program, order: seq<nat>, t: nat, r: Reg)
    requires KeepsHazards(p, order) && t < |p| && Cut(order, t + 1)
    requires Records(p[t], r) && Records(p[order[t]], r)
    ensures order[t] == t
  {
    hide Hazard, Records;
    PermutationFacts(order, |p|);
    CutCount(order, |p|, 0, t + 1, t);
    assert t in order[0..t + 1];
    var a :| 0 <= a <= t && order[a] == t;
    RecordersConflict(p[order[t]], p[t], r);
  }

  lemma SameLoopKeepsTarget(p: Program, order: seq<nat>, c: nat)
    requires KeepsHazards(p, order) && c < |p| && p[c].op == CBRANCH
    requires EmittedLoopOf(p, order, c) == LoopOf(p, c)
    ensures TargetKept(p, order, c)
  {
    hide Hazard, Records, Permutation;
    var t := Target(p, c);
    SameLoopSameTarget(p, order, c);
    SameLoopCut(p, order, c);
    SameBranches(p, order, c);
    if t >= 0 {
      WriterInPlace(p, order, t, p[c].dst);
      CutBefore(order, |p|, t);
    }
  }

  lemma CutBefore(order: seq<nat>, n: nat, k: nat)
    requires Permutation(order, n) && k < |order| && Cut(order, k + 1) && order[k] == k
    ensures Cut(order, k)
  {
    hide Permutation;
    PermutationFacts(order, n);
  }

  lemma KeptTargetKeepsLoop(p: Program, order: seq<nat>, c: nat)
    requires KeepsHazards(p, order) && c < |p| && p[c].op == CBRANCH && TargetKept(p, order, c)
    ensures EmittedLoopOf(p, order, c) == LoopOf(p, c)
  {
    hide Hazard, Records, Permutation, Range;
    var t := Target(p, c);
    SameTarget(p, order, c);
    TargetCut(p, order, c);
    CutRange(order, |p|, t + 1, c);
  }

  // An emitted loop replays the interpreter's instructions exactly when the
  // instruction the branch returns to kept its slot.
  lemma LoopReplayedIff(p: Program, order: seq<nat>, c: nat)
    requires KeepsHazards(p, order) && c < |p| && p[c].op == CBRANCH
    ensures EmittedLoopOf(p, order, c) == LoopOf(p, c) <==> TargetKept(p, order, c)
  {
    if TargetKept(p, order, c) {
      KeptTargetKeepsLoop(p, order, c);
    } else if EmittedLoopOf(p, order, c) == LoopOf(p, c) {
      SameLoopKeepsTarget(p, order, c);
    }
  }

  // ---- the same on the program ----

  // Going through p from i on, does a swap pass over instruction t?
  predicate PassedOver(p: Program, i: nat, budget: int, t: nat)
    requires i <= t < |p|
    decreases |p| - i
  {
    var n := |Block(p, i, budget)|;
    if t < i + n then i < t else PassedOver(p, i + n, BudgetAfter(Block(p, i, budget), budget), t)
  }

  // Inside a swapped block nothing but its first instruction keeps its slot.
  lemma BlockDisplaces(p: Program, i: nat, budget: int, t: nat)
    requires i < t < |p| && t < i + |Block(p, i, budget)|
    ensures Block(p, i, budget)[t - i] != t
  {
    hide CanFillNext, CanFillSecond;
  }

  lemma {:induction false} KeptUnlessPassed(p: Program, i: nat, budget: int, t: nat)
    requires i <= t < |p|
    ensures i + |Plan(p, i, budget)| == |p|
    ensures PassedOver(p, i, budget, t) ==> Plan(p, i, budget)[t - i] != t
    ensures !PassedOver(p, i, budget, t) ==> KeptAt(Plan(p, i, budget), i, t)
    decreases |p| - i
  {
    hide Block, GoodBlock, Fixed, SwapsSafe;
    var b := Block(p, i, budget);
    var k, left := i + |b|, BudgetAfter(b, budget);
    PlanSound(p, i, budget);
    PlanSound(p, k, left);
    if t >= k {
      KeptUnlessPassed(p, k, left, t);
      BlockWithin(p, i, budget);
      KeptBehind(i, b, Plan(p, k, left), t);
    } else if i < t {
      BlockDisplaces(p, i, budget, t);
    } else {
      BlockWithin(p, i, budget);
      FirstKept(p, i, budget);
    }
  }

  lemma BlockWithin(p: Program, i: nat, budget: int)
    requires i < |p|
    ensures var b := Block(p, i, budget); b[0] == i && forall a :: 0 < a < |b| ==> i < b[a] < i + |b|
  {
    hide CanFillNext, CanFillSecond;
  }

  lemma KeptBehind(i: nat, block: seq<nat>, rest: seq<nat>, t: nat)
    requires |block| > 0 && i + |block| <= t < i + |block| + |rest|
    requires block[0] == i && forall a :: 0 < a < |block| ==> i < block[a] < i + |block|
    ensures KeptAt(rest, i + |block|, t) ==> KeptAt(block + rest, i, t)
    ensures (block + rest)[t - i] == rest[t - (i + |block|)]
  {
    var xs, k := block + rest, i + |block|;
    if KeptAt(rest, k, t) {
      forall a | 0 <= a < |xs| ensures (a < t - i ==> xs[a] < t) && (t - i < a ==> xs[a] > t) {
        assert xs[a] == if a < |block| then block[a] else rest[a - |block|];
      }
    }
  }

  lemma FirstKept(p: Program, i: nat, budget: int)
    requires i < |p|
    ensures i + |Plan(p, i, budget)| == |p| && KeptAt(Plan(p, i, budget), i, i)
  {
    hide Block, Fixed, SwapsSafe, GoodBlock;
    var b := Block(p, i, budget);
    var k, left := i + |b|, BudgetAfter(b, budget);
    var xs := Plan(p, i, budget);
    PlanSound(p, k, left);
    BlockWithin(p, i, budget);
    forall a | 0 < a < |xs| ensures xs[a] > i {
      assert xs[a] == if a < |b| then b[a] else Plan(p, k, left)[a - |b|];
    }
  }

  predicate TargetUnpassed(p: Program, budget: int, c: nat)
    requires c < |p|
  {
    Target(p, c) < 0 || !PassedOver(p, 0, budget, Target(p, c))
  }

  lemma TargetKeptIff(p: Program, budget: int, c: nat)
    requires c < |p|
    ensures TargetKept(p, Plan(p, 0, budget), c) <==> TargetUnpassed(p, budget, c)
  {
    hide Plan, PassedOver, LastWriter;
    if Target(p, c) >= 0 { KeptUnlessPassed(p, 0, budget, Target(p, c)); }
  }

  // For the scheduler's own order: an emitted loop replays the interpreter's
  // instructions exactly when no swap passes over the instruction the branch
  // returns to.
  lemma ScheduledLoopReplayedIff(p: Program, budget: int, c: nat)
    requires c < |p| && p[c].op == CBRANCH
    ensures KeepsHazards(p, Plan(p, 0, budget))
    ensures EmittedLoopOf(p, Plan(p, 0, budget), c) == LoopOf(p, c) <==> TargetUnpassed(p, budget, c)
  {
    hide Plan, KeepsHazards, TargetKept, TargetUnpassed, EmittedLoopOf, LoopOf;
    PlanKeepsHazards(p, budget);
    OrderFits(p, Plan(p, 0, budget));
    LoopReplayedIff(p, Plan(p, 0, budget), c);
    TargetKeptIff(p, budget, c);
  }

  // If that holds for every branch, the scheduled run gives the interpreter's result.
  lemma UnpassedRunAgrees(m: Machine, p: Program, budget: int, s: State)
    requires forall c :: 0 <= c < |p| && p[c].op == CBRANCH ==> TargetUnpassed(p, budget, c)
    ensures KeepsHazards(p, Plan(p, 0, budget))
    ensures Result(m, Permute(p, Plan(p, 0, budget)), s) == Result(m, p, s)
  {
    hide Plan, KeepsHazards, TargetKept, TargetUnpassed, Result, Permute;
    PlanKeepsHazards(p, budget);
    OrderFits(p, Plan(p, 0, budget));
    forall c | 0 <= c < |p| && p[c].op == CBRANCH ensures TargetKept(p, Plan(p, 0, budget), c) {
      TargetKeptIff(p, budget, c);
    }
    ReplayPreserves(m, p, Plan(p, 0, budget), s);
  }
}
