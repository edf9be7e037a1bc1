// How much the schedulers reorder: they spend at most the swap budget, and while
// any of it is left they fill every slot that may be filled
// (src/jit_compiler_a64.cpp).
module SwapBudget {
  import opened Vm
  import opened Footprint
  import opened Reorder
  import opened Replay
  import opened Scheduler
  import opened Emission
  import DagScheduler
  import Superscalar

  // How many slots hold a later instruction than their own; slots count from base.
  function Early(xs: seq<nat>, base: nat): nat {
    if xs == [] then 0 else (if xs[0] > base then 1 else 0) + Early(xs[1..], base + 1)
  }

  lemma {:induction false} EarlyConcat(a: seq<nat>, b: seq<nat>, base: nat)
    ensures Early(a + b, base) == Early(a, base) + Early(b, base + |a|)
    decreases |a|
  {
    if a == [] {
      assert a + b == b;
    } else {
      assert (a + b)[1..] == a[1..] + b;
      EarlyConcat(a[1..], b, base + 1);
    }
  }

  lemma EarlyFirst(x: nat, xs: seq<nat>, base: nat)
    ensures Early([x] + xs, base) == (if x > base then 1 else 0) + Early(xs, base + 1)
  {
    assert ([x] + xs)[1..] == xs;
  }

  // A swapped block moves one instruction forward.
  lemma EarlyInBlock(p: Program, i: nat, budget: int)
    requires i < |p|
    ensures Early(Block(p, i, budget), i) == if |Block(p, i, budget)| > 1 then 1 else 0
  {
    hide CanFillNext, CanFillSecond, Early;
    assert Early([], i + 1) == Early([], i + 3) == Early([], i + 4) == 0 by { EarlyNone(i); }
    EarlyFirst(i, [], i);
    EarlyFirst(i + 1, [], i + 2);
    EarlyFirst(i + 2, [i + 1], i + 1);
    EarlyFirst(i, [i + 2, i + 1], i);
    EarlyFirst(i + 2, [], i + 3);
    EarlyFirst(i + 1, [i + 2], i + 2);
    EarlyFirst(i + 3, [i + 1, i + 2], i + 1);
    EarlyFirst(i, [i + 3, i + 1, i + 2], i);
    assert [i] == [i] + [] && [i + 1] == [i + 1] + [] && [i + 2] == [i + 2] + [];
    assert [i + 2, i + 1] == [i + 2] + [i + 1] && [i, i + 2, i + 1] == [i] + [i + 2, i + 1];
    assert [i + 1, i + 2] == [i + 1] + [i + 2] && [i + 3, i + 1, i + 2] == [i + 3] + [i + 1, i + 2];
    assert [i, i + 3, i + 1, i + 2] == [i] + [i + 3, i + 1, i + 2];
  }

  lemma EarlyNone(i: nat)
    ensures Early([], i + 1) == Early([], i + 3) == Early([], i + 4) == 0
  {
  }

  // May the slot after i be filled?
  predicate Fillable(p: Program, i: nat) { CanFillNext(p, i) || CanFillSecond(p, i) }

  // In an order for the slots from i on, the slots j and j + 1 are as in the program.
  predicate Untouched(xs: seq<nat>, i: nat, j: nat) {
    i <= j && j + 1 < i + |xs| && xs[j - i] == j && xs[j + 1 - i] == j + 1
  }

  lemma UnswappedBlock(p: Program, i: nat, budget: int)
    requires i < |p| && budget != 0
    ensures |Block(p, i, budget)| > 1 <==> Fillable(p, i)
  {
    hide CanFillNext, CanFillSecond;
  }

  lemma {:induction false} Spending(p: Program, i: nat, budget: int)
    requires i <= |p|
    ensures budget >= 0 ==> Early(Plan(p, i, budget), i) <= budget
    ensures budget < 0 || Early(Plan(p, i, budget), i) < budget ==>
              forall j: nat :: Untouched(Plan(p, i, budget), i, j) ==> !Fillable(p, j)
    decreases |p| - i
  {
    hide Block, Fillable;
    if i < |p| {
      var b := Block(p, i, budget);
      var k, left := i + |b|, BudgetAfter(b, budget);
      var xs, rest := Plan(p, i, budget), Plan(p, k, left);
      Spending(p, k, left);
      EarlyInBlock(p, i, budget);
      EarlyConcat(b, rest, i);
      BlockSpends(p, i, budget);
      if budget < 0 || Early(xs, i) < budget {
        forall j: nat | Untouched(xs, i, j) ensures !Fillable(p, j) {
          if j >= k {
            assert xs[j - i] == rest[j - k] && xs[j + 1 - i] == rest[j + 1 - k];
            assert Untouched(rest, k, j);
          } else {
            InsideBlock(p, i, budget, xs, rest, j);
          }
        }
      }
    }
  }

  // A swap is made only while something is left to spend.
  lemma BlockSpends(p: Program, i: nat, budget: int)
    requires i < |p|
    ensures |Block(p, i, budget)| > 1 ==> budget != 0
  {
    hide CanFillNext, CanFillSecond;
  }

  lemma InsideBlock(p: Program, i: nat, budget: int, xs: seq<nat>, rest: seq<nat>, j: nat)
    requires i < |p| && budget != 0 && xs == Block(p, i, budget) + rest
    requires Untouched(xs, i, j) && j < i + |Block(p, i, budget)|
    ensures !Fillable(p, j)
  {
    hide Block, Fillable;
    var b := Block(p, i, budget);
    UnswappedBlock(p, i, budget);
    assert xs[j - i] == b[j - i];
    if j > i {
      BlockDisplaces(p, i, budget, j);
    } else if |b| > 1 {
      assert xs[1] == b[1];
      BlockDisplaces(p, i, budget, i + 1);
    }
  }

  // The order never makes more swaps than the budget. If it makes fewer, or there
  // is no limit, no slot after a long multiply is left that could be filled.
  lemma ScheduleIsMaximal(p: Program, budget: int)
    ensures budget >= 0 ==> Early(Plan(p, 0, budget), 0) <= budget
    ensures budget < 0 || Early(Plan(p, 0, budget), 0) < budget ==>
              forall j: nat :: Untouched(Plan(p, 0, budget), 0, j) ==> !Fillable(p, j)
  {
    hide Plan, Early, Fillable;
    Spending(p, 0, budget);
  }

  // Both schedulers fill after the same instructions: the one by its footprints,
  // the dependence-graph one by its own list.
  lemma SameMultiplies(i: Instr)
    ensures FootprintOf(i).longLatency <==> DagScheduler.IsMultiply(i)
  {
  }

  // ---- superscalar programs ----

  lemma {:induction false} SuperscalarFills(p: seq<Superscalar.Instr>, i: nat, j: nat)
    requires i <= |p| && Untouched(Superscalar.Plan(p, i), i, j)
    ensures !Superscalar.Swaps(p, j)
    decreases |p| - i
  {
    hide Superscalar.Swaps;
    if i < |p| {
      var b := Superscalar.Block(p, i);
      var rest := Superscalar.Plan(p, i + |b|);
      assert Superscalar.Plan(p, i) == b + rest;
      if j >= i + |b| { SuperscalarFills(p, i + |b|, j); }
    }
  }

  // No slot of a superscalar program is left that could be filled.
  lemma SuperscalarIsMaximal(p: seq<Superscalar.Instr>, j: nat)
    requires Untouched(Superscalar.Plan(p, 0), 0, j)
    ensures !Superscalar.Swaps(p, j)
  {
    SuperscalarFills(p, 0, j);
  }
}
