// The emission scheduler: a greedy pass that moves one independent instruction
// into the slot after a long multiply (src/jit_compiler_a64.cpp).
module Scheduler {
  import opened Words
  import opened Reciprocal
  import opened Vm
  import opened Footprint
  import opened Interpreter
  import opened Reorder
  import opened Replay

  // The start of the branch-free stretch that ends at c.
  function DomainStart(p: Program, c: nat): (d: nat)
    requires c <= |p|
    ensures d <= c
    ensures forall j :: d <= j < c ==> p[j].op != CBRANCH
    ensures d > 0 ==> p[d - 1].op == CBRANCH
  {
    if c == 0 || p[c - 1].op == CBRANCH then c else DomainStart(p, c - 1)
  }

  // The last instruction in [lo, c) whose footprint writes r, or -1.
  function Anchor(p: Program, r: Reg, lo: nat, c: nat): (a: int)
    requires lo <= c <= |p|
    ensures a == -1 || (lo <= a < c && r in FootprintOf(p[a]).intWrite)
    ensures forall j :: lo <= j < c && a < j ==> r !in FootprintOf(p[j]).intWrite
    decreases c
  {
    if c == lo then -1
    else if r in FootprintOf(p[c - 1]).intWrite then c - 1
    else Anchor(p, r, lo, c - 1)
  }

  function AnchorOf(p: Program, c: nat): int
    requires c < |p|
  {
    Anchor(p, p[c].dst, DomainStart(p, c), c)
  }

  predicate AnchorsBefore(p: Program, j: nat, n: nat)
    requires n <= |p|
  {
    exists c :: 0 <= c < n && p[c].op == CBRANCH && AnchorOf(p, c) == j
  }

  predicate IsAnchor(p: Program, j: nat) { AnchorsBefore(p, j, |p|) }

  // May instruction j take part in a swap?
  predicate Movable(p: Program, j: nat)
    requires j < |p|
  {
    !FootprintOf(p[j]).barrier && !IsAnchor(p, j) && p[j].src != p[j].dst
  }

  predicate CanFillNext(p: Program, i: nat) {
    && i + 2 < |p| && FootprintOf(p[i]).longLatency
    && Movable(p, i + 1) && Movable(p, i + 2)
    && Hazard(p[i], p[i + 1]) && !Hazard(p[i], p[i + 2]) && !Hazard(p[i + 1], p[i + 2])
  }

  predicate CanFillSecond(p: Program, i: nat) {
    && i + 3 < |p| && FootprintOf(p[i]).longLatency
    && Movable(p, i + 1) && Movable(p, i + 2) && Movable(p, i + 3)
    && Hazard(p[i], p[i + 1]) && !Hazard(p[i], p[i + 3])
    && !Hazard(p[i + 1], p[i + 3]) && !Hazard(p[i + 2], p[i + 3])
  }

  // A negative budget means no limit.
  function Spend(budget: int): int { if budget > 0 then budget - 1 else budget }

  // The slots emitted next, starting with instruction i.
  function Block(p: Program, i: nat, budget: int): (b: seq<nat>)
    requires i < |p|
    ensures 0 < |b| && i + |b| <= |p| && b[0] == i
  {
    if CanFillNext(p, i) && budget != 0 then [i, i + 2, i + 1]
    else if CanFillSecond(p, i) && budget != 0 then [i, i + 3, i + 1, i + 2]
    else [i]
  }

  function BudgetAfter(block: seq<nat>, budget: int): int {
    if |block| > 1 then Spend(budget) else budget
  }

  // All slots from i on.
  function Plan(p: Program, i: nat, budget: int): seq<nat>
    requires i <= |p|
    decreases |p| - i
  {
    if i == |p| then []
    else
      var b := Block(p, i, budget);
      b + Plan(p, i + |b|, BudgetAfter(b, budget))
  }

  // Branches and anchors, which no swap moves.
  predicate Fixed(p: Program, j: nat)
    requires j < |p|
  {
    p[j].op == CBRANCH || IsAnchor(p, j)
  }

  ghost predicate KeptAt(xs: seq<nat>, i: nat, j: nat)
    requires i <= j < i + |xs|
  {
    xs[j - i] == j && (forall a :: 0 <= a < j - i ==> xs[a] < j) && (forall a :: j - i < a < |xs| ==> xs[a] > j)
  }

  ghost predicate SwapsSafe(p: Program, xs: seq<nat>)
    requires forall a :: 0 <= a < |xs| ==> xs[a] < |p|
  {
    forall a, b :: 0 <= a < b < |xs| && xs[a] > xs[b] ==> !Hazard(p[xs[b]], p[xs[a]])
  }

  // What a plan for the slots from i on must satisfy.
  ghost predicate Sound(p: Program, i: nat, xs: seq<nat>) {
    && i + |xs| == |p|
    && (forall a :: 0 <= a < |xs| ==> i <= xs[a] < |p|)
    && multiset(xs) == multiset(Range(i, |p|))
    && SwapsSafe(p, xs)
    && (forall j :: i <= j < |p| && Fixed(p, j) ==> KeptAt(xs, i, j))
  }

  // A block permutes its own stretch of slots, by swaps that cross no hazard
  // and no fixed instruction.
  ghost predicate GoodBlock(p: Program, i: nat, block: seq<nat>)
    requires i + |block| <= |p|
  {
    && |block| > 0 && block[0] == i
    && (forall a :: 0 < a < |block| ==> i < block[a] < i + |block|)
    && multiset(block) == multiset(Range(i, i + |block|))
    && SwapsSafe(p, block)
    && (forall j :: i < j < i + |block| ==> !Fixed(p, j))
  }

  lemma ThreeSlots(i: nat)
    ensures multiset([i, i + 2, i + 1]) == multiset(Range(i, i + 3))
  {
    assert Range(i, i + 3) == [i, i + 1, i + 2];
    assert [i, i + 2, i + 1] == [i] + [i + 2] + [i + 1];
    assert [i, i + 1, i + 2] == [i] + [i + 1] + [i + 2];
  }

  lemma FillNextIsGood(p: Program, i: nat)
    requires CanFillNext(p, i)
    ensures GoodBlock(p, i, [i, i + 2, i + 1])
  {
    hide HasHazard, FootprintOf, IsAnchor;
    var b := [i, i + 2, i + 1];
    ThreeSlots(i);
    MovableNotFixed(p, i + 1);
    MovableNotFixed(p, i + 2);
    forall x, y | 0 <= x < y < 3 && b[x] > b[y] ensures !Hazard(p[b[y]], p[b[x]]) {
      assert x == 1 && y == 2;
    }
  }

  lemma FourSlots(i: nat)
    ensures multiset([i, i + 3, i + 1, i + 2]) == multiset(Range(i, i + 4))
  {
    assert Range(i, i + 4) == [i, i + 1, i + 2, i + 3];
    assert [i, i + 3, i + 1, i + 2] == [i] + [i + 3] + [i + 1, i + 2];
    assert [i, i + 1, i + 2, i + 3] == [i] + [i + 1, i + 2] + [i + 3];
  }

  lemma FillSecondIsGood(p: Program, i: nat)
    requires CanFillSecond(p, i)
    ensures GoodBlock(p, i, [i, i + 3, i + 1, i + 2])
  {
    hide HasHazard, FootprintOf, IsAnchor;
    var b := [i, i + 3, i + 1, i + 2];
    FourSlots(i);
    MovableNotFixed(p, i + 1);
    MovableNotFixed(p, i + 2);
    MovableNotFixed(p, i + 3);
    forall x, y | 0 <= x < y < 4 && b[x] > b[y] ensures !Hazard(p[b[y]], p[b[x]]) {
      assert x == 1 && (y == 2 || y == 3);
    }
  }

  lemma BlockIsGood(p: Program, i: nat, budget: int)
    requires i < |p|
    ensures GoodBlock(p, i, Block(p, i, budget))
  {
    hide CanFillNext, CanFillSecond, Hazard, Fixed;
    if CanFillNext(p, i) && budget != 0 {
      FillNextIsGood(p, i);
    } else if CanFillSecond(p, i) && budget != 0 {
      FillSecondIsGood(p, i);
    } else {
      assert Range(i, i + 1) == [i];
    }
  }

  lemma PrependSwaps(p: Program, i: nat, block: seq<nat>, rest: seq<nat>)
    requires i + |block| <= |p| && Sound(p, i + |block|, rest) && GoodBlock(p, i, block)
    ensures SwapsSafe(p, block + rest)
  {
    hide Hazard, Fixed;
    var xs := block + rest;
    forall a, b | 0 <= a < b < |xs| && xs[a] > xs[b] ensures !Hazard(p[xs[b]], p[xs[a]]) {
      if a >= |block| {
        assert xs[a] == rest[a - |block|] && xs[b] == rest[b - |block|];
      } else if b < |block| {
        assert xs[a] == block[a] && xs[b] == block[b];
      }
    }
  }

  lemma PrependKept(p: Program, i: nat, block: seq<nat>, rest: seq<nat>, j: nat)
    requires i + |block| <= |p| && Sound(p, i + |block|, rest) && GoodBlock(p, i, block)
    requires i <= j < |p| && Fixed(p, j)
    ensures KeptAt(block + rest, i, j)
  {
    hide SwapsSafe, Fixed;
    var xs, k := block + rest, i + |block|;
    if j >= k {
      assert KeptAt(rest, k, j);
      assert xs[j - i] == rest[j - k];
      forall a | j - i < a < |xs| ensures xs[a] > j { assert xs[a] == rest[a - |block|]; }
    }
  }

  lemma Prepend(p: Program, i: nat, block: seq<nat>, rest: seq<nat>)
    requires i + |block| <= |p| && Sound(p, i + |block|, rest) && GoodBlock(p, i, block)
    ensures Sound(p, i, block + rest)
  {
    hide Fixed;
    PrependSwaps(p, i, block, rest);
    forall j | i <= j < |p| && Fixed(p, j) ensures KeptAt(block + rest, i, j) {
      PrependKept(p, i, block, rest, j);
    }
    assert Range(i, |p|) == Range(i, i + |block|) + Range(i + |block|, |p|);
  }

  lemma NothingLeft(p: Program)
    ensures Sound(p, |p|, [])
  {
    assert Range(|p|, |p|) == [];
  }

  lemma {:induction false} PlanSound(p: Program, i: nat, budget: int)
    requires i <= |p|
    ensures Sound(p, i, Plan(p, i, budget))
    decreases |p| - i
  {
    hide Block, GoodBlock, Sound;
    if i == |p| {
      NothingLeft(p);
    } else {
      var b := Block(p, i, budget);
      BlockIsGood(p, i, budget);
      PlanSound(p, i + |b|, BudgetAfter(b, budget));
      Prepend(p, i, b, Plan(p, i + |b|, BudgetAfter(b, budget)));
    }
  }

  lemma MovableNotFixed(p: Program, j: nat)
    requires j < |p| && Movable(p, j)
    ensures !Fixed(p, j)
  {
  }

  // The plan is a hazard-respecting permutation that leaves branches in place.
  lemma PlanKeepsHazards(p: Program, budget: int)
    ensures KeepsHazards(p, Plan(p, 0, budget))
    ensures forall j :: 0 <= j < |p| && IsAnchor(p, j) ==>
        Plan(p, 0, budget)[j] == j && Cut(Plan(p, 0, budget), j)
  {
    hide Hazard, FootprintOf, IsAnchor, Plan;
    var order := Plan(p, 0, budget);
    PlanSound(p, 0, budget);
    forall j | 0 <= j < |p| && Fixed(p, j) ensures order[j] == j && Cut(order, j) {
      assert KeptAt(order, 0, j);
    }
  }

  // The anchor search counts instructions that compile to nothing as writers,
  // the branch-target bookkeeping does not. They agree when this holds.
  predicate AnchorReal(p: Program, c: nat)
    requires c < |p|
  {
    AnchorOf(p, c) >= 0 ==> !IsNop(p[AnchorOf(p, c)])
  }

  lemma RecordsWrites(i: Instr, r: Reg)
    requires i.op != CBRANCH
    ensures Records(i, r) <==> r in FootprintOf(i).intWrite && !IsNop(i)
  {
  }

  // Under AnchorReal a branch returns to its anchor, or else to the previous branch.
  lemma TargetIsAnchor(p: Program, c: nat)
    requires c < |p| && AnchorReal(p, c)
    ensures Target(p, c) == if AnchorOf(p, c) >= 0 then AnchorOf(p, c) else DomainStart(p, c) - 1
  {
    hide FootprintOf, Records, IsNop;
    var a, d, r := AnchorOf(p, c), DomainStart(p, c), p[c].dst;
    forall j | d <= j < c ensures Records(p[j], r) <==> r in FootprintOf(p[j]).intWrite && !IsNop(p[j]) {
      RecordsWrites(p[j], r);
    }
    if a >= 0 {
      LastWriterIs(p, r, c, a);
    } else {
      if d > 0 { BranchRecords(p[d - 1], r); }
      LastWriterIs(p, r, c, d - 1);
    }
  }

  lemma AnchorRealKept(p: Program, budget: int, c: nat)
    requires c < |p| && p[c].op == CBRANCH && AnchorReal(p, c)
    ensures TargetKept(p, Plan(p, 0, budget), c)
  {
    hide Plan, Hazard, AnchorReal;
    PlanKeepsHazards(p, budget);
    TargetIsAnchor(p, c);
    var a := AnchorOf(p, c);
    if a >= 0 { assert IsAnchor(p, a); }
  }

  lemma BranchRecords(i: Instr, r: Reg)
    requires i.op == CBRANCH
    ensures Records(i, r)
  {
  }

  // The main theorem for scheduled emission: for every program, budget and
  // start state, provided no branch anchor is an instruction that compiles to
  // nothing.
  lemma ScheduledRunAgrees(m: Machine, p: Program, budget: int, s: State)
    requires forall c :: 0 <= c < |p| && p[c].op == CBRANCH ==> AnchorReal(p, c)
    ensures KeepsHazards(p, Plan(p, 0, budget))
    ensures Result(m, Permute(p, Plan(p, 0, budget)), s) == Result(m, p, s)
  {
    hide Exec, Plan, AnchorReal, Records, Hazard, Result;
    PlanKeepsHazards(p, budget);
    forall c | 0 <= c < |p| && p[c].op == CBRANCH ensures TargetKept(p, Plan(p, 0, budget), c) {
      AnchorRealKept(p, budget, c);
    }
    ReplayPreserves(m, p, Plan(p, 0, budget), s);
  }

  method FindAnchor(p: Program, lo: nat, c: nat) returns (a: int)
    requires lo <= c < |p|
    ensures a == Anchor(p, p[c].dst, lo, c)
  {
    hide FootprintOf;
    var j := c;
    while j > lo
      invariant lo <= j <= c
      invariant Anchor(p, p[c].dst, lo, j) == Anchor(p, p[c].dst, lo, c)
    {
      j := j - 1;
      if p[c].dst in FootprintOf(p[j]).intWrite { return j; }
    }
    a := -1;
  }

  lemma AnchorsBeforeNext(p: Program, j: nat, n: nat)
    requires n < |p|
    ensures AnchorsBefore(p, j, n + 1) <==>
            AnchorsBefore(p, j, n) || (p[n].op == CBRANCH && AnchorOf(p, n) == j)
  {
  }

  // The anchor pass of scheduleProgram: one backward scan per branch.
  method MarkAnchors(p: Program) returns (anchors: seq<bool>)
    ensures |anchors| == |p|
    ensures forall j :: 0 <= j < |p| ==> anchors[j] == IsAnchor(p, j)
  {
    hide FootprintOf, AnchorsBefore;
    anchors := seq(|p|, _ => false);
    assert forall j: nat :: !AnchorsBefore(p, j, 0) by { NoAnchorsBefore(p); }
    var domainStart := 0;
    for i := 0 to |p|
      invariant |anchors| == |p| && domainStart == DomainStart(p, i)
      invariant forall j :: 0 <= j < |p| ==> anchors[j] == AnchorsBefore(p, j, i)
    {
      forall j: nat { AnchorsBeforeNext(p, j, i); }
      if p[i].op == CBRANCH {
        var a := FindAnchor(p, domainStart, i);
        if a >= 0 { anchors := anchors[a := true]; }
        domainStart := i + 1;
      }
    }
  }

  lemma NoAnchorsBefore(p: Program)
    ensures forall j: nat :: !AnchorsBefore(p, j, 0)
  {
  }

  method MarkMovable(p: Program) returns (movable: seq<bool>)
    ensures |movable| == |p|
    ensures forall k :: 0 <= k < |p| ==> movable[k] == Movable(p, k)
  {
    hide IsAnchor, FootprintOf;
    var anchors := MarkAnchors(p);
    movable := [];
    for j := 0 to |p|
      invariant |movable| == j && forall k :: 0 <= k < j ==> movable[k] == Movable(p, k)
    {
      movable := movable + [!FootprintOf(p[j]).barrier && !anchors[j] && p[j].src != p[j].dst];
    }
  }

  method ScheduleProgram(p: Program, swapBudget: int) returns (order: seq<nat>)
    ensures order == Plan(p, 0, swapBudget)
  {
    hide FootprintOf, HasHazard, Movable;
    var movable := MarkMovable(p);
    order := [];
    var i, budget := 0, swapBudget;
    while i < |p|
      invariant 0 <= i <= |p|
      invariant order + Plan(p, i, budget) == Plan(p, 0, swapBudget)
    {
      var block := [i];
      if FootprintOf(p[i]).longLatency && i + 2 < |p| && movable[i + 1] && movable[i + 2]
         && Hazard(p[i], p[i + 1]) && !Hazard(p[i], p[i + 2]) && !Hazard(p[i + 1], p[i + 2]) && budget != 0 {
        block := [i, i + 2, i + 1];
      } else if FootprintOf(p[i]).longLatency && i + 3 < |p|
         && movable[i + 1] && movable[i + 2] && movable[i + 3]
         && Hazard(p[i], p[i + 1]) && !Hazard(p[i], p[i + 3])
         && !Hazard(p[i + 1], p[i + 3]) && !Hazard(p[i + 2], p[i + 3]) && budget != 0 {
        block := [i, i + 3, i + 1, i + 2];
      }
      assert block == Block(p, i, budget);
      order, i, budget := AppendBlock(p, order, i, budget, block);
    }
  }

  method AppendBlock(p: Program, order: seq<nat>, i: nat, budget: int, block: seq<nat>)
    returns (order': seq<nat>, i': nat, budget': int)
    requires i < |p| && block == Block(p, i, budget)
    ensures order' == order + block && i < i' <= |p|
    ensures order' + Plan(p, i', budget') == order + Plan(p, i, budget)
  {
    hide Block;
    order', i' := order + block, i + |block|;
    budget' := BudgetAfter(block, budget);
    var rest := Plan(p, i', budget');
    assert (order + block) + rest == order + (block + rest);
  }
}
