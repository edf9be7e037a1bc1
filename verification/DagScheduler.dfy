// The dependence-graph scheduler (src/jit_compiler_a64.cpp). Every output slot
// takes an instruction at or after its own index, so the only order it can
// ever complete is the original one.
module DagScheduler {
  import opened Vm
  import opened Footprint
  import opened Reorder
  import opened Scheduler

  lemma {:induction false} NeverEarlierIsIdentity(order: seq<nat>, n: nat, k: nat)
    requires |order| == n && k <= n
    requires forall a :: 0 <= a < n ==> a <= order[a] < n
    requires forall a, b :: 0 <= a < b < n ==> order[a] != order[b]
    ensures forall a :: k <= a < n ==> order[a] == a
    decreases n - k
  {
    if k < n {
      NeverEarlierIsIdentity(order, n, k + 1);
      var x := order[k];
      assert order[x] == x || x == k;
    }
  }

  predicate IsMultiply(i: Instr) { i.op in {IMUL_R, IMULH_R, ISMULH_R, IMUL_RCP} }

  // Multiplies, branch anchors and barriers keep their slots.
  predicate IsFixed(p: Program, anchors: seq<bool>, j: nat)
    requires j < |p| == |anchors|
  {
    IsMultiply(p[j]) || FootprintOf(p[j]).barrier || anchors[j]
  }

  predicate Ready(emitted: seq<bool>, indegree: seq<int>, j: nat)
    requires j < |emitted| == |indegree|
  {
    !emitted[j] && indegree[j] == 0
  }

  // How many of the first n instructions j must wait for.
  function HazardsBefore(p: Program, j: nat, n: nat): nat
    requires j < |p| && n <= |p|
  {
    if n == 0 then 0 else HazardsBefore(p, j, n - 1) + if Hazard(p[n - 1], p[j]) then 1 else 0
  }

  lemma HazardsNext(p: Program, j: nat, i: nat)
    requires i < |p| && j < |p|
    ensures HazardsBefore(p, j, Smaller(i + 1, j)) ==
            HazardsBefore(p, j, Smaller(i, j)) + if i < j && Hazard(p[i], p[j]) then 1 else 0
  {
    hide Hazard, FootprintOf;
    if i < j {
      assert Smaller(i + 1, j) == i + 1 && Smaller(i, j) == i;
    }
  }

  lemma NoHazardsYet(p: Program, j: nat)
    requires j < |p|
    ensures HazardsBefore(p, j, 0) == 0
  {
  }

  function Smaller(a: nat, b: nat): nat { if a < b then a else b }

  // Is `out` the set of edges out of i?
  ghost predicate EdgesOf(p: Program, i: nat, out: seq<nat>)
    requires i < |p|
  {
    forall j: nat :: j in out <==> i < j < |p| && Hazard(p[i], p[j])
  }

  // The edges out of i: to every later instruction with a hazard.
  method Successors(p: Program, i: nat, indegree: seq<int>) returns (out: seq<nat>, indegree': seq<int>)
    requires i < |p| == |indegree|
    ensures EdgesOf(p, i, out)
    ensures |indegree'| == |p|
    ensures forall j :: 0 <= j < |p| ==> indegree'[j] == indegree[j] + if i < j && Hazard(p[i], p[j]) then 1 else 0
  {
    hide Hazard;
    out, indegree' := [], indegree;
    for j := i + 1 to |p|
      invariant |indegree'| == |p|
      invariant forall k: nat :: k in out <==> i < k < j && Hazard(p[i], p[k])
      invariant forall k :: 0 <= k < |p| ==>
          indegree'[k] == indegree[k] + if i < k < j && Hazard(p[i], p[k]) then 1 else 0
    {
      if Hazard(p[i], p[j]) {
        out := out + [j];
        indegree' := indegree'[j := indegree'[j] + 1];
      }
    }
  }

  // The dependence graph, and how many edges each instruction waits for.
  method Dependences(p: Program) returns (successors: seq<seq<nat>>, indegree: seq<int>)
    ensures |successors| == |indegree| == |p|
    ensures forall i :: 0 <= i < |p| ==> EdgesOf(p, i, successors[i])
    ensures forall j :: 0 <= j < |p| ==> indegree[j] == HazardsBefore(p, j, j)
  {
    hide Hazard, EdgesOf, HazardsBefore;
    forall j | 0 <= j < |p| { NoHazardsYet(p, j); }
    successors, indegree := [], seq(|p|, _ => 0);
    for i := 0 to |p|
      invariant |successors| == i && |indegree| == |p|
      invariant forall k :: 0 <= k < i ==> EdgesOf(p, k, successors[k])
      invariant forall j :: 0 <= j < |p| ==> indegree[j] == HazardsBefore(p, j, Smaller(i, j))
    {
      var out, next := Successors(p, i, indegree);
      forall j | 0 <= j < |p| ensures next[j] == HazardsBefore(p, j, Smaller(i + 1, j)) {
        HazardsNext(p, j, i);
      }
      successors, indegree := successors + [out], next;
    }
  }

  // Would moving j to `slot` pass a waiting instruction that must not be passed?
  ghost predicate Crosses(p: Program, anchors: seq<bool>, emitted: seq<bool>, slot: nat, j: nat)
    requires slot <= j <= |p| == |anchors| == |emitted|
  {
    exists k :: slot <= k < j && !emitted[k] && (IsFixed(p, anchors, k) || p[k].src == p[k].dst)
  }

  // No hazard with the multiply before the slot, nor with any instruction that
  // j would newly precede or follow.
  ghost predicate Independent(p: Program, emitted: seq<bool>, order: seq<nat>, active: nat, slot: nat, j: nat)
    requires slot <= j < |p| == |emitted| && active < |p| && forall a :: 0 <= a < |order| ==> order[a] < |p|
  {
    && !Hazard(p[active], p[j])
    && (forall k :: slot <= k < j && !emitted[k] ==> !Hazard(p[k], p[j]))
    && (forall a :: 0 <= a < |order| && order[a] > j ==> !Hazard(p[order[a]], p[j]))
  }

  // May j fill the slot?
  ghost predicate Fills(p: Program, anchors: seq<bool>, emitted: seq<bool>, indegree: seq<int>,
                        order: seq<nat>, active: nat, slot: nat, j: nat)
    requires |anchors| == |emitted| == |indegree| == |p|
    requires slot < j < |p| && active < |p| && forall a :: 0 <= a < |order| ==> order[a] < |p|
  {
    && Ready(emitted, indegree, j) && p[j].src != p[j].dst
    && !Crosses(p, anchors, emitted, slot, j) && Independent(p, emitted, order, active, slot, j)
  }

  ghost predicate NoneFixed(p: Program, anchors: seq<bool>, lo: nat, hi: nat)
    requires hi <= |p| == |anchors|
  {
    forall k :: lo <= k < hi ==> !IsFixed(p, anchors, k)
  }

  method CheckCrossing(p: Program, anchors: seq<bool>, emitted: seq<bool>, slot: nat, j: nat)
    returns (crosses: bool)
    requires slot <= j <= |p| == |anchors| == |emitted|
    ensures crosses <==> Crosses(p, anchors, emitted, slot, j)
  {
    hide FootprintOf;
    crosses := false;
    for k := slot to j
      invariant !crosses && !Crosses(p, anchors, emitted, slot, k)
    {
      if !emitted[k] && (IsFixed(p, anchors, k) || p[k].src == p[k].dst) { return true; }
    }
  }

  method CheckIndependent(p: Program, emitted: seq<bool>, order: seq<nat>, active: nat, slot: nat, j: nat)
    returns (safe: bool)
    requires slot <= j < |p| == |emitted| && active < |p| && forall a :: 0 <= a < |order| ==> order[a] < |p|
    ensures safe <==> Independent(p, emitted, order, active, slot, j)
  {
    hide Hazard;
    safe := !Hazard(p[active], p[j]);
    var k := slot;
    while safe && k < j
      invariant slot <= k <= j && (safe ==> !Hazard(p[active], p[j]))
      invariant safe ==> forall n :: slot <= n < k && !emitted[n] ==> !Hazard(p[n], p[j])
      invariant !safe ==> !Independent(p, emitted, order, active, slot, j)
    {
      if !emitted[k] { safe := !Hazard(p[k], p[j]); }
      k := k + 1;
    }
    for a := 0 to |order|
      invariant safe ==> forall b :: 0 <= b < a && order[b] > j ==> !Hazard(p[order[b]], p[j])
    {
      if order[a] > j && Hazard(p[order[a]], p[j]) { return false; }
    }
  }

  // The search for an instruction to put into the slot after a multiply: the
  // first that may fill it, looking no further than the next fixed one.
  method FindFiller(p: Program, anchors: seq<bool>, emitted: seq<bool>, indegree: seq<int>,
                    order: seq<nat>, active: nat, slot: nat) returns (j: nat, found: bool)
    requires |anchors| == |emitted| == |indegree| == |p|
    requires slot < |p| && active < |p| && forall a :: 0 <= a < |order| ==> order[a] < |p|
    ensures found ==>
        && slot < j < |p| && NoneFixed(p, anchors, slot + 1, j + 1)
        && Fills(p, anchors, emitted, indegree, order, active, slot, j)
    ensures forall k :: slot < k < (if found then j else |p|) && NoneFixed(p, anchors, slot + 1, k + 1) ==>
        !Fills(p, anchors, emitted, indegree, order, active, slot, k)
  {
    hide Hazard, FootprintOf, IsFixed;
    j, found := slot + 1, false;
    while j < |p| && !IsFixed(p, anchors, j)
      invariant slot < j <= |p| && NoneFixed(p, anchors, slot + 1, j)
      invariant forall k :: slot < k < j ==> !Fills(p, anchors, emitted, indegree, order, active, slot, k)
    {
      if Ready(emitted, indegree, j) && p[j].src != p[j].dst {
        var crosses := CheckCrossing(p, anchors, emitted, slot, j);
        if crosses { return; }
        var safe := CheckIndependent(p, emitted, order, active, slot, j);
        if safe { found := true; return; }
      }
      j := j + 1;
    }
  }

  // The earliest remaining ready instruction before the next fixed one.
  method FirstReady(p: Program, anchors: seq<bool>, emitted: seq<bool>, indegree: seq<int>, slot: nat)
    returns (j: nat, found: bool)
    requires |anchors| == |emitted| == |indegree| == |p| && slot <= |p|
    ensures slot <= j <= |p| && (found ==> j < |p| && Ready(emitted, indegree, j) && p[j].src != p[j].dst)
    ensures forall k :: slot <= k < j ==>
        !IsFixed(p, anchors, k) && !(Ready(emitted, indegree, k) && p[k].src != p[k].dst)
    ensures !found ==> j == |p| || IsFixed(p, anchors, j)
  {
    hide FootprintOf;
    j, found := slot, false;
    while j < |p| && !IsFixed(p, anchors, j)
      invariant slot <= j <= |p|
      invariant forall k :: slot <= k < j ==>
          !IsFixed(p, anchors, k) && !(Ready(emitted, indegree, k) && p[k].src != p[k].dst)
    {
      if Ready(emitted, indegree, j) && p[j].src != p[j].dst { found := true; return; }
      j := j + 1;
    }
  }

  method Release(successors: seq<nat>, indegree: seq<int>) returns (indegree': seq<int>)
    requires forall j :: j in successors ==> j < |indegree|
    ensures |indegree'| == |indegree|
    ensures forall j :: 0 <= j < |indegree| ==> indegree'[j] == indegree[j] - multiset(successors)[j]
  {
    indegree' := indegree;
    for s := 0 to |successors|
      invariant |indegree'| == |indegree|
      invariant forall j :: 0 <= j < |indegree| ==> indegree'[j] == indegree[j] - multiset(successors[..s])[j]
    {
      assert successors[..s + 1] == successors[..s] + [successors[s]];
      assert successors[s] in successors;
      indegree' := indegree'[successors[s] := indegree'[successors[s]] - 1];
    }
    assert successors[..|successors|] == successors;
  }

  // For every program and every budget the result is the original order.
  method ScheduleProgramDag(p: Program, swapBudget: int) returns (result: seq<nat>)
    ensures result == Range(0, |p|)
  {
    hide Hazard, FootprintOf, IsAnchor;
    var anchors := MarkAnchors(p);
    var successors, indegree := Dependences(p);
    var identity := Range(0, |p|);
    if swapBudget == 0 { return identity; }
    var budget, emitted, active := swapBudget, seq(|p|, _ => false), -1;
    var order: seq<nat> := [];
    for slot := 0 to |p|
      invariant |order| == slot && |emitted| == |indegree| == |p| && -1 <= active < |p|
      invariant forall a :: 0 <= a < slot ==> a <= order[a] < |p| && emitted[order[a]]
      invariant forall a, b :: 0 <= a < b < slot ==> order[a] != order[b]
    {
      var candidate, reordered := slot, false;
      if !IsFixed(p, anchors, slot) && Ready(emitted, indegree, slot) && active >= 0 && Hazard(p[active], p[slot]) {
        var j, found := FindFiller(p, anchors, emitted, indegree, order, active, slot);
        if found { candidate, reordered := j, true; }
      }
      if !Ready(emitted, indegree, candidate) {
        var j, found := FirstReady(p, anchors, emitted, indegree, slot);
        if !found { return identity; }
        candidate := j;
      }
      if reordered {
        if budget == 0 { return identity; }
        budget := Spend(budget);
      }
      emitted := emitted[candidate := true];
      assert EdgesOf(p, candidate, successors[candidate]);
      indegree := Release(successors[candidate], indegree);
      order := order + [candidate];
      active := if IsMultiply(p[candidate]) then candidate else -1;
    }
    NeverEarlierIsIdentity(order, |p|, 0);
    result := order;
  }
}
