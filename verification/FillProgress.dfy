// What the lock-free publish loop achieves: no finished chunk is forgotten, and
// every schedule of the workers comes to rest.
module FillProgress {
  import opened Chunks
  import opened FillProtocol
  import opened Sums

  // Where the gap-free run of finished chunks ends.
  ghost function Frontier(l: Layout, f: Fill): (t: nat)
    requires Sized(l, f)
    ensures t <= l.total
  {
    var n := LeadingDone(f.done);
    if n < l.workers then BoundsGrow(l, n, l.workers); l.Bound(n) else l.Bound(n)
  }

  // Still bound to look at the finished chunks again.
  ghost predicate Active(f: Fill, w: nat)
    requires w < |f.pcs|
  {
    match f.pcs[w]
    case Loading => true
    case Scanning(c) => true
    case Exchanging(c) => c != f.contiguous
    case Raising(c, prev) => c != prev
    case Swapping(c, prev, _) => c != prev
    case Deciding(c, prev) => c != prev
    case _ => false
  }

  // Bound to raise the published count to the cursor.
  ghost predicate Lifting(f: Fill, w: nat)
    requires w < |f.pcs|
  {
    (f.pcs[w].Raising? || f.pcs[w].Swapping?) && f.pcs[w].cursor == f.contiguous
  }

  ghost predicate NothingForgotten(l: Layout, f: Fill) {
    && Sized(l, f)
    && (f.contiguous < Frontier(l, f) ==> exists w: nat :: w < |f.pcs| && Active(f, w))
    && (f.itemCount < f.contiguous ==> exists w: nat :: w < |f.pcs| && Lifting(f, w))
    && ((forall w :: 0 <= w < |f.pcs| ==> f.pcs[w].Finished?) ==> f.complete || f.stop || f.shutdown)
  }

  lemma ReachedWithin(l: Layout, f: Fill, c: nat)
    requires Sized(l, f) && Reached(l, f.done, c)
    ensures c <= Frontier(l, f)
  {
    hide LeadingDone;
    var n := LeadingDone(f.done);
    var j: nat :| j <= n && c == l.Bound(j);
    if j < n { BoundsGrow(l, j, n); }
  }

  lemma AllDoneFrontier(l: Layout, f: Fill)
    requires Sized(l, f) && forall w :: 0 <= w < l.workers ==> f.done[w]
    ensures Frontier(l, f) == l.total
  {
    LeadingDoneAtLeast(f.done, l.workers);
  }

  lemma StepKeepsFrontier(l: Layout, f: Fill, w: nat)
    requires Sized(l, f) && w < l.workers && !f.pcs[w].Filling?
    ensures Sized(l, PublishStep(l, f, w)) && Frontier(l, PublishStep(l, f, w)) == Frontier(l, f)
  {
    hide LeadingDone, PublishStep;
    PublishFrame(l, f, w);
  }

  lemma ScanEnds(l: Layout, d: Derive, cache: nat, f: Fill, w: nat)
    requires Safe(l, d, cache, f) && w < l.workers && f.pcs[w].Scanning?
    ensures var g := PublishStep(l, f, w);
            && g.contiguous == f.contiguous && w < |g.pcs|
            && (|| (g.pcs[w].Scanning? && f.pcs[w].cursor < g.pcs[w].cursor <= l.total)
                || g.pcs[w] == Exchanging(Frontier(l, f)))
  {
    hide LeadingDone, Owning, Reached, WorkerOk;
    var c := f.pcs[w].cursor;
    ScanCursorReached(l, d, cache, f, w);
    ScanReaches(l, f.done, c);
    ScanAdvances(l, c);
    var g := PublishStep(l, f, w);
    if g.pcs[w].Scanning? { ReachedWithin(l, f, g.pcs[w].cursor); }
  }

  lemma ScanCursorReached(l: Layout, d: Derive, cache: nat, f: Fill, w: nat)
    requires Sized(l, f) && w < l.workers && f.pcs[w].Scanning? && WorkerOk(l, d, cache, f, w)
    ensures Reached(l, f.done, f.pcs[w].cursor)
  {
  }

  lemma ScanAdvances(l: Layout, c: nat)
    ensures c < l.total && Owning(l, c) < l.workers ==> ChunkSpan(l, Owning(l, c)) > 0
  {
  }

  lemma LookoutKept(l: Layout, d: Derive, cache: nat, f: Fill, w: nat)
    requires Safe(l, d, cache, f) && NothingForgotten(l, f) && w < l.workers && !f.pcs[w].Filling?
    ensures var g := PublishStep(l, f, w);
            |g.pcs| == |f.pcs| && (g.contiguous < Frontier(l, f) ==> exists v: nat :: v < |g.pcs| && Active(g, v))
  {
    hide LeadingDone, Owning, Reached, WorkerOk, ChunkOk, Frontier;
    var g := PublishStep(l, f, w);
    PublishFrame(l, f, w);
    if f.pcs[w].Scanning? { ScanEnds(l, d, cache, f, w); }
    if g.contiguous < Frontier(l, f) && !Active(g, w) {
      assert g.contiguous == f.contiguous && !Active(f, w);
      var v: nat :| v < |f.pcs| && Active(f, v);
      assert Active(g, v);
    }
  }

  lemma LiftKept(l: Layout, d: Derive, cache: nat, f: Fill, w: nat)
    requires Safe(l, d, cache, f) && NothingForgotten(l, f) && w < l.workers && !f.pcs[w].Filling?
    ensures var g := PublishStep(l, f, w);
            |g.pcs| == |f.pcs| && (g.itemCount < g.contiguous ==> exists v: nat :: v < |g.pcs| && Lifting(g, v))
  {
    hide LeadingDone, Owning, Reached, ChunkOk, Frontier, Derived;
    var g := PublishStep(l, f, w);
    PublishFrame(l, f, w);
    assert WorkerOk(l, d, cache, f, w);
    if g.itemCount < g.contiguous && !Lifting(g, w) {
      assert g.contiguous == f.contiguous && !Lifting(f, w);
      var v: nat :| v < |f.pcs| && Lifting(f, v);
      assert Lifting(g, v);
    }
  }

  // The last worker to leave sees the cursor at the end.
  lemma CompletionKept(l: Layout, d: Derive, cache: nat, f: Fill, w: nat)
    requires Safe(l, d, cache, f) && NothingForgotten(l, f) && w < l.workers && !f.pcs[w].Filling?
    ensures var g := PublishStep(l, f, w);
            (forall v :: 0 <= v < |g.pcs| ==> g.pcs[v].Finished?) ==> g.complete || g.stop || g.shutdown
  {
    hide LeadingDone, Owning, Reached, ChunkOk, Frontier, Derived;
    var g := PublishStep(l, f, w);
    PublishFrame(l, f, w);
    if f.pcs[w].Finishing? && (forall v :: 0 <= v < |g.pcs| ==> g.pcs[v].Finished?) {
      forall v | 0 <= v < l.workers ensures f.done[v] && !Active(f, v) {
        assert WorkerOk(l, d, cache, f, v);
        assert v == w || f.pcs[v] == g.pcs[v];
      }
      AllDoneFrontier(l, f);
    } else if f.pcs[w].Finished? {
      assert g == f;
    } else if !f.pcs[w].Finishing? {
      assert !g.pcs[w].Finished?;
    }
  }

  lemma FillFrame(l: Layout, d: Derive, cache: nat, f: Fill, w: nat)
    requires Sized(l, f) && w < l.workers && f.pcs[w].Filling?
    ensures var g := FillStep(l, d, cache, f, w);
            && Sized(l, g) && g.pcs == f.pcs[w := g.pcs[w]]
            && (g.pcs[w].Loading? || (g.pcs[w].Filling? && g.done == f.done))
            && g.contiguous == f.contiguous && g.itemCount == f.itemCount
            && g.complete == f.complete && g.stop == f.stop && g.shutdown == f.shutdown
  {
    BoundsGrow(l, w, w + 1);
  }

  lemma FillingKeepsProgress(l: Layout, d: Derive, cache: nat, f: Fill, w: nat)
    requires Safe(l, d, cache, f) && NothingForgotten(l, f) && w < l.workers && f.pcs[w].Filling?
    ensures NothingForgotten(l, FillStep(l, d, cache, f, w))
  {
    hide LeadingDone, Reached, ChunkOk, WorkerOk, FillStep, Derived, IsLayout;
    var g := FillStep(l, d, cache, f, w);
    FillFrame(l, d, cache, f, w);
    assert g.pcs[w].Loading? ==> Active(g, w);
    forall v: nat | v < |f.pcs| ensures (Active(f, v) ==> Active(g, v)) && (Lifting(f, v) ==> Lifting(g, v)) {
      assert v == w || f.pcs[v] == g.pcs[v];
    }
    assert !g.pcs[w].Finished?;
  }

  lemma StoppingKeepsProgress(l: Layout, d: Derive, cache: nat, f: Fill, a: Action)
    requires Safe(l, d, cache, f) && NothingForgotten(l, f) && Enabled(l, f, a) && !a.Work?
    ensures NothingForgotten(l, Apply(l, d, cache, f, a))
  {
    hide LeadingDone, Reached, ChunkOk, WorkerOk, Safe;
    var g := Apply(l, d, cache, f, a);
    forall v: nat | v < |f.pcs| ensures (Active(f, v) ==> Active(g, v)) && (Lifting(f, v) ==> Lifting(g, v)) {
      assert f.pcs[v] == g.pcs[v] || f.pcs[v].Filling?;
    }
    if a.Quit? || a.Fail? { assert !g.pcs[a.w].Finished?; }
  }

  lemma StepKeepsProgress(l: Layout, d: Derive, cache: nat, f: Fill, a: Action)
    requires Safe(l, d, cache, f) && NothingForgotten(l, f) && Enabled(l, f, a)
    ensures NothingForgotten(l, Apply(l, d, cache, f, a))
  {
    hide LeadingDone, Reached, ChunkOk, WorkerOk, FillStep, PublishStep, Active, Lifting, Frontier;
    if !a.Work? {
      StoppingKeepsProgress(l, d, cache, f, a);
    } else if f.pcs[a.w].Filling? {
      FillingKeepsProgress(l, d, cache, f, a.w);
    } else {
      PublishFrame(l, f, a.w);
      StepKeepsFrontier(l, f, a.w);
      LookoutKept(l, d, cache, f, a.w);
      LiftKept(l, d, cache, f, a.w);
      CompletionKept(l, d, cache, f, a.w);
    }
  }

  lemma SpawnedProgress(l: Layout, f: Fill)
    requires Spawned(l, f)
    ensures NothingForgotten(l, f)
  {
    assert l.Bound(0) == 0 && LeadingDone(f.done) == 0;
    assert f.pcs[0].Filling?;
  }

  ghost predicate Resting(f: Fill) {
    forall w :: 0 <= w < |f.pcs| ==> f.pcs[w].Finished? || f.pcs[w].Stopped?
  }

  // Once every worker has returned, exactly the gap-free run of finished chunks
  // is published, whatever the interleaving was; with no worker stopped early
  // that is everything.
  lemma RestingPublishesAll(l: Layout, d: Derive, cache: nat, f: Fill)
    requires Safe(l, d, cache, f) && NothingForgotten(l, f) && Resting(f)
    ensures f.itemCount == f.contiguous == Frontier(l, f)
    ensures (forall w :: 0 <= w < l.workers ==> f.pcs[w].Finished?) ==>
              f.itemCount == l.total && (f.stop || f.shutdown || f.complete)
    ensures forall w :: 0 <= w < l.workers && f.pcs[w].Stopped? ==> f.itemCount <= l.Bound(w)
  {
    hide LeadingDone, Reached, Frontier, Derived;
    ReachedWithin(l, f, f.contiguous);
    ReachedWithin(l, f, f.itemCount);
    assert forall w :: 0 <= w < |f.pcs| ==> !Active(f, w) && !Lifting(f, w);
    forall w | 0 <= w < l.workers && f.pcs[w].Stopped? ensures f.itemCount <= l.Bound(w) {
      StoppedNotPublished(l, d, cache, f, w);
    }
    if forall w :: 0 <= w < l.workers ==> f.pcs[w].Finished? {
      forall w | 0 <= w < l.workers ensures f.done[w] { assert WorkerOk(l, d, cache, f, w); }
      AllDoneFrontier(l, f);
    }
  }

  // A run: spawned workers, then any sequence of steps.
  ghost predicate IsRun(l: Layout, d: Derive, cache: nat, fs: seq<Fill>, acts: seq<Action>) {
    && |fs| == |acts| + 1 && Spawned(l, fs[0])
    && forall i :: 0 <= i < |acts| ==>
         Sized(l, fs[i]) && Enabled(l, fs[i], acts[i]) && fs[i + 1] == Apply(l, d, cache, fs[i], acts[i])
  }

  lemma {:induction false} RunKeepsAll(l: Layout, d: Derive, cache: nat, fs: seq<Fill>, acts: seq<Action>, i: nat)
    requires IsRun(l, d, cache, fs, acts) && i < |fs|
    ensures Safe(l, d, cache, fs[i]) && NothingForgotten(l, fs[i])
  {
    hide Safe, NothingForgotten, Apply, Enabled, Spawned;
    if i == 0 {
      SpawnedSafe(l, d, cache, fs[0]);
      SpawnedProgress(l, fs[0]);
    } else {
      RunKeepsAll(l, d, cache, fs, acts, i - 1);
      StepSafe(l, d, cache, fs[i - 1], acts[i - 1]);
      StepKeepsProgress(l, d, cache, fs[i - 1], acts[i - 1]);
    }
  }

  lemma {:induction false} CountGrows(l: Layout, d: Derive, cache: nat, fs: seq<Fill>, acts: seq<Action>,
                                      i: nat, j: nat)
    requires IsRun(l, d, cache, fs, acts) && i <= j < |fs|
    ensures fs[i].itemCount <= fs[j].itemCount
    decreases j
  {
    hide Safe, NothingForgotten, Apply, Enabled, Spawned;
    if i < j {
      CountGrows(l, d, cache, fs, acts, i, j - 1);
      RunKeepsAll(l, d, cache, fs, acts, j - 1);
      StepSafe(l, d, cache, fs[j - 1], acts[j - 1]);
    }
  }

  // Any item a reader is told about at one moment of a run holds its derived
  // bytes at that moment and at every later one.
  lemma PublishedItemsStable(l: Layout, d: Derive, cache: nat, fs: seq<Fill>, acts: seq<Action>, i: nat, j: nat, k: nat)
    requires IsRun(l, d, cache, fs, acts) && i <= j < |fs| && k < fs[i].itemCount
    ensures |fs[j].data| == l.total && k < l.total && fs[j].data[k] == d(cache, k)
  {
    hide WorkerOk, ChunkOk, NothingForgotten, Apply, Enabled, Spawned;
    RunKeepsAll(l, d, cache, fs, acts, j);
    CountGrows(l, d, cache, fs, acts, i, j);
    PublishedPrefixDerived(l, d, cache, fs[j]);
  }

  // ---- every schedule comes to rest ----

  ghost function ItemsLeft(l: Layout): (nat, Pc) -> nat {
    (w: nat, pc: Pc) =>
      if pc.Filling? then 1 + (if pc.next < l.Bound(w + 1) then l.Bound(w + 1) - pc.next else 0) else 0
  }

  // An exchange about to write a cursor that newer flags have overtaken.
  ghost function StaleExchange(frontier: nat): (nat, Pc) -> nat {
    (w: nat, pc: Pc) => if pc.Exchanging? && pc.cursor != frontier then 1 else 0
  }

  function Gap(a: nat, b: nat): nat { if a < b then b - a else 0 }

  // Steps until the worker returns if nobody interferes.
  ghost function Ahead(n: nat, pc: Pc): nat {
    match pc
    case Raising(c, prev) => n + 2 + if c == prev then 4 else 2 * n + 10
    case Swapping(c, prev, seen) => Gap(seen, n) + 1 + if c == prev then 4 else 2 * n + 10
    case Deciding(c, prev) => if c == prev then 4 else 2 * n + 10
    case Loading => 2 * n + 9
    case Scanning(c) => n + 8 + Gap(c, n)
    case Exchanging(c) => n + 7
    case Finishing(checks) => 1 + Gap(checks, 2)
    case _ => 0
  }

  ghost function StepsAhead(n: nat): (nat, Pc) -> nat {
    (w: nat, pc: Pc) => Ahead(n, pc)
  }

  datatype Effort = Effort(items: nat, stale: nat, behind: nat, steps: nat)

  ghost function EffortLeft(l: Layout, f: Fill): Effort
    requires Sized(l, f)
  {
    var t := Frontier(l, f);
    Effort(Sum(f.pcs, ItemsLeft(l)), Sum(f.pcs, StaleExchange(t)), if f.contiguous == t then 0 else 1,
           Sum(f.pcs, StepsAhead(l.total)))
  }

  ghost predicate Less(a: Effort, b: Effort) {
    || a.items < b.items
    || (a.items == b.items && a.stale < b.stale)
    || (a.items == b.items && a.stale == b.stale && a.behind < b.behind)
    || (a.items == b.items && a.stale == b.stale && a.behind == b.behind && a.steps < b.steps)
  }

  lemma OwnItemsShrink(l: Layout, d: Derive, cache: nat, f: Fill, w: nat)
    requires Sized(l, f) && w < l.workers && f.pcs[w].Filling?
    ensures var g := FillStep(l, d, cache, f, w);
            && Sized(l, g) && g.pcs == f.pcs[w := g.pcs[w]]
            && ItemsLeft(l)(w, g.pcs[w]) < ItemsLeft(l)(w, f.pcs[w])
  {
    hide IsLayout, Owning, ChunkSpan;
    BoundsGrow(l, w, w + 1);
  }

  lemma QuietStepShrinks(l: Layout, f: Fill, w: nat)
    requires Sized(l, f) && w < l.workers && f.itemCount <= l.total
    requires f.pcs[w].Swapping? ==> f.pcs[w].seen <= f.itemCount
    requires f.pcs[w].Loading? || f.pcs[w].Raising? || f.pcs[w].Swapping? || f.pcs[w].Deciding? || f.pcs[w].Finishing?
    ensures var g := PublishStep(l, f, w);
            && w < |g.pcs| && !g.pcs[w].Filling? && !g.pcs[w].Exchanging? && g.contiguous == f.contiguous
            && Ahead(l.total, g.pcs[w]) < Ahead(l.total, f.pcs[w])
  {
    hide Owning, ChunkSpan, IsLayout;
    match f.pcs[w]
    case Swapping(_, _, _) =>
    case Finishing(_) =>
    case _ =>
  }

  lemma SeenBelow(l: Layout, d: Derive, cache: nat, f: Fill, w: nat)
    requires Sized(l, f) && w < l.workers && WorkerOk(l, d, cache, f, w)
    ensures f.pcs[w].Swapping? ==> f.pcs[w].seen <= f.itemCount
  {
  }

  // One publishing step of one worker, weighed on its own: only an exchange
  // over a moved cursor sends a worker round again, and that is paid for.
  lemma OwnStepsShrink(l: Layout, d: Derive, cache: nat, f: Fill, w: nat)
    requires Safe(l, d, cache, f) && w < l.workers
    requires !f.pcs[w].Filling? && !f.pcs[w].Finished? && !f.pcs[w].Stopped?
    ensures var g, t, n := PublishStep(l, f, w), Frontier(l, f), l.total;
            && w < |g.pcs| && !g.pcs[w].Filling?
            && var s, s' := StaleExchange(t)(w, f.pcs[w]), StaleExchange(t)(w, g.pcs[w]);
               || s' < s
               || (s' == s && f.contiguous != t && g.contiguous == t)
               || (s' == s && f.contiguous == g.contiguous && Ahead(n, g.pcs[w]) < Ahead(n, f.pcs[w]))
  {
    hide LeadingDone, Reached, WorkerOk, ChunkOk, Frontier, PublishStep;
    ReachedWithin(l, f, f.itemCount);
    if f.pcs[w].Scanning? {
      ScanEnds(l, d, cache, f, w);
    } else if f.pcs[w].Exchanging? {
      ExchangeStep(l, f, w);
    } else {
      SeenBelow(l, d, cache, f, w);
      QuietStepShrinks(l, f, w);
    }
  }

  lemma ExchangeStep(l: Layout, f: Fill, w: nat)
    requires Sized(l, f) && w < l.workers && f.pcs[w].Exchanging?
    ensures var c := f.pcs[w].cursor;
            PublishStep(l, f, w) == f.(contiguous := c, pcs := f.pcs[w := Raising(c, f.contiguous)])
  {
  }

  // Every step of a worker that has not returned lowers the remaining effort.
  lemma EveryStepShrinks(l: Layout, d: Derive, cache: nat, f: Fill, w: nat)
    requires Safe(l, d, cache, f) && w < l.workers && !f.pcs[w].Finished? && !f.pcs[w].Stopped?
    ensures var g := WorkStep(l, d, cache, f, w);
            Sized(l, g) && Less(EffortLeft(l, g), EffortLeft(l, f))
  {
    hide WorkerOk, ChunkOk, LeadingDone, Sum, Frontier, FillStep, PublishStep, ItemsLeft, StaleExchange, Ahead;
    var g := WorkStep(l, d, cache, f, w);
    if f.pcs[w].Filling? {
      OwnItemsShrink(l, d, cache, f, w);
      SumUpdate(f.pcs, w, g.pcs[w], ItemsLeft(l));
    } else {
      OwnStepsShrink(l, d, cache, f, w);
      StepKeepsFrontier(l, f, w);
      PublishFrame(l, f, w);
      SumUpdate(f.pcs, w, g.pcs[w], ItemsLeft(l));
      NoItemsLeft(l, w, f.pcs[w]);
      NoItemsLeft(l, w, g.pcs[w]);
      SumUpdate(f.pcs, w, g.pcs[w], StaleExchange(Frontier(l, f)));
      SumUpdate(f.pcs, w, g.pcs[w], StepsAhead(l.total));
    }
  }

  lemma NoItemsLeft(l: Layout, w: nat, pc: Pc)
    requires !pc.Filling?
    ensures ItemsLeft(l)(w, pc) == 0
  {
  }

  // Picks, from the state and the number of steps so far, who moves next.
  type Scheduler = (nat, Fill) -> nat

  ghost predicate Picks(l: Layout, pick: Scheduler) {
    forall i: nat, f: Fill :: Sized(l, f) && !Resting(f) ==>
      pick(i, f) < l.workers && !f.pcs[pick(i, f)].Finished? && !f.pcs[pick(i, f)].Stopped?
  }

  lemma WorkStopsNobody(l: Layout, d: Derive, cache: nat, f: Fill, w: nat)
    requires Sized(l, f) && w < l.workers
    ensures var g := WorkStep(l, d, cache, f, w);
            && g.stop == f.stop && g.shutdown == f.shutdown && |g.pcs| == |f.pcs|
            && forall v :: 0 <= v < |f.pcs| && g.pcs[v].Stopped? ==> f.pcs[v].Stopped?
  {
    hide IsLayout, PublishStep;
    BoundsGrow(l, w, w + 1);
    if !f.pcs[w].Filling? {
      PublishFrame(l, f, w);
      if !f.pcs[w].Stopped? { PublishStopsNobody(l, f, w); }
    }
  }

  lemma PublishStopsNobody(l: Layout, f: Fill, w: nat)
    requires Sized(l, f) && w < l.workers && !f.pcs[w].Filling? && !f.pcs[w].Stopped?
    ensures w < |PublishStep(l, f, w).pcs| && !PublishStep(l, f, w).pcs[w].Stopped?
  {
    hide IsLayout, Owning, ChunkSpan;
  }

  // Let the workers run, without cancellation, until none can move.
  ghost function Drain(l: Layout, d: Derive, cache: nat, f: Fill, pick: Scheduler, i: nat): (g: Fill)
    requires Safe(l, d, cache, f) && NothingForgotten(l, f) && Picks(l, pick)
    ensures Safe(l, d, cache, g) && NothingForgotten(l, g) && Resting(g)
    ensures g.stop == f.stop && g.shutdown == f.shutdown
    ensures forall v :: 0 <= v < l.workers && g.pcs[v].Stopped? ==> f.pcs[v].Stopped?
    decreases EffortLeft(l, f).items, EffortLeft(l, f).stale, EffortLeft(l, f).behind, EffortLeft(l, f).steps
  {
    if Resting(f) then f
    else
      var w := pick(i, f);
      EveryStepShrinks(l, d, cache, f, w);
      StepSafe(l, d, cache, f, Work(w));
      StepKeepsProgress(l, d, cache, f, Work(w));
      WorkStopsNobody(l, d, cache, f, w);
      Drain(l, d, cache, WorkStep(l, d, cache, f, w), pick, i + 1)
  }

  // Total correctness of an uncancelled fill: whichever worker moves at each
  // point, the workers all return, and then every item is derived and published.
  lemma FillAlwaysCompletes(l: Layout, d: Derive, cache: nat, f: Fill, pick: Scheduler)
    requires Spawned(l, f) && !f.stop && !f.shutdown && Picks(l, pick)
    ensures Safe(l, d, cache, f) && NothingForgotten(l, f)
    ensures var g := Drain(l, d, cache, f, pick, 0);
            && Resting(g) && g.complete && g.itemCount == l.total == |g.data|
            && Derived(d, cache, g.data, 0, l.total)
  {
    hide WorkerOk, ChunkOk, NothingForgotten, Reached, Drain;
    SpawnedSafe(l, d, cache, f);
    SpawnedProgress(l, f);
    var g := Drain(l, d, cache, f, pick, 0);
    RestingPublishesAll(l, d, cache, g);
    assert forall w :: 0 <= w < l.workers ==> g.pcs[w].Finished?;
    PublishedPrefixDerived(l, d, cache, g);
  }
}
