// The background fill: workers write their chunks and publish the finished
// prefix without a lock. One step is one atomic access
// (src/partial_dataset.cpp, fill_worker).
module FillProtocol {
  import opened Words
  import opened Arith
  import opened Chunks

  type Bytes = seq<Byte>

  // The 64 bytes of a dataset item, from a cache and an item number.
  type Derive = (nat, nat) -> Bytes

  datatype Pc =
    | Filling(next: nat)                            // initialize_dataset, item by item
    | Loading                                       // about to read contiguous_done_
    | Scanning(cursor: nat)                         // walking over finished chunks
    | Exchanging(cursor: nat)                       // about to exchange contiguous_done_
    | Raising(cursor: nat, prev: nat)               // about to read item_count_
    | Swapping(cursor: nat, prev: nat, seen: nat)   // about to compare-and-swap item_count_
    | Deciding(cursor: nat, prev: nat)
    | Finishing(checks: nat)                        // testing for completion, one load at a time
    | Finished
    | Stopped                                       // cancelled or failed

  datatype Fill = Fill(
    data: seq<Bytes>, itemCount: nat, contiguous: nat, done: seq<bool>,
    complete: bool, stop: bool, shutdown: bool, pcs: seq<Pc>)

  datatype Action = Work(w: nat) | Quit(w: nat) | Fail(w: nat) | Shutdown | StopToken

  ghost predicate Sized(l: Layout, f: Fill) {
    |f.data| == l.total && |f.done| == |f.pcs| == l.workers
  }

  function At(f: Fill, w: nat, pc: Pc): Fill
    requires w < |f.pcs|
  {
    f.(pcs := f.pcs[w := pc])
  }

  // Items from the start of chunk `owning` to the start of the next.
  function ChunkSpan(l: Layout, owning: nat): nat
    requires owning * l.perChunk <= l.total
  {
    if owning + 1 < l.workers then l.perChunk else l.total - owning * l.perChunk
  }

  function Owning(l: Layout, c: nat): (k: nat)
    ensures k * l.perChunk <= c
  {
    c / l.perChunk
  }

  // The next item of the worker's own chunk, or the chunk's flag.
  function FillStep(l: Layout, d: Derive, cache: nat, f: Fill, w: nat): Fill
    requires Sized(l, f) && w < l.workers && f.pcs[w].Filling?
  {
    BoundsGrow(l, w, w + 1);
    var next := f.pcs[w].next;
    if next < l.Bound(w + 1)
    then At(f.(data := f.data[next := d(cache, next)]), w, Filling(next + 1))
    else At(f.(done := f.done[w := true]), w, Loading)
  }

  // One access of the publish loop.
  function PublishStep(l: Layout, f: Fill, w: nat): Fill
    requires Sized(l, f) && w < l.workers && !f.pcs[w].Filling?
  {
    match f.pcs[w]
    case Loading => At(f, w, Scanning(f.contiguous))
    case Scanning(c) =>
      var owning := Owning(l, c);
      if c < l.total && owning < |f.done| && f.done[owning]
      then At(f, w, Scanning(c + ChunkSpan(l, owning)))
      else At(f, w, Exchanging(c))
    case Exchanging(c) => At(f.(contiguous := c), w, Raising(c, f.contiguous))
    case Raising(c, prev) => At(f, w, Swapping(c, prev, f.itemCount))
    case Swapping(c, prev, seen) =>
      if seen >= c then At(f, w, Deciding(c, prev))
      else if f.itemCount == seen then At(f.(itemCount := c), w, Deciding(c, prev))
      else At(f, w, Swapping(c, prev, f.itemCount))
    case Deciding(c, prev) => At(f, w, if c == prev then Finishing(0) else Loading)
    case Finishing(checks) =>
      if checks == 0 then At(f, w, if f.stop then Finished else Finishing(1))
      else if checks == 1 then At(f, w, if f.shutdown then Finished else Finishing(2))
      else At(f.(complete := f.complete || f.contiguous >= l.total), w, Finished)
    case Finished => f
    case Stopped => f
  }

  function WorkStep(l: Layout, d: Derive, cache: nat, f: Fill, w: nat): Fill
    requires Sized(l, f) && w < l.workers
  {
    if f.pcs[w].Filling? then FillStep(l, d, cache, f, w) else PublishStep(l, f, w)
  }

  ghost predicate Enabled(l: Layout, f: Fill, a: Action) {
    match a
    case Work(w) => w < l.workers
    // The code looks before each sub-chunk; quitting before any item covers every
    // sub-chunk size.
    case Quit(w) =>
      w < l.workers && w < |f.pcs| && f.pcs[w].Filling? && f.pcs[w].next < l.Bound(w + 1) && (f.stop || f.shutdown)
    case Fail(w) => w < l.workers && w < |f.pcs| && f.pcs[w].Filling?
    case Shutdown => true
    case StopToken => f.shutdown
  }

  function Apply(l: Layout, d: Derive, cache: nat, f: Fill, a: Action): Fill
    requires Sized(l, f) && Enabled(l, f, a)
  {
    match a
    case Work(w) => WorkStep(l, d, cache, f, w)
    case Quit(w) => At(f, w, Stopped)
    case Fail(w) => At(f.(stop := true), w, Stopped)
    case Shutdown => f.(shutdown := true)
    case StopToken => f.(stop := true)
  }

  // Freshly spawned workers over a buffer of arbitrary bytes.
  ghost predicate Spawned(l: Layout, f: Fill) {
    && Sized(l, f) && f.itemCount == f.contiguous == 0 && !f.complete
    && forall w :: 0 <= w < l.workers ==> !f.done[w] && f.pcs[w] == Filling(l.Bound(w))
  }

  // How many chunks are finished without a gap.
  function LeadingDone(done: seq<bool>): (n: nat)
    ensures n <= |done|
    ensures forall k :: 0 <= k < n ==> done[k]
    ensures n < |done| ==> !done[n]
  {
    if done == [] || !done[0] then 0 else 1 + LeadingDone(done[1..])
  }

  lemma LeadingDoneAtLeast(done: seq<bool>, n: nat)
    requires n <= |done| && forall k :: 0 <= k < n ==> done[k]
    ensures n <= LeadingDone(done)
  {
  }

  ghost predicate Derived(d: Derive, cache: nat, data: seq<Bytes>, lo: nat, hi: nat)
    requires hi <= |data|
  {
    forall k :: lo <= k < hi ==> data[k] == d(cache, k)
  }

  // A position the cursor may take: the end of a gap-free run of finished chunks.
  ghost predicate Reached(l: Layout, done: seq<bool>, c: nat) {
    exists j: nat :: j <= LeadingDone(done) && c == l.Bound(j)
  }

  ghost predicate WorkerOk(l: Layout, d: Derive, cache: nat, f: Fill, w: nat)
    requires Sized(l, f) && w < l.workers
  {
    BoundsGrow(l, w, w + 1);
    match f.pcs[w]
    case Filling(next) =>
      && !f.done[w] && l.Bound(w) <= next <= l.Bound(w + 1) && next <= l.total
      && Derived(d, cache, f.data, l.Bound(w), next)
    case Stopped => !f.done[w]
    case Loading => f.done[w]
    case Scanning(c) => f.done[w] && Reached(l, f.done, c)
    case Exchanging(c) => f.done[w] && Reached(l, f.done, c)
    case Raising(c, prev) => f.done[w] && Reached(l, f.done, c)
    case Swapping(c, prev, seen) => f.done[w] && Reached(l, f.done, c) && seen <= f.itemCount
    case Deciding(c, prev) => f.done[w] && Reached(l, f.done, c)
    case Finishing(_) => f.done[w]
    case Finished => f.done[w]
  }

  ghost predicate ChunkOk(l: Layout, d: Derive, cache: nat, f: Fill, w: nat)
    requires Sized(l, f) && w < l.workers
  {
    BoundsGrow(l, w, w + 1);
    f.done[w] ==> Derived(d, cache, f.data, l.Bound(w), l.Bound(w + 1))
  }

  // The safety invariant.
  ghost predicate Safe(l: Layout, d: Derive, cache: nat, f: Fill) {
    && Sized(l, f)
    && (forall w :: 0 <= w < l.workers ==> WorkerOk(l, d, cache, f, w))
    && (forall w :: 0 <= w < l.workers ==> ChunkOk(l, d, cache, f, w))
    && Reached(l, f.done, f.contiguous) && Reached(l, f.done, f.itemCount)
  }

  lemma ReachedGrows(l: Layout, done: seq<bool>, done': seq<bool>, c: nat)
    requires |done| == |done'| && forall k :: 0 <= k < |done| && done[k] ==> done'[k]
    requires Reached(l, done, c)
    ensures Reached(l, done', c)
  {
    LeadingDoneAtLeast(done', LeadingDone(done));
  }

  // What one worker's step leaves intact for another.
  lemma OtherWorkerOk(l: Layout, d: Derive, cache: nat, f: Fill, g: Fill, w: nat, v: nat)
    requires Sized(l, f) && Sized(l, g) && w < l.workers && v < l.workers && v != w
    requires WorkerOk(l, d, cache, f, v) && g.pcs[v] == f.pcs[v] && g.done[v] == f.done[v]
    requires forall k :: 0 <= k < l.workers && f.done[k] ==> g.done[k]
    requires f.itemCount <= g.itemCount
    requires forall k :: 0 <= k < l.total && l.Bound(v) <= k < l.Bound(v + 1) ==> g.data[k] == f.data[k]
    ensures WorkerOk(l, d, cache, g, v)
  {
    hide LeadingDone;
    BoundsGrow(l, v, v + 1);
    match f.pcs[v]
    case Scanning(c) => ReachedGrows(l, f.done, g.done, c);
    case Exchanging(c) => ReachedGrows(l, f.done, g.done, c);
    case Raising(c, _) => ReachedGrows(l, f.done, g.done, c);
    case Swapping(c, _, _) => ReachedGrows(l, f.done, g.done, c);
    case Deciding(c, _) => ReachedGrows(l, f.done, g.done, c);
    case _ =>
  }

  lemma ChunksApart(l: Layout, v: nat, w: nat, k: nat)
    requires v < l.workers && w < l.workers && v != w
    requires l.Bound(w) <= k < l.Bound(w + 1)
    ensures !(l.Bound(v) <= k < l.Bound(v + 1))
  {
    if v < w { BoundsGrow(l, v, w); } else { BoundsGrow(l, w, v); }
  }

  lemma FillItemSafe(l: Layout, d: Derive, cache: nat, f: Fill, w: nat)
    requires Safe(l, d, cache, f) && w < l.workers && f.pcs[w].Filling? && f.pcs[w].next < l.Bound(w + 1)
    ensures Safe(l, d, cache, FillStep(l, d, cache, f, w))
  {
    hide LeadingDone, Reached;
    var g, next := FillStep(l, d, cache, f, w), f.pcs[w].next;
    BoundsGrow(l, w, w + 1);
    assert WorkerOk(l, d, cache, f, w);
    forall v | 0 <= v < l.workers && v != w
      ensures WorkerOk(l, d, cache, g, v) && ChunkOk(l, d, cache, g, v)
    {
      ChunksApart(l, v, w, next);
      BoundsGrow(l, v, v + 1);
      OtherWorkerOk(l, d, cache, f, g, w, v);
      assert ChunkOk(l, d, cache, f, v);
    }
  }

  lemma MarkDoneSafe(l: Layout, d: Derive, cache: nat, f: Fill, w: nat)
    requires Safe(l, d, cache, f) && w < l.workers && f.pcs[w].Filling? && f.pcs[w].next >= l.Bound(w + 1)
    ensures Safe(l, d, cache, FillStep(l, d, cache, f, w))
  {
    hide LeadingDone, Reached;
    var g := FillStep(l, d, cache, f, w);
    BoundsGrow(l, w, w + 1);
    assert WorkerOk(l, d, cache, f, w);
    ReachedGrows(l, f.done, g.done, f.contiguous);
    ReachedGrows(l, f.done, g.done, f.itemCount);
    forall v | 0 <= v < l.workers && v != w
      ensures WorkerOk(l, d, cache, g, v) && ChunkOk(l, d, cache, g, v)
    {
      OtherWorkerOk(l, d, cache, f, g, w, v);
      assert ChunkOk(l, d, cache, f, v);
    }
  }

  // Walking over a finished chunk lands on the next bound; an unfinished chunk
  // means the cursor is at the end of the gap-free run.
  lemma ScanReaches(l: Layout, done: seq<bool>, c: nat)
    requires |done| == l.workers && Reached(l, done, c)
    ensures var owning := Owning(l, c);
            if c < l.total && owning < |done| && done[owning]
            then Reached(l, done, c + ChunkSpan(l, owning))
            else c == l.Bound(LeadingDone(done))
  {
    hide LeadingDone;
    var n := LeadingDone(done);
    var j: nat :| j <= n && c == l.Bound(j);
    if j < l.workers {
      CursorStep(l, j);
      if done[j] {
        assert j + 1 <= n && c + ChunkSpan(l, Owning(l, c)) == l.Bound(j + 1);
      }
    }
  }

  lemma PublishFrame(l: Layout, f: Fill, w: nat)
    requires Sized(l, f) && w < l.workers && !f.pcs[w].Filling?
    ensures var g := PublishStep(l, f, w);
            && Sized(l, g) && g.data == f.data && g.done == f.done && g.itemCount >= f.itemCount
            && g.stop == f.stop && g.shutdown == f.shutdown && g.pcs == f.pcs[w := g.pcs[w]]
  {
    hide Owning, ChunkSpan, IsLayout;
  }

  // A publishing step of one worker, as that worker sees it.
  lemma PublisherOk(l: Layout, d: Derive, cache: nat, f: Fill, w: nat)
    requires Sized(l, f) && w < l.workers && !f.pcs[w].Filling? && WorkerOk(l, d, cache, f, w)
    requires Reached(l, f.done, f.contiguous) && Reached(l, f.done, f.itemCount)
    ensures var g := PublishStep(l, f, w);
            && Sized(l, g) && WorkerOk(l, d, cache, g, w)
            && Reached(l, g.done, g.contiguous) && Reached(l, g.done, g.itemCount)
  {
    hide LeadingDone, Reached, Owning, Derived, ChunkSpan, IsLayout;
    PublishFrame(l, f, w);
    if f.pcs[w].Scanning? { ScanReaches(l, f.done, f.pcs[w].cursor); }
  }

  lemma PublishSafe(l: Layout, d: Derive, cache: nat, f: Fill, w: nat)
    requires Safe(l, d, cache, f) && w < l.workers && !f.pcs[w].Filling?
    ensures Safe(l, d, cache, PublishStep(l, f, w))
  {
    hide LeadingDone, Reached, Owning, WorkerOk, PublishStep;
    var g := PublishStep(l, f, w);
    PublishFrame(l, f, w);
    PublisherOk(l, d, cache, f, w);
    forall v | 0 <= v < l.workers
      ensures WorkerOk(l, d, cache, g, v) && ChunkOk(l, d, cache, g, v)
    {
      if v != w { OtherWorkerOk(l, d, cache, f, g, w, v); }
      assert ChunkOk(l, d, cache, f, v);
    }
  }

  lemma StopSafe(l: Layout, d: Derive, cache: nat, f: Fill, a: Action)
    requires Safe(l, d, cache, f) && Enabled(l, f, a) && !a.Work?
    ensures Safe(l, d, cache, Apply(l, d, cache, f, a))
  {
    hide LeadingDone, Reached;
    var g := Apply(l, d, cache, f, a);
    forall v | 0 <= v < l.workers ensures WorkerOk(l, d, cache, g, v) && ChunkOk(l, d, cache, g, v) {
      assert WorkerOk(l, d, cache, f, v) && ChunkOk(l, d, cache, f, v);
    }
  }

  // Every step keeps the safety invariant, and within a fill the published
  // count never falls, even when an exchange moves the cursor back.
  lemma StepSafe(l: Layout, d: Derive, cache: nat, f: Fill, a: Action)
    requires Safe(l, d, cache, f) && Enabled(l, f, a)
    ensures Safe(l, d, cache, Apply(l, d, cache, f, a))
    ensures Apply(l, d, cache, f, a).itemCount >= f.itemCount
  {
    hide WorkerOk, ChunkOk, Reached, PublishStep;
    if a.Work? {
      if !f.pcs[a.w].Filling? {
        PublishFrame(l, f, a.w);
        PublishSafe(l, d, cache, f, a.w);
      } else if f.pcs[a.w].next < l.Bound(a.w + 1) {
        FillItemSafe(l, d, cache, f, a.w);
      } else {
        MarkDoneSafe(l, d, cache, f, a.w);
      }
    } else {
      StopSafe(l, d, cache, f, a);
    }
  }

  lemma SpawnedSafe(l: Layout, d: Derive, cache: nat, f: Fill)
    requires Spawned(l, f)
    ensures Safe(l, d, cache, f)
  {
    assert l.Bound(0) == 0;
    forall w | 0 <= w < l.workers ensures WorkerOk(l, d, cache, f, w) {
      BoundsGrow(l, w, w + 1);
    }
  }

  // The published prefix holds exactly the derived items.
  lemma PublishedPrefixDerived(l: Layout, d: Derive, cache: nat, f: Fill)
    requires Safe(l, d, cache, f)
    ensures f.itemCount <= l.total && Derived(d, cache, f.data, 0, f.itemCount)
  {
    hide LeadingDone;
    var n := LeadingDone(f.done);
    var j: nat :| j <= n && f.itemCount == l.Bound(j);
    if 0 < j { BoundsGrow(l, j - 1, j); }
    forall k | 0 <= k < f.itemCount ensures f.data[k] == d(cache, k) {
      var i := ChunksPartition(l, k);
      if i >= j { if j < i { BoundsGrow(l, j, i); } }
      assert ChunkOk(l, d, cache, f, i);
    }
  }

  // A worker that stopped early has nothing of its chunk published.
  lemma StoppedNotPublished(l: Layout, d: Derive, cache: nat, f: Fill, w: nat)
    requires Safe(l, d, cache, f) && w < l.workers && (f.pcs[w].Stopped? || f.pcs[w].Filling?)
    ensures f.itemCount <= l.Bound(w) && f.contiguous <= l.Bound(w)
  {
    assert WorkerOk(l, d, cache, f, w);
    var n := LeadingDone(f.done);
    assert n <= w;
    var i: nat :| i <= n && f.itemCount == l.Bound(i);
    var j: nat :| j <= n && f.contiguous == l.Bound(j);
    if i < w { BoundsGrow(l, i, w); }
    if j < w { BoundsGrow(l, j, w); }
  }
}
