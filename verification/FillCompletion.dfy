// What the completion flag of a fill tells, and what cancelling does to it
// (src/partial_dataset.cpp).
module FillCompletion {
  import opened Chunks
  import opened FillProtocol
  import opened FillProgress

  // Completion is flagged only with every chunk finished.
  ghost predicate Whole(f: Fill) {
    f.complete ==> forall w :: 0 <= w < |f.done| ==> f.done[w]
  }

  lemma FrontierAtEnd(l: Layout, f: Fill)
    requires Sized(l, f) && Frontier(l, f) >= l.total
    ensures forall w :: 0 <= w < l.workers ==> f.done[w]
  {
    hide LeadingDone;
    var n := LeadingDone(f.done);
    if n < l.workers { BoundsGrow(l, n, l.workers); }
  }

  lemma WholeKept(l: Layout, d: Derive, cache: nat, f: Fill, a: Action)
    requires Safe(l, d, cache, f) && Enabled(l, f, a) && Whole(f)
    ensures Whole(Apply(l, d, cache, f, a))
  {
    hide LeadingDone, Owning, ChunkSpan, Reached, Frontier, WorkerOk, ChunkOk, Derived;
    if a.Work? && !f.pcs[a.w].Filling? {
      PublishFrame(l, f, a.w);
      if f.pcs[a.w].Finishing? && f.contiguous >= l.total {
        ReachedWithin(l, f, f.contiguous);
        FrontierAtEnd(l, f);
      }
    }
  }

  lemma {:induction false} RunWhole(l: Layout, d: Derive, cache: nat, fs: seq<Fill>, acts: seq<Action>, i: nat)
    requires IsRun(l, d, cache, fs, acts) && i < |fs|
    ensures Whole(fs[i])
  {
    hide Whole, Safe, Apply, Enabled, NothingForgotten;
    if i == 0 {
      assert !fs[0].complete;
      NotYet(fs[0]);
    } else {
      RunWhole(l, d, cache, fs, acts, i - 1);
      RunKeepsAll(l, d, cache, fs, acts, i - 1);
      WholeKept(l, d, cache, fs[i - 1], acts[i - 1]);
    }
  }

  lemma NotYet(f: Fill)
    requires !f.complete
    ensures Whole(f)
  {
  }

  // Whenever completion is flagged, every item holds its derived bytes, and they are
  // all published but for a worker about to do it; at rest they are.
  lemma CompleteIsWhole(l: Layout, d: Derive, cache: nat, fs: seq<Fill>, acts: seq<Action>, i: nat)
    requires IsRun(l, d, cache, fs, acts) && i < |fs| && fs[i].complete
    ensures Sized(l, fs[i]) && Derived(d, cache, fs[i].data, 0, l.total)
    ensures fs[i].itemCount == l.total || exists w: nat :: w < |fs[i].pcs| && (Active(fs[i], w) || Lifting(fs[i], w))
    ensures Resting(fs[i]) ==> fs[i].itemCount == l.total
  {
    hide LeadingDone, Reached, WorkerOk, Frontier, Apply, Enabled, Spawned, Active, Lifting;
    var f := fs[i];
    RunWhole(l, d, cache, fs, acts, i);
    RunKeepsAll(l, d, cache, fs, acts, i);
    AllDoneFrontier(l, f);
    AllDerived(l, d, cache, f);
    ReachedWithin(l, f, f.itemCount);
    ReachedWithin(l, f, f.contiguous);
    if Resting(f) { RestingPublishesAll(l, d, cache, f); }
  }

  lemma AllDerived(l: Layout, d: Derive, cache: nat, f: Fill)
    requires Safe(l, d, cache, f) && forall w :: 0 <= w < l.workers ==> f.done[w]
    ensures Derived(d, cache, f.data, 0, l.total)
  {
    hide WorkerOk, Reached, IsLayout;
    forall k | 0 <= k < l.total ensures f.data[k] == d(cache, k) {
      var w := ChunksPartition(l, k);
      assert ChunkOk(l, d, cache, f, w);
    }
  }

  // ---- cancelling ----

  // Every worker has yet to look at a flag that is set.
  ghost predicate Doomed(f: Fill) {
    && !f.complete
    && (|| (f.shutdown && forall w :: 0 <= w < |f.pcs| ==> !(f.pcs[w].Finishing? && f.pcs[w].checks > 1))
        || (f.stop && forall w :: 0 <= w < |f.pcs| ==> !(f.pcs[w].Finishing? && f.pcs[w].checks > 0)))
  }

  lemma DoomedKept(l: Layout, d: Derive, cache: nat, f: Fill, a: Action)
    requires Sized(l, f) && Enabled(l, f, a) && Doomed(f)
    ensures Doomed(Apply(l, d, cache, f, a))
  {
    hide Owning, ChunkSpan, IsLayout;
  }

  // A fill cancelled before any worker has looked is never flagged complete, however
  // far the workers get.
  lemma {:induction false} CancelledNeverCompletes(l: Layout, d: Derive, cache: nat, fs: seq<Fill>,
                                                   acts: seq<Action>, i: nat, j: nat)
    requires IsRun(l, d, cache, fs, acts) && i <= j < |fs| && Doomed(fs[i])
    ensures !fs[j].complete && Doomed(fs[j])
    decreases j
  {
    hide Apply, Enabled, Spawned;
    if i < j {
      CancelledNeverCompletes(l, d, cache, fs, acts, i, j - 1);
      DoomedKept(l, d, cache, fs[j - 1], acts[j - 1]);
    }
  }
}
