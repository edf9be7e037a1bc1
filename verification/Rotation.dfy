// A seed rotation among running miners and fill workers: set_job replaces the
// cache, start_fill waits the old fill out, resets under the exclusive lock and
// spawns the new fill, while miners hash under the shared side. stop() clears the
// running flag before it cancels the fill, and miners read the flag at the head
// of every turn of their loop (src/mining_engine.cpp, src/partial_dataset.cpp).
module Rotation {
  import opened Chunks
  import opened FillProtocol
  import opened FillProgress
  import opened Sums

  datatype MinerPc = Fresh | Ready | Guarded | Hashing

  // A worker's snapshot of the cache and the fill generation, and the bound its
  // current program run uses. Inside a turn it has found the running flag set.
  datatype Miner = Miner(turn: bool, pc: MinerPc, cache: nat, gen: nat, bound: nat)

  // Where the thread inside set_job stands. It holds the job mutex unless Idle.
  datatype RotPc =
    | Idle
    | Cached                // shared cache replaced, start_fill entered
    | Joining               // waiting for the previous fill's threads
    | Wanting
    | Waiting               // counted as a waiting writer
    | Writing(store: nat)   // resetting, one store at a time
    | Written
    | Released
    | Spawning(next: nat)

  datatype System = System(
    fill: Fill, fillCache: nat, readers: int, waiting: int, writing: bool, generation: nat,
    sharedCache: nat, rot: RotPc, miners: seq<Miner>, running: bool,
    history: seq<nat>,      // the cache each generation was announced with
    skipped: bool)          // start_fill once returned early because of a shutdown

  datatype Event =
    | FillEvent(action: Action)
    | Rotate(newCache: nat)
    | StopRunning
    | Begin(m: nat) | Skip(m: nat)
    | Snapshot(m: nat) | Acquire(m: nat) | Recheck(m: nat) | Rerun(m: nat) | Release(m: nat)

  // Is the miner inside the shared side of the lock?
  predicate Holds(miner: Miner) { miner.pc.Guarded? || miner.pc.Hashing? }

  function SetMiner(s: System, m: nat, miner: Miner): System
    requires m < |s.miners|
  {
    s.(miners := s.miners[m := miner])
  }

  function ResetStep(l: Layout, s: System): System
    requires s.rot.Writing?
  {
    var k := s.rot.store;
    if k == 0 then s.(fill := s.fill.(itemCount := 0), rot := Writing(1))
    else if k == 1 then s.(fill := s.fill.(contiguous := 0), rot := Writing(2))
    else if k == 2 then s.(fill := s.fill.(complete := false), rot := Writing(3))
    else if k == 3 then s.(generation := s.generation + 1, history := s.history + [s.sharedCache], rot := Writing(4))
    else s.(fill := s.fill.(stop := false), rot := Written)
  }

  function RefillStep(l: Layout, s: System): System
    requires Sized(l, s.fill) && (s.rot.Released? || s.rot.Spawning?)
  {
    if s.rot.Released? then
      s.(fillCache := s.sharedCache, rot := Spawning(0),
         fill := s.fill.(done := seq(l.workers, _ => false), pcs := seq(l.workers, _ => Stopped)))
    else if s.rot.next < l.workers then
      s.(fill := At(s.fill, s.rot.next, Filling(l.Bound(s.rot.next))), rot := Spawning(s.rot.next + 1))
    else s.(rot := Idle)
  }

  function RotateStep(l: Layout, s: System, newCache: nat): System
    requires Sized(l, s.fill)
  {
    match s.rot
    case Idle => s.(sharedCache := newCache, rot := Cached)
    case Cached => if s.fill.shutdown then s.(rot := Idle, skipped := true) else s.(rot := Joining)
    case Joining => s.(rot := Wanting)
    case Wanting => s.(waiting := s.waiting + 1, rot := Waiting)
    case Waiting => s.(waiting := s.waiting - 1, writing := true, rot := Writing(0))
    case Writing(_) => ResetStep(l, s)
    case Written => s.(writing := false, rot := Released)
    case _ => RefillStep(l, s)
  }

  predicate OfMiner(e: Event) { !e.FillEvent? && !e.Rotate? && !e.StopRunning? }

  function MinerStep(s: System, e: Event): System
    requires OfMiner(e) && e.m < |s.miners|
  {
    var miner := s.miners[e.m];
    match e
    case Begin(m) => SetMiner(s, m, miner.(turn := true))
    case Skip(m) => SetMiner(s, m, miner.(turn := false))
    case Snapshot(m) => SetMiner(s, m, Miner(true, Ready, s.sharedCache, s.generation, 0))
    case Acquire(m) => SetMiner(s.(readers := s.readers + 1), m, miner.(pc := Guarded))
    case Recheck(m) =>
      if s.generation == miner.gen then SetMiner(s, m, miner.(pc := Hashing, bound := s.fill.itemCount))
      else SetMiner(s.(readers := s.readers - 1), m, miner.(pc := Ready, turn := false))
    case Rerun(m) => SetMiner(s, m, miner.(bound := s.fill.itemCount))
    case Release(m) => SetMiner(s.(readers := s.readers - 1), m, miner.(pc := Ready, turn := false))
  }

  ghost predicate CanMove(l: Layout, s: System, e: Event) {
    match e
    case FillEvent(a) => Enabled(l, s.fill, a) && (a.Shutdown? ==> !s.running)
    case StopRunning => true
    case Begin(m) => m < |s.miners| && s.running && !s.miners[m].turn
    case Skip(m) => m < |s.miners| && s.miners[m].turn && !Holds(s.miners[m])
    case Rotate(_) =>
      && (s.rot.Joining? ==> Resting(s.fill))
      && (s.rot.Waiting? ==> !s.writing && s.readers == 0)
    case Snapshot(m) => m < |s.miners| && s.miners[m].turn && s.rot.Idle? && !Holds(s.miners[m])
    case Acquire(m) => m < |s.miners| && s.miners[m].turn && s.miners[m].pc.Ready? && !s.writing && s.waiting == 0
    case Recheck(m) => m < |s.miners| && s.miners[m].pc.Guarded?
    case Rerun(m) => m < |s.miners| && s.miners[m].pc.Hashing?
    case Release(m) => m < |s.miners| && s.miners[m].pc.Hashing?
  }

  ghost function Move(l: Layout, d: Derive, s: System, e: Event): System
    requires Sized(l, s.fill) && CanMove(l, s, e)
  {
    match e
    case FillEvent(a) => s.(fill := Apply(l, d, s.fillCache, s.fill, a))
    case Rotate(c) => RotateStep(l, s, c)
    case StopRunning => s.(running := false)
    case _ => MinerStep(s, e)
  }

  // ---- the invariant ----

  ghost function Guards(): (nat, Miner) -> nat {
    (m: nat, miner: Miner) => if Holds(miner) then 1 else 0
  }

  ghost predicate LockOk(s: System) {
    && s.readers == Sum(s.miners, Guards())
    && s.writing == (s.rot.Writing? || s.rot.Written?)
    && s.waiting == (if s.rot.Waiting? then 1 else 0)
    && (s.writing ==> s.readers == 0)
  }

  ghost predicate Quiet(s: System) {
    s.rot.Wanting? || s.rot.Waiting? || s.rot.Writing? || s.rot.Written? || s.rot.Released?
  }

  // The generation has moved on and the new fill is not set up yet.
  ghost predicate Between(s: System) {
    (s.rot.Writing? && s.rot.store > 3) || s.rot.Written? || s.rot.Released?
  }

  ghost predicate RefillOk(l: Layout, d: Derive, s: System) {
    && Safe(l, d, s.fillCache, s.fill)
    && (Quiet(s) ==> Resting(s.fill))
    && ((s.rot.Writing? && s.rot.store > 0) || s.rot.Written? || s.rot.Released? ==> s.fill.itemCount == 0)
    && ((s.rot.Writing? && s.rot.store > 1) || s.rot.Written? || s.rot.Released? ==> s.fill.contiguous == 0)
    && (s.rot.Spawning? ==> forall w :: s.rot.next <= w < l.workers ==> s.fill.pcs[w].Stopped?)
  }

  ghost predicate HistoryOk(s: System) {
    && |s.history| == s.generation + 1
    && (if Between(s) then s.history[s.generation] == s.sharedCache else s.fillCache == s.history[s.generation])
    && (s.rot.Spawning? ==> s.fillCache == s.sharedCache)
    && (s.rot.Idle? && !s.skipped ==> s.history[s.generation] == s.sharedCache)
    && (s.skipped ==> s.fill.shutdown)
    && (s.fill.shutdown ==> !s.running)
  }

  ghost predicate MinerOk(s: System, miner: Miner) {
    && (!miner.pc.Fresh? ==> miner.gen < |s.history| && (s.skipped || s.history[miner.gen] == miner.cache))
    && (miner.pc.Hashing? ==> miner.gen == s.generation && miner.bound <= s.fill.itemCount)
    && (Holds(miner) ==> miner.turn)
  }

  ghost predicate Coherent(l: Layout, d: Derive, s: System) {
    && LockOk(s) && RefillOk(l, d, s) && HistoryOk(s)
    && forall m :: 0 <= m < |s.miners| ==> MinerOk(s, s.miners[m])
  }

  // ---- fill workers ----

  lemma RestingStays(l: Layout, d: Derive, cache: nat, f: Fill, a: Action)
    requires Sized(l, f) && Enabled(l, f, a) && Resting(f)
    ensures var g := Apply(l, d, cache, f, a);
            g.pcs == f.pcs && g.itemCount == f.itemCount && g.contiguous == f.contiguous
  {
  }

  lemma StoppedStays(l: Layout, d: Derive, cache: nat, f: Fill, a: Action, v: nat)
    requires Sized(l, f) && Enabled(l, f, a) && v < l.workers && f.pcs[v].Stopped?
    ensures var g := Apply(l, d, cache, f, a); Sized(l, g) && g.pcs[v].Stopped?
  {
    hide PublishStep;
    BoundsGrow(l, v, v + 1);
    if a.Work? && !f.pcs[a.w].Filling? {
      PublishFrame(l, f, a.w);
      if a.w == v { assert PublishStep(l, f, v) == f by { StoppedIdle(l, f, v); } }
    }
    if a.Work? && a.w < l.workers { BoundsGrow(l, a.w, a.w + 1); }
  }

  lemma StoppedIdle(l: Layout, f: Fill, v: nat)
    requires Sized(l, f) && v < l.workers && f.pcs[v].Stopped?
    ensures PublishStep(l, f, v) == f
  {
  }

  lemma ShutdownStays(l: Layout, d: Derive, cache: nat, f: Fill, a: Action)
    requires Sized(l, f) && Enabled(l, f, a)
    ensures Apply(l, d, cache, f, a).shutdown == (f.shutdown || a.Shutdown?)
  {
    hide PublishStep;
    if a.Work? && !f.pcs[a.w].Filling? { PublishFrame(l, f, a.w); }
  }

  lemma FillEventKeeps(l: Layout, d: Derive, s: System, a: Action)
    requires Coherent(l, d, s) && CanMove(l, s, FillEvent(a))
    ensures Coherent(l, d, Move(l, d, s, FillEvent(a)))
  {
    hide Apply, Enabled, WorkerOk, ChunkOk, Reached, Sum;
    var g := Apply(l, d, s.fillCache, s.fill, a);
    StepSafe(l, d, s.fillCache, s.fill, a);
    if Quiet(s) { RestingStays(l, d, s.fillCache, s.fill, a); }
    if s.rot.Spawning? {
      forall w | s.rot.next <= w < l.workers ensures g.pcs[w].Stopped? {
        StoppedStays(l, d, s.fillCache, s.fill, a, w);
      }
    }
    ShutdownStays(l, d, s.fillCache, s.fill, a);
    forall m | 0 <= m < |s.miners| ensures MinerOk(s.(fill := g), s.miners[m]) {
      assert MinerOk(s, s.miners[m]);
    }
  }

  // ---- the rotating thread ----

  // Resetting the counters and flags keeps the fill safe: it publishes nothing.
  lemma ResetSafe(l: Layout, d: Derive, cache: nat, f: Fill, g: Fill)
    requires Safe(l, d, cache, f) && Resting(f)
    requires g.data == f.data && g.done == f.done && g.pcs == f.pcs
    requires g.itemCount == f.itemCount || g.itemCount == 0
    requires g.contiguous == f.contiguous || g.contiguous == 0
    ensures Safe(l, d, cache, g)
  {
    hide LeadingDone;
    assert l.Bound(0) == 0 && 0 <= LeadingDone(g.done);
    forall w | 0 <= w < l.workers ensures WorkerOk(l, d, cache, g, w) && ChunkOk(l, d, cache, g, w) {
      assert WorkerOk(l, d, cache, f, w) && ChunkOk(l, d, cache, f, w);
    }
  }

  lemma EmptySafe(l: Layout, d: Derive, cache: nat, f: Fill)
    requires Sized(l, f) && f.itemCount == f.contiguous == 0
    requires forall w :: 0 <= w < l.workers ==> !f.done[w] && f.pcs[w].Stopped?
    ensures Safe(l, d, cache, f)
  {
    assert l.Bound(0) == 0 && 0 <= LeadingDone(f.done);
  }

  lemma SpawnSafe(l: Layout, d: Derive, cache: nat, f: Fill, w: nat)
    requires Safe(l, d, cache, f) && w < l.workers && f.pcs[w].Stopped?
    ensures Safe(l, d, cache, At(f, w, Filling(l.Bound(w))))
  {
    hide LeadingDone, Reached;
    var g := At(f, w, Filling(l.Bound(w)));
    BoundsGrow(l, w, w + 1);
    assert WorkerOk(l, d, cache, f, w);
    forall v | 0 <= v < l.workers ensures WorkerOk(l, d, cache, g, v) && ChunkOk(l, d, cache, g, v) {
      assert WorkerOk(l, d, cache, f, v) && ChunkOk(l, d, cache, f, v);
    }
  }

  lemma ResetKeeps(l: Layout, d: Derive, s: System)
    requires Coherent(l, d, s) && s.rot.Writing?
    ensures Coherent(l, d, ResetStep(l, s))
  {
    hide WorkerOk, ChunkOk, Reached, Sum;
    var t := ResetStep(l, s);
    ResetSafe(l, d, s.fillCache, s.fill, t.fill);
    forall m | 0 <= m < |s.miners| ensures MinerOk(t, t.miners[m]) {
      SumZero(s.miners, Guards());
      assert MinerOk(s, s.miners[m]);
    }
  }

  lemma RefillKeeps(l: Layout, d: Derive, s: System)
    requires Coherent(l, d, s) && (s.rot.Released? || s.rot.Spawning?)
    ensures Coherent(l, d, RefillStep(l, s))
  {
    hide WorkerOk, ChunkOk, Reached, Sum;
    var t := RefillStep(l, s);
    if s.rot.Released? {
      EmptySafe(l, d, t.fillCache, t.fill);
    } else if s.rot.next < l.workers {
      SpawnSafe(l, d, s.fillCache, s.fill, s.rot.next);
    }
    forall m | 0 <= m < |s.miners| ensures MinerOk(t, t.miners[m]) {
      assert MinerOk(s, s.miners[m]);
    }
  }

  lemma RotateKeeps(l: Layout, d: Derive, s: System, newCache: nat)
    requires Coherent(l, d, s) && CanMove(l, s, Rotate(newCache))
    ensures Coherent(l, d, RotateStep(l, s, newCache))
  {
    hide WorkerOk, ChunkOk, Reached, Sum, ResetStep, RefillStep;
    if s.rot.Writing? {
      ResetKeeps(l, d, s);
    } else if s.rot.Released? || s.rot.Spawning? {
      RefillKeeps(l, d, s);
    } else {
      var t := RotateStep(l, s, newCache);
      assert t.fill == s.fill && t.fillCache == s.fillCache && t.miners == s.miners && t.history == s.history;
      forall m | 0 <= m < |s.miners| ensures MinerOk(t, t.miners[m]) {
        assert MinerOk(s, s.miners[m]);
      }
    }
  }

  // ---- miners ----

  lemma MinerFrame(s: System, e: Event)
    requires OfMiner(e) && e.m < |s.miners|
    ensures var t := MinerStep(s, e);
            |t.miners| == |s.miners| && t == s.(readers := t.readers, miners := s.miners[e.m := t.miners[e.m]])
  {
  }

  lemma MinerLocks(l: Layout, s: System, e: Event)
    requires LockOk(s) && CanMove(l, s, e) && OfMiner(e)
    ensures LockOk(MinerStep(s, e))
  {
    hide Sum;
    var t := MinerStep(s, e);
    SumUpdate(s.miners, e.m, t.miners[e.m], Guards());
  }

  lemma MinerItself(l: Layout, s: System, e: Event)
    requires HistoryOk(s) && CanMove(l, s, e) && OfMiner(e) && MinerOk(s, s.miners[e.m])
    ensures MinerOk(MinerStep(s, e), MinerStep(s, e).miners[e.m])
  {
  }

  lemma MinerKeeps(l: Layout, d: Derive, s: System, e: Event)
    requires Coherent(l, d, s) && CanMove(l, s, e) && OfMiner(e)
    ensures Coherent(l, d, MinerStep(s, e))
  {
    hide Safe, Sum, Resting, MinerStep, LockOk;
    var t := MinerStep(s, e);
    MinerFrame(s, e);
    MinerLocks(l, s, e);
    assert MinerOk(s, s.miners[e.m]);
    MinerItself(l, s, e);
    forall m | 0 <= m < |s.miners| ensures MinerOk(t, t.miners[m]) {
      assert MinerOk(s, s.miners[m]);
    }
  }

  lemma StopKeeps(l: Layout, d: Derive, s: System)
    requires Coherent(l, d, s)
    ensures Coherent(l, d, s.(running := false))
  {
    hide Safe, Sum, Resting;
    var t := s.(running := false);
    forall m | 0 <= m < |s.miners| ensures MinerOk(t, t.miners[m]) {
      assert MinerOk(s, s.miners[m]);
    }
  }

  lemma MoveKeeps(l: Layout, d: Derive, s: System, e: Event)
    requires Coherent(l, d, s) && CanMove(l, s, e)
    ensures Coherent(l, d, Move(l, d, s, e))
  {
    hide Coherent, RotateStep, MinerStep, Apply;
    SystemSized(l, d, s);
    match e
    case FillEvent(a) => FillEventKeeps(l, d, s, a);
    case Rotate(c) => RotateKeeps(l, d, s, c);
    case StopRunning => StopKeeps(l, d, s);
    case _ => MinerKeeps(l, d, s, e);
  }

  lemma SystemSized(l: Layout, d: Derive, s: System)
    requires Coherent(l, d, s)
    ensures Sized(l, s.fill)
  {
  }

  // ---- runs ----

  // Before the first job: nothing filled, nobody holds the lock.
  ghost predicate Start(l: Layout, s: System) {
    && Sized(l, s.fill) && s.fill.itemCount == s.fill.contiguous == 0 && !s.fill.shutdown
    && (forall w :: 0 <= w < l.workers ==> !s.fill.done[w] && s.fill.pcs[w].Stopped?)
    && s.readers == s.waiting == s.generation == 0 && !s.writing && s.rot.Idle? && !s.skipped
    && s.history == [s.sharedCache] && s.fillCache == s.sharedCache
    && (forall m :: 0 <= m < |s.miners| ==> s.miners[m].pc.Fresh? && !s.miners[m].turn)
  }

  ghost predicate IsHistory(l: Layout, d: Derive, ss: seq<System>, es: seq<Event>) {
    && |ss| == |es| + 1 && Start(l, ss[0])
    && forall i :: 0 <= i < |es| ==>
         Sized(l, ss[i].fill) && CanMove(l, ss[i], es[i]) && ss[i + 1] == Move(l, d, ss[i], es[i])
  }

  lemma StartCoherent(l: Layout, d: Derive, s: System)
    requires Start(l, s)
    ensures Coherent(l, d, s)
  {
    hide WorkerOk, ChunkOk, Reached, Sum;
    SumZero(s.miners, Guards());
    EmptySafe(l, d, s.fillCache, s.fill);
  }

  lemma {:induction false} AlwaysCoherent(l: Layout, d: Derive, ss: seq<System>, es: seq<Event>, i: nat)
    requires IsHistory(l, d, ss, es) && i < |ss|
    ensures Coherent(l, d, ss[i])
  {
    hide Coherent, Move, CanMove, Start;
    if i == 0 {
      StartCoherent(l, d, ss[0]);
    } else {
      AlwaysCoherent(l, d, ss, es, i - 1);
      MoveKeeps(l, d, ss[i - 1], es[i - 1]);
    }
  }

  // Every byte a hashing miner may read below its bound was derived from the
  // cache of the generation it checked; unless a shutdown made a rotation skip
  // the refill, that is the cache the miner itself derives missing items from.
  lemma HashReadsOneSeed(l: Layout, d: Derive, ss: seq<System>, es: seq<Event>, i: nat, m: nat, k: nat)
    requires IsHistory(l, d, ss, es) && i < |ss|
    requires m < |ss[i].miners| && ss[i].miners[m].pc.Hashing? && k < ss[i].miners[m].bound
    ensures var s, miner := ss[i], ss[i].miners[m];
            && k < |s.fill.data| && miner.gen < |s.history|
            && s.fill.data[k] == d(s.history[miner.gen], k)
            && (!s.skipped ==> s.fill.data[k] == d(miner.cache, k))
  {
    hide WorkerOk, ChunkOk, Reached, Sum, IsHistory;
    AlwaysCoherent(l, d, ss, es, i);
    var s := ss[i];
    assert MinerOk(s, s.miners[m]);
    PublishedPrefixDerived(l, d, s.fillCache, s.fill);
    assert !Between(s);
  }

  // While any miner hashes, no reset is under way; while one is, nobody hashes.
  lemma ResetExcludesHashing(l: Layout, d: Derive, ss: seq<System>, es: seq<Event>, i: nat, m: nat)
    requires IsHistory(l, d, ss, es) && i < |ss| && m < |ss[i].miners| && Holds(ss[i].miners[m])
    ensures !ss[i].writing && !ss[i].rot.Writing?
    ensures i < |es| ==> ss[i + 1].generation == ss[i].generation && ss[i].fill.itemCount <= ss[i + 1].fill.itemCount
  {
    hide WorkerOk, ChunkOk, Reached, Sum;
    AlwaysCoherent(l, d, ss, es, i);
    if ss[i].writing { SumZero(ss[i].miners, Guards()); }
    if i < |es| && es[i].FillEvent? { StepSafe(l, d, ss[i].fillCache, ss[i].fill, es[i].action); }
  }

  // Once stopped, a miner between turns starts no other, so it never hashes again:
  // the only miners a skipped rotation can reach were inside a turn at stop().
  lemma {:induction false} NoTurnAfterStop(l: Layout, d: Derive, ss: seq<System>, es: seq<Event>, m: nat,
                                           i: nat, j: nat)
    requires IsHistory(l, d, ss, es) && i <= j < |ss|
    requires m < |ss[i].miners| && !ss[i].running && !ss[i].miners[m].turn
    ensures m < |ss[j].miners| && !ss[j].running && !ss[j].miners[m].turn && !Holds(ss[j].miners[m])
    decreases j
  {
    hide Coherent, MinerStep, Start;
    if i < j {
      NoTurnAfterStop(l, d, ss, es, m, i, j - 1);
      StoppedStep(l, d, ss[j - 1], es[j - 1], m);
    }
    AlwaysCoherent(l, d, ss, es, j);
    TurnHeld(l, d, ss[j], m);
  }

  lemma TurnHeld(l: Layout, d: Derive, s: System, m: nat)
    requires Coherent(l, d, s) && m < |s.miners|
    ensures Holds(s.miners[m]) ==> s.miners[m].turn
    ensures s.skipped ==> !s.running
  {
    hide Safe, Sum, Resting;
    assert MinerOk(s, s.miners[m]);
  }

  lemma StoppedStep(l: Layout, d: Derive, s: System, e: Event, m: nat)
    requires Sized(l, s.fill) && CanMove(l, s, e) && m < |s.miners| && !s.running && !s.miners[m].turn
    ensures var t := Move(l, d, s, e); m < |t.miners| && !t.running && !t.miners[m].turn
  {
    hide Apply, Enabled, ResetStep, RefillStep;
    if e.Rotate? { RotateFrame(l, s, e.newCache); }
  }

  lemma RotateFrame(l: Layout, s: System, newCache: nat)
    requires Sized(l, s.fill)
    ensures var t := RotateStep(l, s, newCache);
            t.miners == s.miners && t.running == s.running && (s.skipped ==> t.skipped)
  {
  }

  // ---- a rotation skipped by a shutdown ----

  ghost predicate Reaches(l: Layout, d: Derive, s: System) {
    exists ss: seq<System>, es: seq<Event> :: IsHistory(l, d, ss, es) && ss[|es|] == s
  }

  lemma Extend(l: Layout, d: Derive, s: System, e: Event)
    requires Reaches(l, d, s) && CanMove(l, s, e) && Sized(l, s.fill)
    ensures Reaches(l, d, Move(l, d, s, e))
  {
    hide Move, CanMove, Start;
    var ss: seq<System>, es: seq<Event> :| IsHistory(l, d, ss, es) && ss[|es|] == s;
    var ss', es' := ss + [Move(l, d, s, e)], es + [e];
    forall i | 0 <= i < |es'|
      ensures Sized(l, ss'[i].fill) && CanMove(l, ss'[i], es'[i]) && ss'[i + 1] == Move(l, d, ss'[i], es'[i])
    {
      assert i < |es| ==> ss'[i] == ss[i] && ss'[i + 1] == ss[i + 1];
    }
    assert IsHistory(l, d, ss', es') && ss'[|es'|] == Move(l, d, s, e);
  }

  lemma ReachesCoherent(l: Layout, d: Derive, s: System)
    requires Reaches(l, d, s)
    ensures Coherent(l, d, s)
  {
    hide Coherent, Move, CanMove, Start;
    var ss: seq<System>, es: seq<Event> :| IsHistory(l, d, ss, es) && ss[|es|] == s;
    AlwaysCoherent(l, d, ss, es, |es|);
  }

  // From any reachable state with a shutdown requested and no rotation under
  // way, a job with a new seed lets a miner that is inside a turn but not yet
  // under the lock hash over the old seed's items.
  lemma SkippedRotationMixes(l: Layout, d: Derive, s: System, m: nat, newCache: nat, k: nat) returns (t: System)
    requires Reaches(l, d, s) && s.rot.Idle? && s.fill.shutdown
    requires m < |s.miners| && s.miners[m].turn && !Holds(s.miners[m])
    requires k < s.fill.itemCount && d(newCache, k) != d(s.fillCache, k)
    ensures Reaches(l, d, t) && t.skipped && t.fill == s.fill
    ensures t.miners == s.miners[m := Miner(true, Hashing, newCache, s.generation, s.fill.itemCount)]
    ensures k < |t.fill.data| && t.fill.data[k] != d(newCache, k)
  {
    hide WorkerOk, ChunkOk, Reached, Reaches, Sum;
    ReachesCoherent(l, d, s);
    PublishedPrefixDerived(l, d, s.fillCache, s.fill);
    var a := s.(sharedCache := newCache, rot := Cached);
    Extend(l, d, s, Rotate(newCache));
    var b := a.(rot := Idle, skipped := true);
    Extend(l, d, a, Rotate(newCache));
    var c := SetMiner(b, m, Miner(true, Ready, newCache, s.generation, 0));
    Extend(l, d, b, Snapshot(m));
    var g := SetMiner(c.(readers := c.readers + 1), m, Miner(true, Guarded, newCache, s.generation, 0));
    Extend(l, d, c, Acquire(m));
    t := SetMiner(g, m, Miner(true, Hashing, newCache, s.generation, s.fill.itemCount));
    Extend(l, d, g, Recheck(m));
  }

  // Such states exist: one item, one worker, one miner whose turn has begun, one
  // rotation, stop.
  const ONE: Layout := RawLayout(1, 1, 1)

  function OneItem(data: Bytes, count: nat, cursor: nat, done: bool, pc: Pc, shutdown: bool): Fill {
    Fill([data], count, cursor, [done], false, false, shutdown, [pc])
  }

  function OneMiner(f: Fill, first: nat, shared: nat, gen: nat, rot: RotPc): System {
    System(f, if gen == 0 || rot.Writing? || rot.Written? || rot.Released? then first else shared, 0,
           if rot.Waiting? then 1 else 0, rot.Writing? || rot.Written?, gen, shared, rot,
           [Miner(true, Fresh, 0, 0, 0)], !f.shutdown, if gen == 0 then [first] else [first, shared], false)
  }

  lemma StartReaches(d: Derive, bytes: Bytes, first: nat)
    ensures Reaches(ONE, d, OneMiner(OneItem(bytes, 0, 0, false, Stopped, false), first, first, 0, Idle))
  {
    var s := OneMiner(OneItem(bytes, 0, 0, false, Stopped, false), first, first, 0, Idle);
    var s0 := s.(miners := [Miner(false, Fresh, 0, 0, 0)]);
    assert Start(ONE, s0);
    var none: seq<Event> := [];
    assert IsHistory(ONE, d, [s0], none) && [s0][|none|] == s0;
    assert s0.miners[0 := Miner(true, Fresh, 0, 0, 0)] == s.miners;
    Extend(ONE, d, s0, Begin(0));
  }

  lemma FirstFillSpawns(d: Derive, bytes: Bytes, first: nat, cache: nat)
    ensures Reaches(ONE, d, OneMiner(OneItem(bytes, 0, 0, false, Filling(0), false), first, cache, 1, Idle))
  {
    hide Reaches;
    StartReaches(d, bytes, first);
    var f := OneItem(bytes, 0, 0, false, Stopped, false);
    Extend(ONE, d, OneMiner(f, first, first, 0, Idle), Rotate(cache));
    Extend(ONE, d, OneMiner(f, first, cache, 0, Cached), Rotate(cache));
    Extend(ONE, d, OneMiner(f, first, cache, 0, Joining), Rotate(cache));
    Extend(ONE, d, OneMiner(f, first, cache, 0, Wanting), Rotate(cache));
    Extend(ONE, d, OneMiner(f, first, cache, 0, Waiting), Rotate(cache));
    Extend(ONE, d, OneMiner(f, first, cache, 0, Writing(0)), Rotate(cache));
    Extend(ONE, d, OneMiner(f, first, cache, 0, Writing(1)), Rotate(cache));
    Extend(ONE, d, OneMiner(f, first, cache, 0, Writing(2)), Rotate(cache));
    Extend(ONE, d, OneMiner(f, first, cache, 0, Writing(3)), Rotate(cache));
    assert [first] + [cache] == [first, cache];
    Extend(ONE, d, OneMiner(f, first, cache, 1, Writing(4)), Rotate(cache));
    Extend(ONE, d, OneMiner(f, first, cache, 1, Written), Rotate(cache));
    Extend(ONE, d, OneMiner(f, first, cache, 1, Released), Rotate(cache));
    assert seq(ONE.workers, _ => false) == [false] && seq(ONE.workers, _ => Stopped) == [Stopped];
    Extend(ONE, d, OneMiner(f, first, cache, 1, Spawning(0)), Rotate(cache));
    var g := OneItem(bytes, 0, 0, false, Filling(0), false);
    assert f.pcs[0 := Filling(0)] == [Filling(0)];
    Extend(ONE, d, OneMiner(g, first, cache, 1, Spawning(1)), Rotate(cache));
  }

  lemma OneItemFilled(d: Derive, bytes: Bytes, first: nat, cache: nat)
    ensures Reaches(ONE, d, OneMiner(OneItem(d(cache, 0), 0, 0, true, Scanning(1), false), first, cache, 1, Idle))
  {
    hide Reaches;
    FirstFillSpawns(d, bytes, first, cache);
    var x := d(cache, 0);
    assert [bytes][0 := x] == [x] && [false][0 := true] == [true];
    forall pc: Pc, pc': Pc ensures [pc][0 := pc'] == [pc'] { assert [pc][0 := pc'] == [pc']; }
    Extend(ONE, d, OneMiner(OneItem(bytes, 0, 0, false, Filling(0), false), first, cache, 1, Idle), FillEvent(Work(0)));
    Extend(ONE, d, OneMiner(OneItem(x, 0, 0, false, Filling(1), false), first, cache, 1, Idle), FillEvent(Work(0)));
    Extend(ONE, d, OneMiner(OneItem(x, 0, 0, true, Loading, false), first, cache, 1, Idle), FillEvent(Work(0)));
    Extend(ONE, d, OneMiner(OneItem(x, 0, 0, true, Scanning(0), false), first, cache, 1, Idle), FillEvent(Work(0)));
  }

  lemma OneItemPublished(d: Derive, bytes: Bytes, first: nat, cache: nat)
    ensures Reaches(ONE, d, OneMiner(OneItem(d(cache, 0), 1, 1, true, Deciding(1, 0), true), first, cache, 1, Idle))
  {
    hide Reaches;
    OneItemFilled(d, bytes, first, cache);
    var x := d(cache, 0);
    forall pc: Pc, pc': Pc ensures [pc][0 := pc'] == [pc'] { assert [pc][0 := pc'] == [pc']; }
    Extend(ONE, d, OneMiner(OneItem(x, 0, 0, true, Scanning(1), false), first, cache, 1, Idle), FillEvent(Work(0)));
    Extend(ONE, d, OneMiner(OneItem(x, 0, 0, true, Exchanging(1), false), first, cache, 1, Idle), FillEvent(Work(0)));
    Extend(ONE, d, OneMiner(OneItem(x, 0, 1, true, Raising(1, 0), false), first, cache, 1, Idle), FillEvent(Work(0)));
    Extend(ONE, d, OneMiner(OneItem(x, 0, 1, true, Swapping(1, 0, 0), false), first, cache, 1, Idle),
           FillEvent(Work(0)));
    var last := OneMiner(OneItem(x, 1, 1, true, Deciding(1, 0), false), first, cache, 1, Idle);
    Extend(ONE, d, last, StopRunning);
    Extend(ONE, d, last.(running := false), FillEvent(Action.Shutdown));
  }

  // So a rotation begun after stop() can feed a miner two seeds at once.
  lemma ShutdownRotationCanMix(d: Derive, bytes: Bytes, first: nat, cache: nat, newCache: nat) returns (t: System)
    requires d(newCache, 0) != d(cache, 0)
    ensures Reaches(ONE, d, t) && |t.miners| == 1 == |t.fill.data| && t.miners[0].pc.Hashing? && t.miners[0].bound == 1
    ensures t.miners[0].cache == newCache && t.fill.data[0] == d(cache, 0)
  {
    hide Reaches;
    OneItemPublished(d, bytes, first, cache);
    var s := OneMiner(OneItem(d(cache, 0), 1, 1, true, Deciding(1, 0), true), first, cache, 1, Idle);
    t := SkippedRotationMixes(ONE, d, s, 0, newCache, 0);
  }
}
