// A hash computed by a running miner: its programs read dataset items one at a
// time, from the buffer below the miner's bound and from its own cache above,
// while fill workers and rotations go on. Held under the guard with a matching
// generation, it is the one-shot hash for the miner's cache
// (src/mining_engine.cpp, src/vm.cpp).
module GuardedHash {
  import opened Words
  import opened AesHash
  import opened Pipeline
  import MiningWorker
  import opened Chunks
  import opened FillProtocol
  import opened FillProgress
  import opened Rotation

  const ITERATIONS: nat := 2048

  // A program run as its dataset accesses: one item read in every iteration.
  datatype Runner<!T> = Runner(
    start: (Quad, Pad, nat) -> T,
    item: T -> nat,
    feed: (T, Bytes) -> T,
    end: T -> Ran)

  // ---- over a dataset derived from one cache ----

  function Fed<T>(v: Runner<T>, d: Derive, cache: nat, n: nat, x: T): T {
    if n == 0 then x else Fed(v, d, cache, n - 1, v.feed(x, d(cache, v.item(x))))
  }

  function RunFor<T>(v: Runner<T>, d: Derive, cache: nat, key: Quad, pad: Pad, rounding: nat): Ran {
    v.end(Fed(v, d, cache, ITERATIONS, v.start(key, pad, rounding)))
  }

  // The environment of a worker whose VM derives items from `cache`.
  function EnvFor<T>(base: Env, v: Runner<T>, d: Derive, cache: nat): Env {
    base.(run := (key: Quad, pad: Pad, rounding: nat) => RunFor(v, d, cache, key, pad, rounding))
  }

  // ---- in a running system ----

  // What miner m reads for item k in state s.
  function ReadItem(d: Derive, s: System, m: nat, k: nat): Bytes
    requires m < |s.miners|
  {
    if k < s.miners[m].bound && k < |s.fill.data| then s.fill.data[k] else d(s.miners[m].cache, k)
  }

  // at[n] is the state in which read n happens.
  ghost function LiveFed<T>(v: Runner<T>, d: Derive, ss: seq<System>, m: nat, at: seq<nat>, x: T): T
    requires forall n :: 0 <= n < |at| ==> at[n] < |ss| && m < |ss[at[n]].miners|
  {
    if at == [] then x else LiveFed(v, d, ss, m, at[1..], v.feed(x, ReadItem(d, ss[at[0]], m, v.item(x))))
  }

  ghost predicate Timed(ss: seq<System>, m: nat, at: seq<nat>) {
    |at| == ITERATIONS && forall n :: 0 <= n < |at| ==> at[n] < |ss| && m < |ss[at[n]].miners|
  }

  ghost predicate AllTimed(ss: seq<System>, m: nat, ats: seq<seq<nat>>) {
    forall n :: 0 <= n < |ats| ==> Timed(ss, m, ats[n])
  }

  ghost function LiveRun<T>(v: Runner<T>, d: Derive, ss: seq<System>, m: nat, at: seq<nat>,
                            key: Quad, pad: Pad, rounding: nat): Ran
    requires Timed(ss, m, at)
  {
    v.end(LiveFed(v, d, ss, m, at, v.start(key, pad, rounding)))
  }

  ghost function LiveChained<T>(base: Env, v: Runner<T>, d: Derive, ss: seq<System>, m: nat,
                                ats: seq<seq<nat>>, r: Ran): Ran
    requires AllTimed(ss, m, ats)
  {
    if ats == [] then r
    else LiveChained(base, v, d, ss, m, ats[1..],
                     LiveRun(v, d, ss, m, ats[0], base.chain(r.regs), r.pad, r.rounding))
  }

  // The whole hash, with the moments of its eight programs.
  ghost function LiveHash<T>(base: Env, v: Runner<T>, d: Derive, ss: seq<System>, m: nat,
                             ats: seq<seq<nat>>, input: seq<Byte>): Hash
    requires |ats| == 8 && AllTimed(ss, m, ats)
  {
    var q := base.seedOf(input);
    var r := LiveChained(base, v, d, ss, m, ats[1..],
                         LiveRun(v, d, ss, m, ats[0], FillEnd(base, q), FilledPad(base, q), 0));
    base.final(r.regs, HashOf(base.aes, r.pad))
  }

  // ---- while the guard is held ----

  // Miner m hashes from state i to state j, and no rotation has been skipped.
  ghost predicate Held(ss: seq<System>, m: nat, i: nat, j: nat) {
    && i <= j < |ss| && !ss[j].skipped
    && forall k :: i <= k <= j ==> m < |ss[k].miners| && ss[k].miners[m].pc.Hashing?
  }

  lemma StepKeepsSnapshot(l: Layout, d: Derive, s: System, e: Event, m: nat)
    requires Sized(l, s.fill) && CanMove(l, s, e) && m < |s.miners| && s.miners[m].pc.Hashing?
    ensures var t := Move(l, d, s, e);
            && m < |t.miners| && t.miners[m].cache == s.miners[m].cache && (s.skipped ==> t.skipped)
  {
    hide Apply, Enabled, ResetStep, RefillStep;
    if e.Rotate? { RotateFrame(l, s, e.newCache); }
  }

  lemma {:induction false} OneSnapshot(l: Layout, d: Derive, ss: seq<System>, es: seq<Event>, m: nat,
                                       i: nat, k: nat, j: nat)
    requires IsHistory(l, d, ss, es) && Held(ss, m, i, j) && i <= k <= j
    ensures ss[k].miners[m].cache == ss[i].miners[m].cache && !ss[k].skipped
    decreases k
  {
    hide Move, CanMove, Start;
    if k > i {
      OneSnapshot(l, d, ss, es, m, i, k - 1, j);
      StepKeepsSnapshot(l, d, ss[k - 1], es[k - 1], m);
    }
    NotSkipped(l, d, ss, es, m, i, k, j);
  }

  lemma {:induction false} NotSkipped(l: Layout, d: Derive, ss: seq<System>, es: seq<Event>, m: nat,
                                      i: nat, k: nat, j: nat)
    requires IsHistory(l, d, ss, es) && Held(ss, m, i, j) && i <= k <= j
    ensures !ss[k].skipped
    decreases j - k
  {
    hide Move, CanMove, Start;
    if k < j {
      NotSkipped(l, d, ss, es, m, i, k + 1, j);
      StepKeepsSnapshot(l, d, ss[k], es[k], m);
    }
  }

  // Every read gives the item derived from the miner's own cache.
  lemma ReadsOwnCache(l: Layout, d: Derive, ss: seq<System>, es: seq<Event>, m: nat, i: nat, j: nat, at: nat, k: nat)
    requires IsHistory(l, d, ss, es) && Held(ss, m, i, j) && i <= at <= j
    ensures ReadItem(d, ss[at], m, k) == d(ss[i].miners[m].cache, k)
  {
    hide IsHistory;
    OneSnapshot(l, d, ss, es, m, i, at, j);
    if k < ss[at].miners[m].bound { HashReadsOneSeed(l, d, ss, es, at, m, k); }
  }

  // All reads of a program happen between states i and j.
  ghost predicate Within(i: nat, j: nat, at: seq<nat>) {
    forall n :: 0 <= n < |at| ==> i <= at[n] <= j
  }

  ghost predicate AllWithin(i: nat, j: nat, ats: seq<seq<nat>>) {
    forall n :: 0 <= n < |ats| ==> Within(i, j, ats[n])
  }

  lemma {:induction false} LiveFedIsFed<T>(l: Layout, d: Derive, ss: seq<System>, es: seq<Event>, m: nat,
                                           i: nat, j: nat, v: Runner<T>, at: seq<nat>, x: T)
    requires IsHistory(l, d, ss, es) && Held(ss, m, i, j) && Within(i, j, at)
    ensures LiveFed(v, d, ss, m, at, x) == Fed(v, d, ss[i].miners[m].cache, |at|, x)
    decreases |at|
  {
    hide IsHistory, ReadItem;
    if at != [] {
      ReadsOwnCache(l, d, ss, es, m, i, j, at[0], v.item(x));
      LiveFedIsFed(l, d, ss, es, m, i, j, v, at[1..], v.feed(x, ReadItem(d, ss[at[0]], m, v.item(x))));
    }
  }

  lemma LiveRunIsRun<T>(l: Layout, d: Derive, ss: seq<System>, es: seq<Event>, m: nat, i: nat, j: nat,
                        v: Runner<T>, at: seq<nat>, key: Quad, pad: Pad, rounding: nat)
    requires IsHistory(l, d, ss, es) && Held(ss, m, i, j) && Timed(ss, m, at) && Within(i, j, at)
    ensures LiveRun(v, d, ss, m, at, key, pad, rounding) ==
            RunFor(v, d, ss[i].miners[m].cache, key, pad, rounding)
  {
    hide IsHistory, Fed, LiveFed;
    LiveFedIsFed(l, d, ss, es, m, i, j, v, at, v.start(key, pad, rounding));
  }

  lemma {:induction false} LiveChainedIsChained<T>(l: Layout, d: Derive, ss: seq<System>, es: seq<Event>, m: nat,
                                                   i: nat, j: nat, base: Env, v: Runner<T>, ats: seq<seq<nat>>, r: Ran)
    requires IsHistory(l, d, ss, es) && Held(ss, m, i, j) && AllTimed(ss, m, ats) && AllWithin(i, j, ats)
    ensures LiveChained(base, v, d, ss, m, ats, r) ==
            Chained(EnvFor(base, v, d, ss[i].miners[m].cache), |ats|, r)
    decreases |ats|
  {
    hide IsHistory, LiveRun, RunFor;
    if ats != [] {
      LiveRunIsRun(l, d, ss, es, m, i, j, v, ats[0], base.chain(r.regs), r.pad, r.rounding);
      LiveChainedIsChained(l, d, ss, es, m, i, j, base, v, ats[1..],
                           LiveRun(v, d, ss, m, ats[0], base.chain(r.regs), r.pad, r.rounding));
    }
  }

  lemma SameFill<T>(base: Env, v: Runner<T>, d: Derive, cache: nat, q: Quad)
    ensures FilledPad(EnvFor(base, v, d, cache), q) == FilledPad(base, q)
  {
    FilledUnique(base.aes, q, FilledPad(EnvFor(base, v, d, cache), q), FilledPad(base, q));
  }

  // The theorem: whatever the fill workers, the other miners and the rotating
  // thread do meanwhile, and whenever the reads happen.
  lemma GuardedHashIsOneShot<T>(l: Layout, d: Derive, ss: seq<System>, es: seq<Event>, m: nat, i: nat, j: nat,
                                base: Env, v: Runner<T>, ats: seq<seq<nat>>, input: seq<Byte>)
    requires IsHistory(l, d, ss, es) && Held(ss, m, i, j)
    requires |ats| == 8 && AllTimed(ss, m, ats) && AllWithin(i, j, ats)
    ensures LiveHash(base, v, d, ss, m, ats, input) ==
            OneShot(EnvFor(base, v, d, ss[i].miners[m].cache), input)
  {
    hide IsHistory, LiveRun, RunFor, FilledPad, FillState, Absorbed, LiveChained, Chained;
    var e, q := EnvFor(base, v, d, ss[i].miners[m].cache), base.seedOf(input);
    SameFill(base, v, d, ss[i].miners[m].cache, q);
    LiveRunIsRun(l, d, ss, es, m, i, j, v, ats[0], FillEnd(base, q), FilledPad(base, q), 0);
    LiveChainedIsChained(l, d, ss, es, m, i, j, base, v, ats[1..],
                         LiveRun(v, d, ss, m, ats[0], FillEnd(base, q), FilledPad(base, q), 0));
  }

  // So what a worker reports is what it hashes: the live hash of the block that
  // carries the reported nonce.
  lemma ReportIsLive<T>(l: Layout, d: Derive, ss: seq<System>, es: seq<Event>, m: nat, i: nat, j: nat,
                        base: Env, v: Runner<T>, ats: seq<seq<nat>>, w: MiningWorker.Locals,
                        w': MiningWorker.Locals, report: Option<MiningWorker.Report>)
    requires IsHistory(l, d, ss, es) && Held(ss, m, i, j)
    requires |ats| == 8 && AllTimed(ss, m, ats) && AllWithin(i, j, ats)
    requires MiningWorker.Honest(w, w', report) && report.Some? && w.env == EnvFor(base, v, d, ss[i].miners[m].cache)
    ensures MiningWorker.Fits(w.job)
    ensures report.value.hash == LiveHash(base, v, d, ss, m, ats, MiningWorker.BlockFor(w.job, report.value.nonce))
  {
    hide IsHistory, LiveHash, OneShot, MiningWorker.BlockFor;
    GuardedHashIsOneShot(l, d, ss, es, m, i, j, base, v, ats, MiningWorker.BlockFor(w.job, report.value.nonce));
  }
}
