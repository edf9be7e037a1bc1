// A mining worker across jobs: nonce drawing, the two scratchpads and the skipped
// refill (src/mining_engine.cpp, worker_loop).
module MiningWorker {
  import opened Words
  import opened AesHash
  import opened Pipeline
  import opened Nonce

  datatype Job = Job(template: seq<Byte>, offset: nat, size: nat)

  datatype Report = Report(nonce: Word, hash: Hash)

  predicate Fits(job: Job) { job.offset + job.size <= |job.template| }

  // The block a nonce stands for.
  function BlockFor(job: Job, nonce: Word): seq<Byte>
    requires Fits(job)
  {
    Stamp(job.template, nonce, job.offset, job.size)
  }

  // The variables of the worker's loop.
  datatype Locals = Locals(
    id: nat, workers: nat,
    on: nat,                  // which of the two scratchpads the VM stands on
    spFill: nat,
    env: Env, job: Job, active: bool,
    pipelined: bool, calls: nat, pipelineSeed: Quad,
    localNonce: Word, currentNonce: Word, block: seq<Byte>,
    drawn: nat,               // bookkeeping: nonces drawn for this job,
    held: nat,                // which of them `block` carries,
    hashed: seq<nat>)         // and which were reported, in order

  function Started(id: nat, workers: nat, e: Env): Locals {
    Locals(id, workers, 0, 0, e, Job([], 0, 0), false, false, 0, Quad([], [], [], []), id % TWO64, 0, [], 0, 0, [])
  }

  // A job change resets the pipeline and the nonces, not the scratchpads.
  function WithJob(w: Locals, e: Env, job: Job): Locals {
    w.(env := e, job := job, active := true, block := job.template, pipelined := false, calls := 0,
       localNonce := w.id % TWO64, currentNonce := 0, drawn := 0, held := 0, hashed := [])
  }

  // The block is the template outside the nonce field.
  ghost predicate Carries(job: Job, block: seq<Byte>) {
    && |block| == |job.template|
    && (Fits(job) ==>
          && block[..job.offset] == job.template[..job.offset]
          && block[job.offset + job.size..] == job.template[job.offset + job.size..])
  }

  // Reported draws come in the order they were drawn.
  ghost predicate Ascending(hashed: seq<nat>, limit: nat) {
    && (forall i :: 0 <= i < |hashed| ==> hashed[i] < limit)
    && (forall i, j :: 0 <= i < j < |hashed| ==> hashed[i] < hashed[j])
  }

  // `pad` is the content of the scratchpad the VM stands on.
  ghost predicate Ready(w: Locals, pad: seq<Block>) {
    && w.on < 2 && w.spFill < 2 && (!w.pipelined ==> w.calls == 0)
    && w.localNonce == Draw(w.id, w.workers, w.drawn) && Ascending(w.hashed, w.drawn) && Carries(w.job, w.block)
    && (w.pipelined ==>
          && Fits(w.job) && w.held < w.drawn && w.currentNonce == Draw(w.id, w.workers, w.held)
          && w.block == BlockFor(w.job, w.currentNonce) && Ascending(w.hashed, w.held)
          && (w.calls > 0 ==> Prepared(w.env, pad, w.pipelineSeed, w.block)))
  }

  lemma StartedReady(id: nat, workers: nat, e: Env, pad: seq<Block>)
    ensures Ready(Started(id, workers, e), pad)
  {
    DrawFirst(id, workers);
  }

  // A job may change at any point, whichever scratchpad the VM stands on.
  lemma JobReady(w: Locals, e: Env, job: Job, pad: seq<Block>)
    requires Ready(w, pad)
    ensures Ready(WithJob(w, e, job), pad)
  {
    DrawFirst(w.id, w.workers);
  }

  // The draw whose nonce the next hash is for.
  function Due(w: Locals): nat { if w.pipelined then w.held else w.drawn }

  // Every iteration that reports a hash reports the one-shot hash of the block
  // carrying the reported nonce, and that nonce is the draw that was due, later
  // than any reported before.
  ghost predicate Honest(w: Locals, w': Locals, report: Option<Report>) {
    && w'.job == w.job && w'.env == w.env && w'.id == w.id && w'.workers == w.workers
    && (report.None? ==> w'.hashed == w.hashed)
    && (report.Some? ==>
          && Ascending(w.hashed, Due(w)) && w'.hashed == w.hashed + [Due(w)] && Fits(w.job)
          && report.value.nonce == Draw(w.id, w.workers, Due(w))
          && report.value.hash == OneShot(w.env, BlockFor(w.job, report.value.nonce)))
  }

  // A turn with a fitting job and a matching generation does report, and leaves
  // the next draw due; without the match it only uses a draw up.
  ghost predicate Prompt(w: Locals, w': Locals, report: Option<Report>, matches: bool) {
    && (report.Some? <==> w.active && Fits(w.job) && matches)
    && (w'.active <==> w.active && Fits(w.job))
    && (report.Some? ==> w'.pipelined && w'.held == w'.drawn - 1 == (if w.pipelined then w.drawn else w.drawn + 1))
    && (w.active && report.None? ==>
          w'.drawn == w.drawn + 1 && w'.pipelined == w.pipelined && (w.pipelined ==> w'.held == w.held))
    && (!w.active ==> w' == w)
  }

  lemma CarriesStamp(job: Job, block: seq<Byte>, nonce: Word)
    requires Carries(job, block) && Fits(job)
    ensures Stamp(block, nonce, job.offset, job.size) == BlockFor(job, nonce)
    ensures Carries(job, BlockFor(job, nonce))
  {
  }

  // Draw a nonce and stamp it into a copy of the block.
  method DrawInto(w: Locals) returns (ok: bool, nonce: Word, block: seq<Byte>, next: Word)
    requires Carries(w.job, w.block) && w.localNonce == Draw(w.id, w.workers, w.drawn)
    ensures nonce == w.localNonce && next == Draw(w.id, w.workers, w.drawn + 1)
    ensures ok == Fits(w.job) && block == (if ok then BlockFor(w.job, nonce) else w.block) && Carries(w.job, block)
  {
    hide Draw, Stamp;
    nonce := w.localNonce;
    next := (w.localNonce + w.workers) % TWO64;
    DrawNext(w.id, w.workers, w.drawn);
    ok, block := UpdateNonce(w.block, nonce, w.job.offset, w.job.size);
    if ok { CarriesStamp(w.job, w.block, nonce); }
  }

  method PrimeHash(w: Locals, sp0: array<Block>, sp1: array<Block>, matches: bool)
    returns (w': Locals, report: Option<Report>)
    requires sp0 != sp1 && sp0.Length == sp1.Length == BLOCKS
    requires Ready(w, if w.on == 0 then sp0[..] else sp1[..]) && w.active && !w.pipelined
    modifies sp0, sp1
    ensures Ready(w', if w'.on == 0 then sp0[..] else sp1[..]) && Honest(w, w', report)
    ensures Prompt(w, w', report, matches)
  {
    hide Draw, Prepared, BlockFor, OneShot;
    var ok, nonce, block, next := DrawInto(w);
    w' := w.(localNonce := next, drawn := w.drawn + 1);
    if !ok { return w'.(active := false), None; }
    w' := w'.(block := block, currentNonce := nonce, held := w.drawn);
    if !matches { return w', None; }
    var hash := CalculateHash(w.env, if w.on == 0 then sp0 else sp1, block);
    report := Some(Report(nonce, hash));
    w' := w'.(hashed := w.hashed + [w.drawn]);
    ok, nonce, block, next := DrawInto(w');
    w' := w'.(localNonce := next, drawn := w.drawn + 2);
    if !ok { return w'.(active := false), report; }
    w' := w'.(block := block, currentNonce := nonce, held := w.drawn + 1, pipelined := true, spFill := 1);
  }

  method PipelinedHash(w: Locals, sp0: array<Block>, sp1: array<Block>, matches: bool, interleave: bool)
    returns (w': Locals, report: Option<Report>)
    requires sp0 != sp1 && sp0.Length == sp1.Length == BLOCKS
    requires Ready(w, if w.on == 0 then sp0[..] else sp1[..]) && w.active && w.pipelined
    modifies sp0, sp1
    ensures Ready(w', if w'.on == 0 then sp0[..] else sp1[..]) && Honest(w, w', report)
    ensures Prompt(w, w', report, matches)
    ensures report.Some? ==> w'.on == w.spFill && w'.spFill == 1 - w.spFill && w'.calls == w.calls + 1
  {
    hide Draw, Prepared, BlockFor, OneShot;
    var ok, nonce, block, next := DrawInto(w);
    w' := w.(localNonce := next, drawn := w.drawn + 1);
    if !ok { return w'.(active := false), None; }
    if !matches { return w', None; }
    var runSeed := if w.calls > 0 then Some(w.pipelineSeed) else None;
    var hash, seed := CalculateHashPipelined(
      w.env, if w.on == 0 then sp0 else sp1, w.block, block, if w.spFill == 0 then sp0 else sp1, runSeed, interleave);
    report := Some(Report(w.currentNonce, hash));
    w' := w'.(on := w.spFill, spFill := 1 - w.spFill, calls := w.calls + 1, pipelineSeed := seed,
              block := block, currentNonce := nonce, held := w.drawn, hashed := w.hashed + [w.held]);
  }

  // One turn of the loop. `matches` is the generation check under the read guard.
  method Turn(w: Locals, sp0: array<Block>, sp1: array<Block>, matches: bool, interleave: bool)
    returns (w': Locals, report: Option<Report>)
    requires sp0 != sp1 && sp0.Length == sp1.Length == BLOCKS
    requires Ready(w, if w.on == 0 then sp0[..] else sp1[..])
    modifies sp0, sp1
    ensures Ready(w', if w'.on == 0 then sp0[..] else sp1[..]) && Honest(w, w', report)
    ensures Prompt(w, w', report, matches)
  {
    hide Ready, OneShot;
    if !w.active {
      w', report := w, None;
    } else if !w.pipelined {
      w', report := PrimeHash(w, sp0, sp1, matches);
    } else {
      w', report := PipelinedHash(w, sp0, sp1, matches, interleave);
    }
  }

  // ---- a whole run ----

  datatype Event = NewJob(env: Env, job: Job) | NextTurn(matches: bool)

  // A reported hash, with the job it was for and which draw its nonce was. Epochs
  // count the jobs so far.
  datatype Entry = Entry(epoch: nat, env: Env, job: Job, draw: nat, report: Report)

  ghost predicate Correct(id: nat, workers: nat, x: Entry) {
    && Fits(x.job) && x.report.nonce == Draw(id, workers, x.draw)
    && x.report.hash == OneShot(x.env, BlockFor(x.job, x.report.nonce))
  }

  ghost predicate InOrder(log: seq<Entry>) {
    forall i, j :: 0 <= i < j < |log| ==>
      log[i].epoch < log[j].epoch || (log[i].epoch == log[j].epoch && log[i].draw < log[j].draw)
  }

  // The jobs that arrived.
  ghost function Jobs(events: seq<Event>): seq<Event> {
    if events == [] then []
    else
      var last := events[|events| - 1];
      Jobs(events[..|events| - 1]) + if last.NewJob? then [last] else []
  }

  // How many turns of an epoch had a fitting job and a matching generation.
  ghost function GoodTurns(events: seq<Event>, epoch: nat): nat {
    if events == [] then 0
    else
      var before, last := events[..|events| - 1], events[|events| - 1];
      var jobs := Jobs(before);
      GoodTurns(before, epoch) +
      if last.NextTurn? && last.matches && 0 < epoch == |jobs| && jobs[epoch - 1].NewJob? && Fits(jobs[epoch - 1].job)
      then 1 else 0
  }

  // Did every turn of the epoch match?
  ghost predicate AllMatched(events: seq<Event>, epoch: nat) {
    events != [] ==>
      var before, last := events[..|events| - 1], events[|events| - 1];
      AllMatched(before, epoch) && (last.NextTurn? && |Jobs(before)| == epoch ==> last.matches)
  }

  // The draws reported in an epoch, in order.
  ghost function DrawsOf(log: seq<Entry>, epoch: nat): seq<nat> {
    if log == [] then []
    else
      var last := log[|log| - 1];
      DrawsOf(log[..|log| - 1], epoch) + if last.epoch == epoch then [last.draw] else []
  }

  // 0, 1, 2, ... without a gap.
  ghost predicate Gapless(draws: seq<nat>) { forall k :: 0 <= k < |draws| ==> draws[k] == k }

  // What the log must say of the events so far.
  ghost predicate Complete(events: seq<Event>, log: seq<Entry>) {
    && (forall i :: 0 <= i < |log| ==>
          var x := log[i]; 0 < x.epoch <= |Jobs(events)| && Jobs(events)[x.epoch - 1] == NewJob(x.env, x.job))
    && (forall e: nat :: |DrawsOf(log, e)| == GoodTurns(events, e))
    && (forall e: nat :: AllMatched(events, e) ==> Gapless(DrawsOf(log, e)))
  }

  // The worker's side of it, for the current epoch.
  ghost predicate UpToDate(w: Locals, events: seq<Event>, log: seq<Entry>) {
    var jobs := Jobs(events);
    && (jobs == [] ==> !w.active)
    && (jobs != [] ==> jobs[|jobs| - 1] == NewJob(w.env, w.job) && (Fits(w.job) ==> w.active))
    && DrawsOf(log, |jobs|) == w.hashed
    && (AllMatched(events, |jobs|) ==> Gapless(w.hashed) && Keeping(w))
  }

  // Nothing skipped so far: the next draw due is the number of hashes reported.
  ghost predicate Keeping(w: Locals) {
    if w.pipelined then w.held == |w.hashed| && w.drawn == w.held + 1
    else w.hashed == [] && (w.active && Fits(w.job) ==> w.drawn == 0)
  }

  lemma DrawsNext(log: seq<Entry>, x: Entry, epoch: nat)
    ensures DrawsOf(log + [x], epoch) == DrawsOf(log, epoch) + if x.epoch == epoch then [x.draw] else []
  {
    assert (log + [x])[..|log|] == log;
  }

  lemma JobsNext(events: seq<Event>, e: Event)
    ensures Jobs(events + [e]) == Jobs(events) + if e.NewJob? then [e] else []
    ensures forall epoch: nat :: AllMatched(events + [e], epoch) <==>
              AllMatched(events, epoch) && (e.NextTurn? && |Jobs(events)| == epoch ==> e.matches)
  {
    assert (events + [e])[..|events|] == events;
  }

  lemma {:induction false} JobsAreJobs(events: seq<Event>)
    ensures forall k :: 0 <= k < |Jobs(events)| ==> Jobs(events)[k].NewJob?
  {
    if events != [] { JobsAreJobs(events[..|events| - 1]); }
  }

  lemma TurnsNext(events: seq<Event>, e: Event, epoch: nat)
    ensures var jobs := Jobs(events);
            GoodTurns(events + [e], epoch) == GoodTurns(events, epoch) +
              if e.NextTurn? && e.matches && 0 < epoch == |jobs| && jobs[epoch - 1].NewJob? && Fits(jobs[epoch - 1].job)
              then 1 else 0
  {
    assert (events + [e])[..|events|] == events;
  }

  // No turn is good in an epoch to come.
  lemma {:induction false} NothingYet(events: seq<Event>, epoch: nat)
    requires epoch > |Jobs(events)|
    ensures GoodTurns(events, epoch) == 0
  {
    if events != [] { NothingYet(events[..|events| - 1], epoch); }
  }

  lemma JobArrives(w: Locals, events: seq<Event>, log: seq<Entry>, env: Env, job: Job)
    requires Complete(events, log) && UpToDate(w, events, log)
    ensures var more := events + [NewJob(env, job)];
            Complete(more, log) && UpToDate(WithJob(w, env, job), more, log)
  {
    hide GoodTurns, Jobs, AllMatched, DrawsOf, Gapless;
    var e := NewJob(env, job);
    JobsNext(events, e);
    var jobs, more := Jobs(events), events + [e];
    forall x: nat ensures GoodTurns(more, x) == GoodTurns(events, x) { TurnsNext(events, e, x); }
    NothingYet(events, |jobs| + 1);
    assert |DrawsOf(log, |jobs| + 1)| == 0;
    assert Gapless([]) by { EmptyGapless(); }
  }

  lemma EmptyGapless()
    ensures Gapless([])
  {
  }

  lemma GaplessNext(draws: seq<nat>)
    requires Gapless(draws)
    ensures Gapless(draws + [|draws|])
  {
  }

  lemma TurnSkipped(w: Locals, w': Locals, matches: bool, events: seq<Event>, log: seq<Entry>)
    requires Complete(events, log) && UpToDate(w, events, log) && (w.pipelined ==> Fits(w.job))
    requires Honest(w, w', None) && Prompt(w, w', None, matches)
    ensures Complete(events + [NextTurn(matches)], log) && UpToDate(w', events + [NextTurn(matches)], log)
  {
    hide GoodTurns, Jobs, AllMatched, DrawsOf, Gapless, OneShot, BlockFor, Draw, Ascending;
    var e := NextTurn(matches);
    JobsNext(events, e);
    JobsAreJobs(events);
    forall x: nat ensures GoodTurns(events + [e], x) == GoodTurns(events, x) { TurnsNext(events, e, x); }
  }

  lemma TurnReported(w: Locals, w': Locals, report: Report, events: seq<Event>, log: seq<Entry>, x: Entry)
    requires Complete(events, log) && UpToDate(w, events, log)
    requires Honest(w, w', Some(report)) && Prompt(w, w', Some(report), true)
    requires x == Entry(|Jobs(events)|, w.env, w.job, Due(w), report)
    ensures Complete(events + [NextTurn(true)], log + [x]) && UpToDate(w', events + [NextTurn(true)], log + [x])
  {
    hide GoodTurns, Jobs, AllMatched, DrawsOf, Gapless, OneShot, BlockFor, Draw, Ascending;
    var e, now := NextTurn(true), |Jobs(events)|;
    JobsNext(events, e);
    JobsAreJobs(events);
    forall k: nat
      ensures GoodTurns(events + [e], k) == GoodTurns(events, k) + if k == now then 1 else 0
      ensures DrawsOf(log + [x], k) == if k == now then DrawsOf(log, k) + [Due(w)] else DrawsOf(log, k)
    {
      TurnsNext(events, e, k);
      DrawsNext(log, x, k);
    }
    if AllMatched(events, now) { GaplessNext(w.hashed); }
  }

  // Whatever jobs arrive and whichever turns are skipped, everything a worker
  // reports is the one-shot hash of its block, no draw is reported twice, every
  // good turn reports, and with no turn skipped every draw is reported.
  method Mine(id: nat, workers: nat, first: Env, events: seq<Event>, interleave: bool) returns (log: seq<Entry>)
    ensures forall i :: 0 <= i < |log| ==> Correct(id, workers, log[i])
    ensures InOrder(log)
    ensures Complete(events, log)
  {
    hide OneShot, Draw, BlockFor, Carries, Prepared, Complete, UpToDate, Jobs;
    var sp0, sp1 := new Block[BLOCKS](_ => []), new Block[BLOCKS](_ => []);
    var w := Started(id, workers, first);
    StartedReady(id, workers, first, sp0[..]);
    log := [];
    NothingMined(w);
    var epoch, n := 0, 0;
    while n < |events|
      invariant n <= |events| && w.id == id && w.workers == workers && epoch == |Jobs(events[..n])|
      invariant Ready(w, if w.on == 0 then sp0[..] else sp1[..])
      invariant forall i :: 0 <= i < |log| ==> Correct(id, workers, log[i])
      invariant forall i :: 0 <= i < |log| ==>
          log[i].epoch <= epoch && (log[i].epoch == epoch ==> log[i].draw in w.hashed)
      invariant InOrder(log)
      invariant Complete(events[..n], log) && UpToDate(w, events[..n], log)
    {
      assert events[..n + 1] == events[..n] + [events[n]];
      JobsNext(events[..n], events[n]);
      match events[n] {
        case NewJob(e, job) =>
          JobReady(w, e, job, if w.on == 0 then sp0[..] else sp1[..]);
          JobArrives(w, events[..n], log, e, job);
          w, epoch := WithJob(w, e, job), epoch + 1;
        case NextTurn(matches) =>
          var w', report := Turn(w, sp0, sp1, matches, interleave);
          if report.Some? {
            var entry := Entry(epoch, w.env, w.job, w'.hashed[|w'.hashed| - 1], report.value);
            TurnReported(w, w', report.value, events[..n], log, entry);
            log := log + [entry];
          } else {
            TurnSkipped(w, w', matches, events[..n], log);
          }
          w := w';
      }
      n := n + 1;
    }
    assert events[..n] == events;
  }

  lemma NothingMined(w: Locals)
    requires !w.active && !w.pipelined && w.hashed == []
    ensures Complete([], []) && UpToDate(w, [], []) && Jobs([]) == []
  {
  }
}
