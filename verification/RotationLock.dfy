// The writer-preferring lock behind ReadGuard: a mutex, two condition variables
// and three counters (include/armrx/partial_dataset.hpp). One step is one
// critical section; a notification sent after the mutex is released is a step of
// its own.
module RotationLock {
  import opened Sums

  datatype Role =
    | Out
    | ParkedReader | WokenReader | Reading
    | ParkedWriter | WokenWriter | Writing
    | WakingWriters | WakingReaders   // unlock, before each of its notifications

  datatype Lock = Lock(readers: int, waiting: int, writing: bool, roles: seq<Role>)

  datatype Step =
    | LockShared(t: nat)      // first attempt, or a recheck after a wakeup
    | UnlockShared(t: nat)
    | Enqueue(t: nat)         // lock(): count as waiting, then first attempt
    | RetryLock(t: nat)
    | Unlock(t: nat)
    | Notify(t: nat)
    | Spurious(t: nat)

  predicate ReadersMayEnter(k: Lock) { !k.writing && k.waiting == 0 }

  predicate WriterMayEnter(k: Lock) { !k.writing && k.readers == 0 }

  function WakeAll(roles: seq<Role>, parked: Role, woken: Role): (r: seq<Role>)
    ensures |r| == |roles|
    ensures forall t :: 0 <= t < |roles| ==> r[t] == if roles[t] == parked then woken else roles[t]
  {
    seq(|roles|, t requires 0 <= t < |roles| => if roles[t] == parked then woken else roles[t])
  }

  function Become(k: Lock, t: nat, role: Role): Lock
    requires t < |k.roles|
  {
    k.(roles := k.roles[t := role])
  }

  function AttemptWrite(k: Lock, t: nat): Lock
    requires t < |k.roles|
  {
    if WriterMayEnter(k) then Become(k.(waiting := k.waiting - 1, writing := true), t, Writing)
    else Become(k, t, ParkedWriter)
  }

  predicate Allowed(k: Lock, s: Step) {
    && s.t < |k.roles|
    && match s
       case LockShared(t) => k.roles[t].Out? || k.roles[t].WokenReader?
       case UnlockShared(t) => k.roles[t].Reading?
       case Enqueue(t) => k.roles[t].Out?
       case RetryLock(t) => k.roles[t].WokenWriter?
       case Unlock(t) => k.roles[t].Writing?
       case Notify(t) => k.roles[t].WakingWriters? || k.roles[t].WakingReaders?
       case Spurious(t) => k.roles[t].ParkedReader? || k.roles[t].ParkedWriter?
  }

  function After(k: Lock, s: Step): Lock
    requires Allowed(k, s)
  {
    match s
    case LockShared(t) =>
      if ReadersMayEnter(k) then Become(k.(readers := k.readers + 1), t, Reading) else Become(k, t, ParkedReader)
    case UnlockShared(t) =>
      var k' := Become(k.(readers := k.readers - 1), t, Out);
      if k'.readers == 0 then k'.(roles := WakeAll(k'.roles, ParkedWriter, WokenWriter)) else k'
    case Enqueue(t) => AttemptWrite(k.(waiting := k.waiting + 1), t)
    case RetryLock(t) => AttemptWrite(k, t)
    case Unlock(t) => Become(k.(writing := false), t, WakingWriters)
    case Notify(t) =>
      if k.roles[t].WakingWriters?
      then Become(k.(roles := WakeAll(k.roles, ParkedWriter, WokenWriter)), t, WakingReaders)
      else Become(k.(roles := WakeAll(k.roles, ParkedReader, WokenReader)), t, Out)
    case Spurious(t) => Become(k, t, if k.roles[t].ParkedReader? then WokenReader else WokenWriter)
  }

  // ---- counting ----

  datatype Kind = Readers | Writers | Queue

  predicate In(kind: Kind, role: Role) {
    match kind
    case Readers => role.Reading?
    case Writers => role.Writing?
    case Queue => role.ParkedWriter? || role.WokenWriter?
  }

  ghost function One(kind: Kind): (nat, Role) -> nat {
    (t: nat, role: Role) => if In(kind, role) then 1 else 0
  }

  ghost function Count(roles: seq<Role>, kind: Kind): nat { Sum(roles, One(kind)) }

  // ---- the invariant ----

  ghost predicate Has(k: Lock, role: Role) { exists t :: 0 <= t < |k.roles| && k.roles[t] == role }

  ghost predicate Counted(k: Lock) {
    && k.readers == Count(k.roles, Readers)
    && k.waiting == Count(k.roles, Queue)
    && Count(k.roles, Writers) == (if k.writing then 1 else 0)
    && (k.writing ==> k.readers == 0)
  }

  // Whoever sleeps although it may enter has a notification on its way.
  ghost predicate NoLostWakeup(k: Lock) {
    && (Has(k, ParkedWriter) && WriterMayEnter(k) ==> Has(k, WakingWriters))
    && (Has(k, ParkedReader) && ReadersMayEnter(k) ==> Has(k, WakingWriters) || Has(k, WakingReaders))
  }

  lemma WakeCounts(roles: seq<Role>, kind: Kind)
    ensures Count(WakeAll(roles, ParkedWriter, WokenWriter), kind) == Count(roles, kind)
    ensures Count(WakeAll(roles, ParkedReader, WokenReader), kind) == Count(roles, kind)
  {
    SumSame(WakeAll(roles, ParkedWriter, WokenWriter), roles, One(kind));
    SumSame(WakeAll(roles, ParkedReader, WokenReader), roles, One(kind));
  }

  lemma StepCounts(k: Lock, s: Step, kind: Kind)
    requires Allowed(k, s)
    ensures |After(k, s).roles| == |k.roles|
    ensures Count(After(k, s).roles, kind) ==
            Count(k.roles, kind) - (if In(kind, k.roles[s.t]) then 1 else 0)
            + (if In(kind, After(k, s).roles[s.t]) then 1 else 0)
  {
    hide Sum;
    var k' := After(k, s);
    SumUpdate(k.roles, s.t, k'.roles[s.t], One(kind));
    WakeCounts(k.roles, kind);
    WakeCounts(k.roles[s.t := Out], kind);
    if s.Notify? {
      var w := if k.roles[s.t].WakingWriters? then WakeAll(k.roles, ParkedWriter, WokenWriter)
               else WakeAll(k.roles, ParkedReader, WokenReader);
      SumUpdate(w, s.t, k'.roles[s.t], One(kind));
    }
  }

  lemma StepCounted(k: Lock, s: Step)
    requires Counted(k) && Allowed(k, s)
    ensures Counted(After(k, s))
  {
    hide Sum;
    StepCounts(k, s, Readers);
    StepCounts(k, s, Writers);
    StepCounts(k, s, Queue);
  }

  lemma RolesAfter(k: Lock, s: Step, t: nat)
    requires Allowed(k, s) && t < |k.roles| && t != s.t
    ensures |After(k, s).roles| == |k.roles|
    ensures var r, r' := k.roles[t], After(k, s).roles[t];
            r' == r || (r.ParkedWriter? && r'.WokenWriter?) || (r.ParkedReader? && r'.WokenReader?)
  {
  }

  // A thread asleep after a step was asleep before, unless it is the one that
  // just went to sleep; a pending notification stays until it is sent.
  lemma SleepersWere(k: Lock, s: Step, role: Role)
    requires Allowed(k, s) && role in {ParkedReader, ParkedWriter}
    ensures |After(k, s).roles| == |k.roles|
    ensures Has(After(k, s), role) && After(k, s).roles[s.t] != role ==> Has(k, role)
  {
    hide After;
    StepCounts(k, s, Readers);
    var k' := After(k, s);
    if Has(k', role) && k'.roles[s.t] != role {
      var t :| 0 <= t < |k'.roles| && k'.roles[t] == role;
      RolesAfter(k, s, t);
    }
  }

  lemma NotifierStays(k: Lock, s: Step, role: Role)
    requires Allowed(k, s) && role in {WakingReaders, WakingWriters}
    ensures Has(k, role) && k.roles[s.t] != role ==> Has(After(k, s), role)
  {
    hide After;
    if Has(k, role) && k.roles[s.t] != role {
      var t :| 0 <= t < |k.roles| && k.roles[t] == role;
      RolesAfter(k, s, t);
      assert After(k, s).roles[t] == role;
    }
  }

  lemma WritersWoken(k: Lock, s: Step)
    requires NoLostWakeup(k) && Allowed(k, s) && k.readers >= 0 && k.waiting >= 0
    ensures Has(After(k, s), ParkedWriter) && WriterMayEnter(After(k, s)) ==> Has(After(k, s), WakingWriters)
  {
    var k' := After(k, s);
    SleepersWere(k, s, ParkedWriter);
    NotifierStays(k, s, WakingWriters);
    assert s.Unlock? ==> k'.roles[s.t] == WakingWriters;
    match s
    case UnlockShared(t) =>
    case Notify(t) =>
    case _ =>
  }

  lemma ReadersWoken(k: Lock, s: Step)
    requires NoLostWakeup(k) && Allowed(k, s) && k.readers >= 0 && k.waiting >= 0
    ensures Has(After(k, s), ParkedReader) && ReadersMayEnter(After(k, s)) ==>
              Has(After(k, s), WakingWriters) || Has(After(k, s), WakingReaders)
  {
    var k' := After(k, s);
    SleepersWere(k, s, ParkedReader);
    NotifierStays(k, s, WakingWriters);
    NotifierStays(k, s, WakingReaders);
    assert s.Unlock? ==> k'.roles[s.t] == WakingWriters;
    assert s.Notify? && k.roles[s.t].WakingWriters? ==> k'.roles[s.t] == WakingReaders;
  }

  lemma StepWakes(k: Lock, s: Step)
    requires NoLostWakeup(k) && Allowed(k, s) && k.readers >= 0 && k.waiting >= 0
    ensures NoLostWakeup(After(k, s))
  {
    hide After;
    WritersWoken(k, s);
    ReadersWoken(k, s);
  }

  ghost predicate IsRun(ks: seq<Lock>, steps: seq<Step>) {
    && |ks| == |steps| + 1
    && ks[0] == Lock(0, 0, false, seq(|ks[0].roles|, _ => Out))
    && forall i :: 0 <= i < |steps| ==> Allowed(ks[i], steps[i]) && ks[i + 1] == After(ks[i], steps[i])
  }

  lemma {:induction false} AlwaysSound(ks: seq<Lock>, steps: seq<Step>, i: nat)
    requires IsRun(ks, steps) && i < |ks|
    ensures Counted(ks[i]) && NoLostWakeup(ks[i]) && |ks[i].roles| == |ks[0].roles|
  {
    hide After, Sum;
    if i == 0 {
      SumZero(ks[0].roles, One(Readers));
      SumZero(ks[0].roles, One(Writers));
      SumZero(ks[0].roles, One(Queue));
    } else {
      AlwaysSound(ks, steps, i - 1);
      StepCounted(ks[i - 1], steps[i - 1]);
      StepWakes(ks[i - 1], steps[i - 1]);
      StepCounts(ks[i - 1], steps[i - 1], Readers);
    }
  }

  // Whoever writes is alone.
  lemma WriterIsAlone(ks: seq<Lock>, steps: seq<Step>, i: nat, t: nat, u: nat)
    requires IsRun(ks, steps) && i < |ks| && t < |ks[i].roles| && u < |ks[i].roles| && t != u
    requires ks[i].roles[t].Writing?
    ensures !ks[i].roles[u].Reading? && !ks[i].roles[u].Writing?
  {
    hide Sum, IsRun;
    AlwaysSound(ks, steps, i);
    var roles := ks[i].roles;
    SumUpdate(roles, t, Out, One(Writers));
    SumZero(roles, One(Readers));
    SumZero(roles[t := Out], One(Writers));
    assert roles[t := Out][u] == roles[u];
    assert One(Readers)(u, roles[u]) == 0 && One(Writers)(u, roles[t := Out][u]) == 0;
  }

  predicate CanRun(role: Role) { !role.Out? && !role.ParkedReader? && !role.ParkedWriter? }

  // As long as anyone sleeps, someone else holds the lock, has been woken, or is
  // about to send a notification: the lock never stalls.
  lemma SleepersNeverStall(ks: seq<Lock>, steps: seq<Step>, i: nat)
    requires IsRun(ks, steps) && i < |ks| && (Has(ks[i], ParkedReader) || Has(ks[i], ParkedWriter))
    ensures exists t :: 0 <= t < |ks[i].roles| && CanRun(ks[i].roles[t])
  {
    hide Sum, IsRun;
    AlwaysSound(ks, steps, i);
    var k := ks[i];
    SumZero(k.roles, One(Readers));
    SumZero(k.roles, One(Writers));
    SumZero(k.roles, One(Queue));
  }

  // From the moment a writer is queued until the queue is empty, no thread joins
  // the readers: a writer waits only for those already inside.
  lemma {:induction false} QueuedWriterIsNotOvertaken(ks: seq<Lock>, steps: seq<Step>, i: nat, j: nat, t: nat)
    requires IsRun(ks, steps) && i <= j < |ks| && t < |ks[0].roles|
    requires forall n :: i <= n < j ==> ks[n].waiting > 0
    ensures |ks[i].roles| == |ks[j].roles| == |ks[0].roles|
    ensures ks[j].roles[t].Reading? ==> ks[i].roles[t].Reading?
    decreases j
  {
    AlwaysSound(ks, steps, i);
    AlwaysSound(ks, steps, j);
    if i < j { QueuedWriterIsNotOvertaken(ks, steps, i, j - 1, t); }
  }
}
