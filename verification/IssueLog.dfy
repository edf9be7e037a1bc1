// What a superscalar generation has scheduled so far, operation by operation, and
// what such a log must satisfy (src/superscalar.cpp).
module IssueLog {
  import opened Words
  import opened Superscalar
  import opened PortSchedule

  // What an instruction is compared by: its group and the group's parameter.
  datatype Key = Key(group: Option<Op>, par: int)

  // Macro-operation `part` of an instruction, issued in a cycle. It may need a
  // source, fix a destination, deliver a result, and complete the instruction.
  // `chained` says that instructions had just been thrown away.
  datatype Issue = Issue(
    op: Op, part: nat, mop: MacroOp, cycle: nat, key: Key, chained: bool,
    source: Option<Reg>, target: Option<Reg>, result: Option<Reg>, done: Option<Instr>)

  type Log = seq<Issue>

  function Last(log: Log): Issue
    requires log != []
  {
    log[|log| - 1]
  }

  function Before(log: Log): Log
    requires log != []
  {
    log[..|log| - 1]
  }

  // The cycle from which the value of register r can be used.
  function ReadyAt(log: Log, r: Reg): nat {
    if log == [] then 0
    else if Last(log).result == Some(r) then Last(log).cycle + Last(log).mop.latency
    else ReadyAt(Before(log), r)
  }

  // The key of the instruction that last wrote register r.
  function KeyAt(log: Log, r: Reg): Key {
    if log == [] then Key(None, -1)
    else if Last(log).result == Some(r) then Last(log).key
    else KeyAt(Before(log), r)
  }

  // The end of the operation issued last.
  function EndsAt(log: Log): nat { if log == [] then 0 else Last(log).cycle + Last(log).mop.latency }

  // The end of the operation that last delivered a result.
  function Retired(log: Log): nat {
    if log == [] then 0
    else if Last(log).result.Some? then Last(log).cycle + Last(log).mop.latency
    else Retired(Before(log))
  }

  // May x be issued after the log? Its registers are ready, a dependent operation
  // waits for the one before it, and the parts of an instruction follow each other.
  // No register gets the same operation twice running, nor two multiplications
  // unless instructions had been thrown away.
  predicate OnTime(log: Log, x: Issue) {
    && (x.target.Some? ==>
          && KeyAt(log, x.target.value) != x.key
          && (x.chained || x.key.group != Some(IMUL_R) || KeyAt(log, x.target.value).group != Some(IMUL_R)))
    && (x.source.Some? ==> ReadyAt(log, x.source.value) <= x.cycle)
    && (x.target.Some? ==> ReadyAt(log, x.target.value) <= x.cycle)
    && (x.mop.dependent ==> EndsAt(log) <= x.cycle)
    && (x.part > 0 ==> log != [] && Last(log).op == x.op && Last(log).part == x.part - 1)
  }

  predicate Timely(log: Log) { log != [] ==> Timely(Before(log)) && OnTime(Before(log), Last(log)) }

  // The instructions completed.
  function Finished(log: Log): seq<Instr> {
    if log == [] then []
    else Finished(Before(log)) + if Last(log).done.Some? then [Last(log).done.value] else []
  }

  function Bytes(log: Log): nat { if log == [] then 0 else Bytes(Before(log)) + Last(log).mop.size }

  function Uops(mop: MacroOp): nat { (if mop.uop1.None() then 0 else 1) + if mop.uop2.None() then 0 else 1 }

  // The cycle of every port slot the operations take, in order.
  function Cycles(log: Log): seq<nat> {
    if log == [] then [] else Cycles(Before(log)) + seq(Uops(Last(log).mop), _ => Last(log).cycle)
  }

  lemma LogGrows(log: Log, x: Issue)
    ensures Before(log + [x]) == log && Last(log + [x]) == x
    ensures EndsAt(log + [x]) == x.cycle + x.mop.latency
    ensures Timely(log + [x]) <==> Timely(log) && OnTime(log, x)
    ensures Finished(log + [x]) == Finished(log) + if x.done.Some? then [x.done.value] else []
    ensures Bytes(log + [x]) == Bytes(log) + x.mop.size
    ensures Retired(log + [x]) == if x.result.Some? then x.cycle + x.mop.latency else Retired(log)
    ensures Cycles(log + [x]) == Cycles(log) + seq(Uops(x.mop), _ => x.cycle)
  {
    assert (log + [x])[..|log|] == log;
  }

  lemma ReadyNext(log: Log, x: Issue, r: Reg)
    ensures ReadyAt(log + [x], r) == if x.result == Some(r) then x.cycle + x.mop.latency else ReadyAt(log, r)
    ensures KeyAt(log + [x], r) == if x.result == Some(r) then x.key else KeyAt(log, r)
  {
    assert (log + [x])[..|log|] == log;
  }

  // ---- what a timely log means ----

  lemma {:induction false} TimelyAt(log: Log, k: nat)
    requires Timely(log) && k < |log|
    ensures OnTime(log[..k], log[k])
  {
    if k < |log| - 1 {
      assert Before(log)[..k] == log[..k];
      TimelyAt(Before(log), k);
    }
  }

  lemma {:induction false} ReadyFrom(log: Log, j: nat, r: Reg)
    requires j < |log| && log[j].result == Some(r)
    requires forall i :: j < i < |log| ==> log[i].result != Some(r)
    ensures ReadyAt(log, r) == log[j].cycle + log[j].mop.latency
  {
    if j < |log| - 1 { ReadyFrom(Before(log), j, r); }
  }

  // No value is used before the operation that delivers it has ended.
  lemma NoValueEarly(log: Log, j: nat, k: nat, r: Reg)
    requires Timely(log) && j < k < |log| && log[j].result == Some(r)
    requires forall i :: j < i < k ==> log[i].result != Some(r)
    requires log[k].source == Some(r) || log[k].target == Some(r)
    ensures log[j].cycle + log[j].mop.latency <= log[k].cycle
  {
    TimelyAt(log, k);
    ReadyFrom(log[..k], j, r);
  }
}
