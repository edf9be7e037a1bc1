// Execution ports of the modelled CPU while a superscalar program is generated:
// which cycle and ports a macro-operation gets (src/superscalar.cpp).
module PortSchedule {
  import opened Words

  const CYCLES: nat := 174

  // The ports of one cycle that are already taken.
  datatype Slots = Slots(p0: bool, p1: bool, p5: bool)

  datatype Port = P0 | P1 | P5

  // The ports a micro-operation may use; no port means no micro-operation.
  datatype Uop = Uop(p0: bool, p1: bool, p5: bool) {
    predicate None() { !p0 && !p1 && !p5 }
  }

  const NOTHING := Uop(false, false, false)

  datatype MacroOp = MacroOp(size: nat, latency: nat, uop1: Uop, uop2: Uop, dependent: bool)

  type Table = seq<Slots>

  predicate Taken(s: Slots, p: Port) {
    match p
    case P0 => s.p0
    case P1 => s.p1
    case P5 => s.p5
  }

  predicate Allows(u: Uop, p: Port) {
    match p
    case P0 => u.p0
    case P1 => u.p1
    case P5 => u.p5
  }

  // Port 5 is tried first, then 0, then 1.
  function Pick(s: Slots, u: Uop): Option<Port> {
    if u.p5 && !s.p5 then Some(P5) else if u.p0 && !s.p0 then Some(P0) else if u.p1 && !s.p1 then Some(P1) else None
  }

  function Take(s: Slots, p: Port): Slots {
    match p
    case P0 => s.(p0 := true)
    case P1 => s.(p1 := true)
    case P5 => s.(p5 := true)
  }

  // The first cycle from c on with a free port for u, or -1.
  function FirstFit(t: Table, u: Uop, c: nat): int
    decreases |t| - c
  {
    if c >= |t| then -1 else if Pick(t[c], u).Some? then c else FirstFit(t, u, c + 1)
  }

  lemma {:induction false} FirstFitIsFirst(t: Table, u: Uop, c: nat)
    ensures var r := FirstFit(t, u, c);
            && (r == -1 || (c <= r < |t| && Pick(t[r], u).Some?))
            && (forall k :: c <= k < |t| && (r == -1 || k < r) ==> Pick(t[k], u).None?)
    decreases |t| - c
  {
    if c < |t| && Pick(t[c], u).None? { FirstFitIsFirst(t, u, c + 1); }
  }

  function Claim(t: Table, u: Uop, c: nat): (t': Table)
    requires c < |t| && Pick(t[c], u).Some?
    ensures |t'| == |t|
  {
    t[c := Take(t[c], Pick(t[c], u).value)]
  }

  method ScheduleUop(u: Uop, busy: array<Slots>, from: nat, commit: bool) returns (cycle: int)
    modifies busy
    ensures cycle == FirstFit(old(busy[..]), u, from)
    ensures cycle >= 0 ==> cycle < busy.Length && Pick(old(busy[cycle]), u).Some?
    ensures busy[..] == if commit && cycle >= 0 then Claim(old(busy[..]), u, cycle) else old(busy[..])
  {
    cycle := from;
    while cycle < busy.Length
      invariant 0 <= cycle && busy[..] == old(busy[..])
      invariant FirstFit(busy[..], u, cycle) == FirstFit(busy[..], u, from)
      decreases busy.Length - cycle
    {
      var p := Pick(busy[cycle], u);
      if p.Some? {
        if commit { busy[cycle] := Take(busy[cycle], p.value); }
        return;
      }
      cycle := cycle + 1;
    }
    cycle := -1;
  }

  // The first cycle where both micro-operations start together.
  function BothFit(t: Table, u: Uop, v: Uop, c: nat): int
    decreases |t| - c
  {
    if c >= |t| then -1
    else if FirstFit(t, u, c) >= 0 && FirstFit(t, u, c) == FirstFit(t, v, c) then FirstFit(t, u, c)
    else BothFit(t, u, v, c + 1)
  }

  // It is the earliest cycle at which both find a port.
  lemma {:induction false} BothFitIsEarliest(t: Table, u: Uop, v: Uop, c: nat)
    ensures var r := BothFit(t, u, v, c);
            && (r == -1 || (c <= r < |t| && Pick(t[r], u).Some? && Pick(t[r], v).Some?))
            && (forall k :: c <= k < |t| && (r == -1 || k < r) ==> Pick(t[k], u).None? || Pick(t[k], v).None?)
    decreases |t| - c
  {
    if c < |t| {
      FirstFitIsFirst(t, u, c);
      FirstFitIsFirst(t, v, c);
      if !(FirstFit(t, u, c) >= 0 && FirstFit(t, u, c) == FirstFit(t, v, c)) { BothFitIsEarliest(t, u, v, c + 1); }
    }
  }

  predicate Apart(u: Uop, v: Uop) { !(u.p0 && v.p0) && !(u.p1 && v.p1) && !(u.p5 && v.p5) }

  function Start(mop: MacroOp, cycle: nat, dep: nat): (start: nat)
    ensures start >= cycle && (mop.dependent ==> start >= dep)
  {
    if mop.dependent && dep > cycle then dep else cycle
  }

  function MopFit(t: Table, mop: MacroOp, c: nat): int {
    if mop.uop1.None() then c
    else if mop.uop2.None() then FirstFit(t, mop.uop1, c)
    else BothFit(t, mop.uop1, mop.uop2, c)
  }

  // The ports a macro-operation takes at a cycle where it fits.
  function Ports(t: Table, mop: MacroOp, c: nat): seq<Port> {
    if mop.uop1.None() || c >= |t| || Pick(t[c], mop.uop1).None? then []
    else if mop.uop2.None() || Pick(t[c], mop.uop2).None? then [Pick(t[c], mop.uop1).value]
    else [Pick(t[c], mop.uop1).value, Pick(t[c], mop.uop2).value]
  }

  // Where a macro-operation fits, it fits no earlier than asked and finds a port
  // for each of its micro-operations.
  lemma MopFitAfter(t: Table, mop: MacroOp, c: nat)
    ensures var r := MopFit(t, mop, c);
            && (r == -1 || c <= r)
            && (r >= 0 && (mop.uop1.None() ==> mop.uop2.None()) ==>
                  |Ports(t, mop, r)| == (if mop.uop1.None() then 0 else 1) + if mop.uop2.None() then 0 else 1)
  {
    FirstFitIsFirst(t, mop.uop1, c);
    BothFitIsEarliest(t, mop.uop1, mop.uop2, c);
  }

  // Port 1 is taken only if no other allowed port is free, port 0 only if port 5
  // is not; none only if all are taken.
  lemma PickPrefers(s: Slots, u: Uop)
    ensures var p := Pick(s, u);
            && (p.None? <==> forall q: Port :: !Allows(u, q) || Taken(s, q))
            && (p.Some? ==> Allows(u, p.value) && !Taken(s, p.value))
            && (p == Some(P0) ==> !Allows(u, P5) || Taken(s, P5))
            && (p == Some(P1) ==> (!Allows(u, P5) || Taken(s, P5)) && (!Allows(u, P0) || Taken(s, P0)))
  {
    assert Allows(u, P0) == u.p0 && Allows(u, P1) == u.p1 && Allows(u, P5) == u.p5;
  }

  function ClaimAll(t: Table, c: nat, ports: seq<Port>): (t': Table)
    ensures |t'| == |t|
    decreases |ports|
  {
    if ports == [] || c >= |t| then t else ClaimAll(t[c := Take(t[c], ports[0])], c, ports[1..])
  }

  // Only free ports are taken, each once, and only ones the operation may use.
  lemma PortsFree(t: Table, mop: MacroOp, c: nat)
    requires c < |t| && Apart(mop.uop1, mop.uop2)
    ensures var ps := Ports(t, mop, c);
            && (forall k :: 0 <= k < |ps| ==>
                  !Taken(t[c], ps[k]) && (Allows(mop.uop1, ps[k]) || Allows(mop.uop2, ps[k])))
            && (|ps| == 2 ==> ps[0] != ps[1]) && |ps| <= 2
  {
  }

  lemma {:induction false} ClaimAllTakes(t: Table, c: nat, ports: seq<Port>, k: nat, p: Port)
    requires c < |t| && k < |t|
    ensures Taken(ClaimAll(t, c, ports)[k], p) <==> Taken(t[k], p) || (k == c && p in ports)
    decreases |ports|
  {
    if ports != [] {
      assert ports == [ports[0]] + ports[1..];
      ClaimAllTakes(t[c := Take(t[c], ports[0])], c, ports[1..], k, p);
    }
  }

  lemma ClaimTwo(t: Table, u: Uop, v: Uop, c: nat)
    requires c < |t| && Pick(t[c], u).Some? && Pick(t[c], v).Some? && Apart(u, v)
    ensures FirstFit(Claim(t, u, c), v, c) == c && Pick(Claim(t, u, c)[c], v) == Pick(t[c], v)
    ensures ClaimAll(t, c, [Pick(t[c], u).value, Pick(t[c], v).value]) == Claim(Claim(t, u, c), v, c)
  {
    var ps := [Pick(t[c], u).value, Pick(t[c], v).value];
    assert ps[1..] == [ps[1]] && [ps[1]][1..] == [];
    var t1 := Claim(t, u, c);
    assert ClaimAll(t, c, ps) == ClaimAll(t1, c, [ps[1]]);
    assert ClaimAll(t1, c, [ps[1]]) == ClaimAll(t1[c := Take(t1[c], ps[1])], c, []);
  }

  lemma ClaimOne(t: Table, u: Uop, c: nat)
    requires c < |t| && Pick(t[c], u).Some?
    ensures ClaimAll(t, c, [Pick(t[c], u).value]) == Claim(t, u, c)
  {
    assert [Pick(t[c], u).value][1..] == [];
  }

  method ScheduleMop(mop: MacroOp, busy: array<Slots>, cycle: nat, dep: nat, commit: bool) returns (r: int)
    requires Apart(mop.uop1, mop.uop2)
    modifies busy
    ensures r == MopFit(old(busy[..]), mop, Start(mop, cycle, dep)) && r >= -1
    ensures busy[..] ==
            if commit && r >= 0 then ClaimAll(old(busy[..]), r, Ports(old(busy[..]), mop, r)) else old(busy[..])
  {
    hide Pick;
    var c := Start(mop, cycle, dep);
    if mop.uop1.None() { return c; }
    ghost var t := busy[..];
    if mop.uop2.None() {
      FirstFitIsFirst(t, mop.uop1, c);
      r := ScheduleUop(mop.uop1, busy, c, commit);
      if r >= 0 { ClaimOne(t, mop.uop1, r); }
      return;
    }
    BothFitIsEarliest(t, mop.uop1, mop.uop2, c);
    ghost var first := c;
    while c < busy.Length
      invariant busy[..] == t && BothFit(t, mop.uop1, mop.uop2, c) == BothFit(t, mop.uop1, mop.uop2, first)
      decreases busy.Length - c
    {
      var c1 := ScheduleUop(mop.uop1, busy, c, false);
      var c2 := ScheduleUop(mop.uop2, busy, c, false);
      if c1 >= 0 && c1 == c2 {
        if commit {
          ClaimTwo(t, mop.uop1, mop.uop2, c1);
          assert FirstFit(t, mop.uop1, c1) == c1;
          var d1 := ScheduleUop(mop.uop1, busy, c1, true);
          var d2 := ScheduleUop(mop.uop2, busy, c2, true);
        }
        return c1;
      }
      c := c + 1;
    }
    r := -1;
  }
}
