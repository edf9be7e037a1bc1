// Superscalar programs: the interpreter and the emission-order scheduler
// (src/superscalar.cpp, src/jit_compiler_a64.cpp).
module Superscalar {
  import opened Words

  type Reg = n: nat | n < 8

  datatype Op =
    | ISUB_R | IXOR_R | IADD_RS | IMUL_R | IROR_C | IADD_C7 | IXOR_C7 | IADD_C8 | IXOR_C8 | IADD_C9 | IXOR_C9
    | IMULH_R | ISMULH_R | IMUL_RCP

  datatype Instr = Instr(op: Op, dst: Reg, src: Reg, mod: Byte, imm: U32) {
    function ModShift(): nat { mod / 4 % 4 }

    predicate AddsConstant() { op == IADD_C7 || op == IADD_C8 || op == IADD_C9 }

    predicate XorsConstant() { op == IXOR_C7 || op == IXOR_C8 || op == IXOR_C9 }

    predicate Rcp() { op == IMUL_RCP }
  }

  // The shift lies between two other fields of the mode byte.
  lemma ShiftField(i: Instr)
    ensures i.ModShift() < 4 && i.mod == i.mod % 4 + 4 * i.ModShift() + 16 * (i.mod / 16)
  {
  }

  type RegFile = r: seq<Word> | |r| == 8 witness [0, 0, 0, 0, 0, 0, 0, 0]

  const MAX_SIZE: nat := 512

  // Every reciprocal multiplication names an entry of the reciprocal cache.
  predicate Valid(p: seq<Instr>, rcp: seq<Word>) {
    |p| <= MAX_SIZE && forall i :: 0 <= i < |p| && p[i].Rcp() ==> p[i].imm < |rcp|
  }

  // The new value of the destination.
  function Value(i: Instr, a: Word, b: Word, rcp: seq<Word>): Word
    requires i.Rcp() ==> i.imm < |rcp|
  {
    match i.op
    case ISUB_R => Sub(a, b)
    case IXOR_R => Xor(a, b)
    case IADD_RS => Add(a, Shl(b, i.ModShift()))
    case IMUL_R => Mul(a, b)
    case IROR_C => Ror(a, i.imm)
    case IADD_C7 | IADD_C8 | IADD_C9 => Add(a, SignExtend(i.imm))
    case IXOR_C7 | IXOR_C8 | IXOR_C9 => Xor(a, SignExtend(i.imm))
    case IMULH_R => MulHigh(a, b)
    case ISMULH_R => SignedMulHigh(a, b)
    case IMUL_RCP => Mul(a, rcp[i.imm])
  }

  function Exec(i: Instr, r: RegFile, rcp: seq<Word>): RegFile
    requires i.Rcp() ==> i.imm < |rcp|
  {
    r[i.dst := Value(i, r[i.dst], r[i.src], rcp)]
  }

  // Instructions p[k..] in program order.
  function Run(p: seq<Instr>, k: nat, r: RegFile, rcp: seq<Word>): RegFile
    requires Valid(p, rcp)
    decreases |p| - k
  {
    if k >= |p| then r else Run(p, k + 1, Exec(p[k], r, rcp), rcp)
  }

  method ExecuteSuperscalar(r: array<Word>, p: seq<Instr>, rcp: seq<Word>)
    requires r.Length == 8 && Valid(p, rcp)
    modifies r
    ensures r[..] == Run(p, 0, old(r[..]), rcp)
  {
    var j := 0;
    while j < |p|
      invariant j <= |p|
      invariant Run(p, j, r[..], rcp) == Run(p, 0, old(r[..]), rcp)
    {
      var i := p[j];
      ghost var before := r[..];
      r[i.dst] := Value(i, r[i.dst], r[i.src], rcp);
      assert r[..] == Exec(i, before, rcp);
      j := j + 1;
    }
  }

  // ---- scheduling ----

  function Reads(i: Instr): set<Reg> {
    match i.op
    case ISUB_R | IXOR_R | IADD_RS | IMUL_R | IMULH_R | ISMULH_R => {i.dst, i.src}
    case _ => {i.dst}
  }

  predicate LongLatency(i: Instr) { i.op == IMUL_R || i.op == IMULH_R || i.op == ISMULH_R || i.op == IMUL_RCP }

  // Every instruction writes its destination and nothing else.
  predicate Hazard(a: Instr, b: Instr) { a.dst in Reads(b) || b.dst in Reads(a) || a.dst == b.dst }

  lemma NoHazardCommutes(a: Instr, b: Instr, r: RegFile, rcp: seq<Word>)
    requires !Hazard(a, b) && (a.Rcp() ==> a.imm < |rcp|) && (b.Rcp() ==> b.imm < |rcp|)
    ensures Exec(a, Exec(b, r, rcp), rcp) == Exec(b, Exec(a, r, rcp), rcp)
  {
    hide Value;
    ValueReads(a, r, Exec(b, r, rcp), rcp);
    ValueReads(b, r, Exec(a, r, rcp), rcp);
  }

  // The value depends on the registers read only.
  lemma ValueReads(i: Instr, r: RegFile, s: RegFile, rcp: seq<Word>)
    requires (i.Rcp() ==> i.imm < |rcp|) && forall k: Reg :: k in Reads(i) ==> r[k] == s[k]
    ensures Value(i, r[i.dst], r[i.src], rcp) == Value(i, s[i.dst], s[i.src], rcp)
  {
    hide Sub, Xor, Add, Shl, Mul, Ror, MulHigh, SignedMulHigh, SignExtend;
  }

  // Fill the delay after p[i] with the instruction after next.
  predicate Swaps(p: seq<Instr>, i: nat) {
    && i + 2 < |p| && LongLatency(p[i]) && !p[i + 1].Rcp() && !p[i + 2].Rcp()
    && Hazard(p[i], p[i + 1]) && !Hazard(p[i], p[i + 2]) && !Hazard(p[i + 1], p[i + 2])
  }

  function Block(p: seq<Instr>, i: nat): (block: seq<nat>)
    ensures |block| == if Swaps(p, i) then 3 else 1
  {
    if Swaps(p, i) then [i, i + 2, i + 1] else [i]
  }

  function Plan(p: seq<Instr>, i: nat): seq<nat>
    decreases |p| - i
  {
    if i >= |p| then [] else Block(p, i) + Plan(p, i + |Block(p, i)|)
  }

  lemma PlanNext(p: seq<Instr>, i: nat, order: seq<nat>)
    ensures var block := Block(p, i);
            order + Plan(p, i) == if i < |p| then (order + block) + Plan(p, i + |block|) else order
  {
    hide Swaps;
  }

  method ScheduleSuperscalar(p: seq<Instr>) returns (order: seq<nat>)
    ensures order == Plan(p, 0)
  {
    hide Plan, LongLatency, Hazard;
    order := [];
    var i := 0;
    while i < |p|
      invariant order + Plan(p, i) == Plan(p, 0)
      decreases |p| - i
    {
      var block := [i];
      if LongLatency(p[i]) && i + 2 < |p| && !p[i + 1].Rcp() && !p[i + 2].Rcp()
         && Hazard(p[i], p[i + 1]) && !Hazard(p[i], p[i + 2]) && !Hazard(p[i + 1], p[i + 2]) {
        block := [i, i + 2, i + 1];
      }
      assert block == Block(p, i);
      PlanNext(p, i, order);
      order := order + block;
      i := i + |block|;
    }
    PlanNext(p, i, order);
  }

  // ---- reciprocal literals ----

  // How many reciprocal multiplications precede index k.
  function RcpBefore(p: seq<Instr>, k: nat): nat
    requires k <= |p|
  {
    if k == 0 then 0 else RcpBefore(p, k - 1) + if p[k - 1].Rcp() then 1 else 0
  }

  // Running a swapped block in emission order makes no difference.
  lemma RunSwapped(p: seq<Instr>, i: nat, r: RegFile, rcp: seq<Word>)
    requires Valid(p, rcp) && Swaps(p, i)
    ensures Run(p, i, r, rcp) == Run(p, i + 3, Exec(p[i + 1], Exec(p[i + 2], Exec(p[i], r, rcp), rcp), rcp), rcp)
  {
    hide Exec, Hazard;
    var r1 := Exec(p[i], r, rcp);
    NoHazardCommutes(p[i + 1], p[i + 2], r1, rcp);
    assert Run(p, i, r, rcp) == Run(p, i + 1, r1, rcp) == Run(p, i + 2, Exec(p[i + 1], r1, rcp), rcp);
  }
}
