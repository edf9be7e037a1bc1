// Replacing divisors by indices into a table of reciprocals computed once
// (src/argon2.cpp, src/superscalar.cpp).
module ReciprocalCache {
  import opened Words
  import opened Reciprocal
  import opened Superscalar
  import opened A64
  import opened SuperscalarEmit
  import opened SuperscalarCode
  import opened SuperscalarGenerator

  predicate Divides(p: seq<Instr>) { |p| <= MAX_SIZE && forall i :: 0 <= i < |p| && p[i].Rcp() ==> p[i].imm != 0 }

  // The interpreter without a table: the reciprocal is computed on the spot.
  function ExecDirect(i: Instr, r: RegFile): RegFile
    requires i.Rcp() ==> i.imm != 0
  {
    if i.Rcp() then r[i.dst := Mul(r[i.dst], RandomxReciprocal(i.imm))] else Exec(i, r, [])
  }

  function RunDirect(p: seq<Instr>, k: nat, r: RegFile): RegFile
    requires Divides(p)
    decreases |p| - k
  {
    if k >= |p| then r else RunDirect(p, k + 1, ExecDirect(p[k], r))
  }

  // j is i with the divisor replaced by the index of its reciprocal.
  ghost predicate Indexed(i: Instr, j: Instr, rcp: seq<Word>) {
    if i.Rcp() then i.imm != 0 && j == i.(imm := j.imm) && j.imm < |rcp| && rcp[j.imm] == RandomxReciprocal(i.imm)
    else j == i
  }

  ghost predicate AllIndexed(p: seq<Instr>, q: seq<Instr>, rcp: seq<Word>) {
    |p| == |q| && forall k :: 0 <= k < |p| ==> Indexed(p[k], q[k], rcp)
  }

  // With the table a program computes what it computed without.
  lemma {:induction false} IndexedRunsSame(p: seq<Instr>, q: seq<Instr>, k: nat, r: RegFile, rcp: seq<Word>)
    requires Divides(p) && AllIndexed(p, q, rcp)
    ensures Valid(q, rcp) && Run(q, k, r, rcp) == RunDirect(p, k, r)
    decreases |p| - k
  {
    hide RandomxReciprocal, Mul, Sub, Xor, Add, Ror, MulHigh, SignedMulHigh, Shl;
    if k < |p| {
      assert Indexed(p[k], q[k], rcp);
      IndexedRunsSame(p, q, k + 1, ExecDirect(p[k], r), rcp);
    }
  }

  method IndexProgram(p: seq<Instr>, was: seq<Word>) returns (q: seq<Instr>, rcp: seq<Word>)
    requires Divides(p) && |was| + |p| <= 0x10_0000
    ensures AllIndexed(p, q, rcp) && was <= rcp && |rcp| == |was| + RcpBefore(p, |p|) <= |was| + |p|
    ensures forall k :: 0 <= k < |p| && p[k].Rcp() ==> q[k].imm == |was| + RcpBefore(p, k)
  {
    hide RandomxReciprocal;
    q, rcp := [], was;
    var j := 0;
    while j < |p|
      invariant j <= |p| && |q| == j && was <= rcp && |rcp| == |was| + RcpBefore(p, j) <= |was| + j
      invariant forall k :: 0 <= k < j ==> Indexed(p[k], q[k], rcp)
      invariant forall k :: 0 <= k < j && p[k].Rcp() ==> q[k].imm == |was| + RcpBefore(p, k)
    {
      if p[j].Rcp() {
        q := q + [p[j].(imm := |rcp|)];
        rcp := rcp + [RandomxReciprocal(p[j].imm)];
      } else {
        q := q + [p[j]];
      }
      j := j + 1;
    }
  }

  lemma TableGrows(p: seq<Instr>, q: seq<Instr>, rcp: seq<Word>, more: seq<Word>)
    requires AllIndexed(p, q, rcp) && rcp <= more
    ensures AllIndexed(p, q, more)
  {
    hide RandomxReciprocal;
  }

  // All programs of a cache share one table.
  method IndexPrograms(ps: seq<seq<Instr>>) returns (qs: seq<seq<Instr>>, rcp: seq<Word>)
    requires |ps| == 8 && forall k :: 0 <= k < |ps| ==> Divides(ps[k])
    ensures |qs| == |ps|
    ensures forall k :: 0 <= k < |ps| ==> AllIndexed(ps[k], qs[k], rcp)
  {
    hide AllIndexed;
    qs, rcp := [], [];
    var n := 0;
    while n < |ps|
      invariant n <= |ps| && |qs| == n && |rcp| <= n * MAX_SIZE
      invariant forall k :: 0 <= k < n ==> AllIndexed(ps[k], qs[k], rcp)
    {
      var q, more := IndexProgram(ps[n], rcp);
      forall k | 0 <= k < n ensures AllIndexed(ps[k], qs[k], more) { TableGrows(ps[k], qs[k], rcp, more); }
      qs, rcp := qs + [q], more;
      n := n + 1;
    }
  }

  // From generator to machine code: any program the generator may produce, once
  // indexed and emitted, computes the program's own meaning in every stream.
  lemma EmittedMeansProgram(ts: seq<Stream>, p: seq<Instr>, q: seq<Instr>, rcp: seq<Word>, base: nat, x: Regs,
                            t: Stream)
    requires IsLayout(ts) && t in ts
    requires |p| <= MAX_SIZE && (forall i :: 0 <= i < |p| ==> Legal(p[i])) && AllIndexed(p, q, rcp)
    ensures Divides(p) && Valid(q, rcp)
    ensures View(t, Execute(Generated(ts, q, rcp, base), 0, x)) == RunDirect(p, 0, View(t, x))
  {
    hide Execute, SuperscalarCode.Generated, RunDirect, Superscalar.Run, View;
    forall i | 0 <= i < |p| && p[i].Rcp() ensures p[i].imm != 0 { assert Legal(p[i]); }
    IndexedRunsSame(p, q, 0, View(t, x), rcp);
    GeneratedCorrect(ts, q, rcp, base, x, t);
  }
}
