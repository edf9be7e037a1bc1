// Whole emitted superscalar programs: a branch over the literal pool, the pool
// in program order, then the body in schedule order, for one stream or for two
// interleaved ones (src/jit_compiler_a64.cpp, src/jit_dataset_2way.cpp).
module SuperscalarCode {
  import opened Words
  import opened A64
  import opened Superscalar
  import opened SuperscalarEmit

  predicate IsLayout(ts: seq<Stream>) { ts == [ONE_WAY] || ts == [STREAM_A, STREAM_B] }

  // One instruction for every stream; all cursors name the same literal.
  function EmitAll(ts: seq<Stream>, i: Instr, base: nat, at: nat, lit: nat): (ws: seq<U32>)
    requires IsLayout(ts)
    ensures |ws| <= 6
  {
    var a := Emit(ts[0], i, base + 4 * at, base + 4 * lit);
    if |ts| == 1 then a else a + Emit(ts[1], i, base + 4 * (at + |a|), base + 4 * lit)
  }

  // The word after which the cursor stands once the instruction is emitted.
  function NextLiteral(i: Instr, lit: nat): nat { if i.Rcp() then lit + 2 else lit }

  function Body(ts: seq<Stream>, p: seq<Instr>, order: seq<nat>, base: nat, at: nat, lit: nat): (ws: seq<U32>)
    requires IsLayout(ts) && forall k :: 0 <= k < |order| ==> order[k] < |p|
    ensures |ws| <= 6 * |order|
    decreases |order|
  {
    if order == [] then []
    else
      var i := p[order[0]];
      var ws := EmitAll(ts, i, base, at, lit);
      ws + Body(ts, p, order[1..], base, at + |ws|, NextLiteral(i, lit))
  }

  // Both halves of every reciprocal, in program order.
  function Pool(p: seq<Instr>, k: nat, rcp: seq<Word>): (ws: seq<U32>)
    requires k <= |p| && Valid(p, rcp)
    ensures |ws| == 2 * RcpBefore(p, k)
  {
    if k == 0 then []
    else if p[k - 1].Rcp() then Pool(p, k - 1, rcp) + [rcp[p[k - 1].imm] % TWO32, rcp[p[k - 1].imm] / TWO32]
    else Pool(p, k - 1, rcp)
  }

  lemma {:induction false} RcpCount(p: seq<Instr>, j: nat, k: nat)
    requires j <= k <= |p|
    ensures RcpBefore(p, j) <= RcpBefore(p, k) <= RcpBefore(p, j) + k - j
    ensures j < k && p[j].Rcp() ==> RcpBefore(p, j) + 1 <= RcpBefore(p, k)
    decreases k
  {
    if j < k {
      RcpCount(p, j, k - 1);
    }
  }

  lemma {:induction false} PoolHolds(p: seq<Instr>, k: nat, rcp: seq<Word>, j: nat)
    requires j < k <= |p| && Valid(p, rcp) && p[j].Rcp()
    ensures var n := 2 * RcpBefore(p, j);
            n + 1 < |Pool(p, k, rcp)| && Pool(p, k, rcp)[n] + TWO32 * Pool(p, k, rcp)[n + 1] == rcp[p[j].imm]
    decreases k
  {
    RcpCount(p, j, k);
    if j < k - 1 {
      RcpCount(p, j, k - 1);
      PoolHolds(p, k - 1, rcp, j);
    } else {
      Halves(rcp[p[j].imm]);
    }
  }

  lemma Halves(v: Word)
    ensures v % TWO32 + TWO32 * (v / TWO32) == v
  {
  }

  lemma {:induction false} PlanInRange(p: seq<Instr>, i: nat)
    ensures forall k :: 0 <= k < |Plan(p, i)| ==> Plan(p, i)[k] < |p|
    ensures i <= |p| ==> |Plan(p, i)| == |p| - i
    decreases |p| - i
  {
    if i < |p| { PlanInRange(p, i + |Block(p, i)|); }
  }

  // The branch over the pool, and the pool.
  function Header(p: seq<Instr>, rcp: seq<Word>): (ws: seq<U32>)
    requires Valid(p, rcp)
    ensures 1 <= |ws| <= 1 + 2 * MAX_SIZE && ws == [Branch(|ws|)] + Pool(p, |p|, rcp)
  {
    RcpCount(p, 0, |p|);
    var pool := Pool(p, |p|, rcp);
    [Branch(1 + |pool|)] + pool
  }

  function Generated(ts: seq<Stream>, p: seq<Instr>, rcp: seq<Word>, base: nat): seq<U32>
    requires IsLayout(ts) && Valid(p, rcp)
  {
    PlanInRange(p, 0);
    Header(p, rcp) + Body(ts, p, Plan(p, 0), base, |Header(p, rcp)|, 1)
  }

  // ---- the emitters ----

  method EmitPool(p: seq<Instr>, rcp: seq<Word>) returns (code: seq<U32>)
    requires Valid(p, rcp)
    ensures code == Header(p, rcp)
  {
    code := [0];
    var j := 0;
    while j < |p|
      invariant j <= |p| && code == [0] + Pool(p, j, rcp)
    {
      if p[j].Rcp() {
        code := code + [rcp[p[j].imm] % TWO32, rcp[p[j].imm] / TWO32];
      }
      j := j + 1;
    }
    RcpCount(p, 0, |p|);
    code := code[0 := Branch(|code|)];
  }

  lemma BodyUnfolds(ts: seq<Stream>, p: seq<Instr>, order: seq<nat>, k: nat, base: nat, at: nat, lit: nat)
    requires IsLayout(ts) && k < |order| && forall n :: 0 <= n < |order| ==> order[n] < |p|
    ensures var i, ws := p[order[k]], EmitAll(ts, p[order[k]], base, at, lit);
            Body(ts, p, order[k..], base, at, lit) ==
            ws + Body(ts, p, order[k + 1..], base, at + |ws|, NextLiteral(i, lit))
  {
    hide EmitAll;
    assert order[k..][0] == order[k] && order[k..][1..] == order[k + 1..];
  }

  method GenerateOneWay(p: seq<Instr>, rcp: seq<Word>, base: nat) returns (code: seq<U32>)
    requires Valid(p, rcp)
    ensures code == Generated([ONE_WAY], p, rcp, base)
  {
    hide Emit, Header, Plan, Body;
    PlanInRange(p, 0);
    code := EmitPool(p, rcp);
    var literalPos := base + 4;
    var order := ScheduleSuperscalar(p);
    assert order[0..] == order;
    var k := 0;
    while k < |order|
      invariant k <= |order| && literalPos >= base && (literalPos - base) % 4 == 0
      invariant code + Body([ONE_WAY], p, order[k..], base, |code|, (literalPos - base) / 4)
                == Generated([ONE_WAY], p, rcp, base)
    {
      ghost var lit := (literalPos - base) / 4;
      BodyUnfolds([ONE_WAY], p, order, k, base, |code|, lit);
      var i := p[order[k]];
      var ws := Emit(ONE_WAY, i, base + 4 * |code|, literalPos);
      assert ws == EmitAll([ONE_WAY], i, base, |code|, lit);
      assert code + (ws + Body([ONE_WAY], p, order[k + 1..], base, |code| + |ws|, NextLiteral(i, lit)))
          == (code + ws) + Body([ONE_WAY], p, order[k + 1..], base, |code + ws|, NextLiteral(i, lit));
      if i.Rcp() { literalPos := literalPos + 8; }
      assert (literalPos - base) / 4 == NextLiteral(i, lit);
      code := code + ws;
      k := k + 1;
    }
    BodyEnds([ONE_WAY], p, order[k..], base, |code|, (literalPos - base) / 4);
    assert code + [] == code;
  }

  // Two streams over one pool, each with its own cursor.
  method GenerateTwoWay(p: seq<Instr>, rcp: seq<Word>, base: nat) returns (code: seq<U32>)
    requires Valid(p, rcp)
    ensures code == Generated([STREAM_A, STREAM_B], p, rcp, base)
  {
    hide Emit, Header, Plan, Body;
    PlanInRange(p, 0);
    code := EmitPool(p, rcp);
    var literalPosA, literalPosB := base + 4, base + 4;
    var order := ScheduleSuperscalar(p);
    assert order[0..] == order;
    ghost var ts := [STREAM_A, STREAM_B];
    var k := 0;
    while k < |order|
      invariant k <= |order| && literalPosA == literalPosB >= base && (literalPosA - base) % 4 == 0
      invariant code + Body(ts, p, order[k..], base, |code|, (literalPosA - base) / 4) == Generated(ts, p, rcp, base)
    {
      ghost var lit := (literalPosA - base) / 4;
      BodyUnfolds(ts, p, order, k, base, |code|, lit);
      var i := p[order[k]];
      var a := Emit(STREAM_A, i, base + 4 * |code|, literalPosA);
      var b := Emit(STREAM_B, i, base + 4 * |code + a|, literalPosB);
      assert a + b == EmitAll(ts, i, base, |code|, lit);
      assert code + ((a + b) + Body(ts, p, order[k + 1..], base, |code| + |a + b|, NextLiteral(i, lit)))
          == (code + a + b) + Body(ts, p, order[k + 1..], base, |code + a + b|, NextLiteral(i, lit));
      if i.Rcp() { literalPosA := literalPosA + 8; }
      if i.Rcp() { literalPosB := literalPosB + 8; }
      assert (literalPosA - base) / 4 == NextLiteral(i, lit);
      code := code + a + b;
      k := k + 1;
    }
    BodyEnds(ts, p, order[k..], base, |code|, (literalPosA - base) / 4);
    assert code + [] == code;
  }

  lemma BodyEnds(ts: seq<Stream>, p: seq<Instr>, order: seq<nat>, base: nat, at: nat, lit: nat)
    requires IsLayout(ts) && order == []
    ensures Body(ts, p, order, base, at, lit) == []
  {
  }

  // ---- simulation ----

  // The words at lit hold the reciprocal of i, and lie before `at` within reach.
  ghost predicate Serves(i: Instr, code: seq<U32>, at: nat, lit: nat, rcp: seq<Word>) {
    |code| <= 0x4_0000 && (i.Rcp() ==>
      i.imm < |rcp| && lit + 1 < at < |code| && code[lit] + TWO32 * code[lit + 1] == rcp[i.imm])
  }

  ghost predicate Stepped(ts: seq<Stream>, i: Instr, x: Regs, y: Regs, rcp: seq<Word>)
    requires IsLayout(ts) && (i.Rcp() ==> i.imm < |rcp|)
  {
    forall t :: t in ts ==> View(t, y) == Exec(i, View(t, x), rcp)
  }

  lemma AllSimulate(ts: seq<Stream>, i: Instr, code: seq<U32>, base: nat, at: nat, lit: nat, x: Regs, rcp: seq<Word>)
    returns (y: Regs)
    requires IsLayout(ts) && Serves(i, code, at, lit, rcp) && At(code, at, EmitAll(ts, i, base, at, lit))
    ensures Execute(code, at, x) == Execute(code, at + |EmitAll(ts, i, base, at, lit)|, y)
    ensures Stepped(ts, i, x, y, rcp)
  {
    hide Execute, Emit, Exec;
    var ws := EmitAll(ts, i, base, at, lit);
    var a := Emit(ts[0], i, base + 4 * at, base + 4 * lit);
    if |ts| == 1 {
      y := EmitSimulates(ONE_WAY, i, code, base, at, lit, x, rcp);
    } else {
      assert code[at..at + |a|] == code[at..at + |ws|][..|a|];
      assert code[at + |a|..at + |ws|] == code[at..at + |ws|][|a|..];
      var z := EmitSimulates(STREAM_A, i, code, base, at, lit, x, rcp);
      y := EmitSimulates(STREAM_B, i, code, base, at + |a|, lit, z, rcp);
      assert View(STREAM_B, z) == View(STREAM_B, x);
      assert View(STREAM_A, y) == View(STREAM_A, z);
    }
  }

  // The first instruction of a body, and the rest of the body behind it.
  lemma BodyStep(ts: seq<Stream>, p: seq<Instr>, order: seq<nat>, code: seq<U32>, base: nat, at: nat, lit: nat,
                 x: Regs, rcp: seq<Word>)
    returns (y: Regs, next: nat)
    requires IsLayout(ts) && order != [] && forall k :: 0 <= k < |order| ==> order[k] < |p|
    requires At(code, at, Body(ts, p, order, base, at, lit)) && at + |Body(ts, p, order, base, at, lit)| == |code|
    requires Serves(p[order[0]], code, at, lit, rcp)
    ensures var lit' := NextLiteral(p[order[0]], lit);
            && At(code, next, Body(ts, p, order[1..], base, next, lit'))
            && next + |Body(ts, p, order[1..], base, next, lit')| == |code| && at <= next
    ensures Execute(code, at, x) == Execute(code, next, y) && Stepped(ts, p[order[0]], x, y, rcp)
  {
    hide Execute, EmitAll, Serves, Stepped;
    var i := p[order[0]];
    var ws := EmitAll(ts, i, base, at, lit);
    var all := Body(ts, p, order, base, at, lit);
    next := at + |ws|;
    assert code[at..at + |all|] == all;
    assert code[at..next] == all[..|ws|] == ws;
    assert code[next..|code|] == all[|ws|..] == Body(ts, p, order[1..], base, next, NextLiteral(i, lit));
    y := AllSimulate(ts, i, code, base, at, lit, x, rcp);
  }

  // The pool is in place for the whole program.
  ghost predicate Pooled(p: seq<Instr>, code: seq<U32>, at: nat, rcp: seq<Word>) {
    && Valid(p, rcp) && |code| <= 0x4_0000
    && forall j :: 0 <= j < |p| && p[j].Rcp() ==>
         var n := 1 + 2 * RcpBefore(p, j); n + 1 < at <= |code| && code[n] + TWO32 * code[n + 1] == rcp[p[j].imm]
  }

  // The body for p[i..] is what is left of the code.
  ghost predicate Rest(ts: seq<Stream>, p: seq<Instr>, order: seq<nat>, code: seq<U32>, base: nat, at: nat, lit: nat) {
    && IsLayout(ts) && (forall k :: 0 <= k < |order| ==> order[k] < |p|)
    && At(code, at, Body(ts, p, order, base, at, lit)) && at + |Body(ts, p, order, base, at, lit)| == |code|
  }

  ghost predicate Agrees(ts: seq<Stream>, p: seq<Instr>, i: nat, code: seq<U32>, at: nat, x: Regs, rcp: seq<Word>)
    requires IsLayout(ts) && Valid(p, rcp)
  {
    forall t :: t in ts ==> View(t, Execute(code, at, x)) == Run(p, i, View(t, x), rcp)
  }

  lemma OneStep(ts: seq<Stream>, p: seq<Instr>, order: seq<nat>, code: seq<U32>, base: nat, start: nat, at: nat, j: nat,
                x: Regs, rcp: seq<Word>)
    returns (y: Regs, next: nat)
    requires j < |p| && Pooled(p, code, start, rcp) && start <= at
    requires Rest(ts, p, order, code, base, at, 1 + 2 * RcpBefore(p, j))
    requires order != [] && (p[order[0]].Rcp() ==> order[0] == j)
    ensures var lit := 1 + 2 * RcpBefore(p, j);
            Rest(ts, p, order[1..], code, base, next, NextLiteral(p[order[0]], lit)) && at <= next
    ensures Execute(code, at, x) == Execute(code, next, y) && Stepped(ts, p[order[0]], x, y, rcp)
  {
    hide Execute, EmitAll, Stepped, RcpBefore;
    var lit := 1 + 2 * RcpBefore(p, j);
    assert at < |code| by { BodyNotEmpty(ts, p, order, base, at, lit); }
    y, next := BodyStep(ts, p, order, code, base, at, lit, x, rcp);
  }

  lemma BodyNotEmpty(ts: seq<Stream>, p: seq<Instr>, order: seq<nat>, base: nat, at: nat, lit: nat)
    requires IsLayout(ts) && order != [] && forall k :: 0 <= k < |order| ==> order[k] < |p|
    ensures |Body(ts, p, order, base, at, lit)| > 0
  {
  }

  lemma SwappedBlock(ts: seq<Stream>, p: seq<Instr>, i: nat, code: seq<U32>, base: nat, start: nat, at: nat,
                     x: Regs, rcp: seq<Word>)
    returns (y: Regs, next: nat)
    requires Pooled(p, code, start, rcp) && start <= at && Swaps(p, i)
    requires Rest(ts, p, Plan(p, i), code, base, at, 1 + 2 * RcpBefore(p, i))
    ensures i + 3 <= |p|
    ensures Rest(ts, p, Plan(p, i + 3), code, base, next, 1 + 2 * RcpBefore(p, i + 3)) && at <= next
    ensures Execute(code, at, x) == Execute(code, next, y)
    ensures forall t :: t in ts ==>
              View(t, y) == Exec(p[i + 1], Exec(p[i + 2], Exec(p[i], View(t, x), rcp), rcp), rcp)
  {
    hide Execute, Exec, Hazard, Rest, Pooled;
    RestLayout(ts, p, Plan(p, i), code, base, at, 1 + 2 * RcpBefore(p, i));
    PooledValid(p, code, start, rcp);
    var order := Plan(p, i);
    var order1, order2 := order[1..], order[2..];
    assert order1[1..] == order2 && order2[1..] == Plan(p, i + 3);
    var lit := RcpBefore(p, i + 1);
    assert lit == RcpBefore(p, i + 2) == RcpBefore(p, i + 3);
    var x1, at1 := OneStep(ts, p, order, code, base, start, at, i, x, rcp);
    var x2, at2 := OneStep(ts, p, order1, code, base, start, at1, i + 1, x1, rcp);
    y, next := OneStep(ts, p, order2, code, base, start, at2, i + 1, x2, rcp);
  }

  lemma PlainBlock(ts: seq<Stream>, p: seq<Instr>, i: nat, code: seq<U32>, base: nat, start: nat, at: nat,
                   x: Regs, rcp: seq<Word>)
    returns (y: Regs, next: nat)
    requires i < |p| && Pooled(p, code, start, rcp) && start <= at && !Swaps(p, i)
    requires Rest(ts, p, Plan(p, i), code, base, at, 1 + 2 * RcpBefore(p, i))
    ensures Rest(ts, p, Plan(p, i + 1), code, base, next, 1 + 2 * RcpBefore(p, i + 1)) && at <= next
    ensures Execute(code, at, x) == Execute(code, next, y)
    ensures forall t :: t in ts ==> View(t, y) == Exec(p[i], View(t, x), rcp)
  {
    hide Execute, Exec, Swaps, Rest, Pooled;
    RestLayout(ts, p, Plan(p, i), code, base, at, 1 + 2 * RcpBefore(p, i));
    PooledValid(p, code, start, rcp);
    var order := Plan(p, i);
    assert order[1..] == Plan(p, i + 1) && order[0] == i;
    y, next := OneStep(ts, p, order, code, base, start, at, i, x, rcp);
  }

  lemma {:induction false} BodySimulates(ts: seq<Stream>, p: seq<Instr>, i: nat, code: seq<U32>, base: nat, start: nat,
                                         at: nat, x: Regs, rcp: seq<Word>)
    requires i <= |p| && Pooled(p, code, start, rcp) && start <= at
    requires Rest(ts, p, Plan(p, i), code, base, at, 1 + 2 * RcpBefore(p, i))
    ensures IsLayout(ts) && Valid(p, rcp) && Agrees(ts, p, i, code, at, x, rcp)
    decreases |p| - i
  {
    hide Exec, Swaps, Pooled, Rest, Plan, RcpBefore;
    RestLayout(ts, p, Plan(p, i), code, base, at, 1 + 2 * RcpBefore(p, i));
    PooledValid(p, code, start, rcp);
    if i == |p| {
      assert Plan(p, i) == [] by { PlanInRange(p, i); }
      RestEnds(ts, p, code, base, at, 1 + 2 * RcpBefore(p, i));
    } else if Swaps(p, i) {
      var y, next := SwappedBlock(ts, p, i, code, base, start, at, x, rcp);
      BodySimulates(ts, p, i + 3, code, base, start, next, y, rcp);
      forall t | t in ts ensures View(t, Execute(code, at, x)) == Run(p, i, View(t, x), rcp) {
        RunSwapped(p, i, View(t, x), rcp);
      }
    } else {
      var y, next := PlainBlock(ts, p, i, code, base, start, at, x, rcp);
      BodySimulates(ts, p, i + 1, code, base, start, next, y, rcp);
    }
  }

  lemma RestLayout(ts: seq<Stream>, p: seq<Instr>, order: seq<nat>, code: seq<U32>, base: nat, at: nat, lit: nat)
    requires Rest(ts, p, order, code, base, at, lit)
    ensures IsLayout(ts) && forall k :: 0 <= k < |order| ==> order[k] < |p|
  {
  }

  lemma PooledValid(p: seq<Instr>, code: seq<U32>, at: nat, rcp: seq<Word>)
    requires Pooled(p, code, at, rcp)
    ensures Valid(p, rcp)
  {
  }

  lemma RestEnds(ts: seq<Stream>, p: seq<Instr>, code: seq<U32>, base: nat, at: nat, lit: nat)
    requires Rest(ts, p, [], code, base, at, lit)
    ensures at == |code|
  {
  }

  // ---- the theorem ----

  lemma GeneratedPooled(ts: seq<Stream>, p: seq<Instr>, rcp: seq<Word>, base: nat)
    requires IsLayout(ts) && Valid(p, rcp)
    ensures var code, start := Generated(ts, p, rcp, base), |Header(p, rcp)|;
            && Pooled(p, code, start, rcp) && Rest(ts, p, Plan(p, 0), code, base, start, 1)
            && code[0] == Branch(start)
  {
    hide Body, Pool, Branch, Plan;
    PlanInRange(p, 0);
    RcpCount(p, 0, |p|);
    var pool := Pool(p, |p|, rcp);
    var start := |Header(p, rcp)|;
    var body := Body(ts, p, Plan(p, 0), base, start, 1);
    var code := Generated(ts, p, rcp, base);
    assert code[start..start + |body|] == body;
    forall j | 0 <= j < |p| && p[j].Rcp()
      ensures var n := 1 + 2 * RcpBefore(p, j);
              n + 1 < start <= |code| && code[n] + TWO32 * code[n + 1] == rcp[p[j].imm]
    {
      PoolHolds(p, |p|, rcp, j);
      var n := 2 * RcpBefore(p, j);
      assert code[n + 1] == pool[n] && code[n + 2] == pool[n + 1];
    }
  }

  // Emitted code, one-way or interleaved two-way, leaves in every stream's
  // registers exactly what the interpreter computes for that stream, for every
  // program, every reciprocal cache and every position of the buffer.
  lemma GeneratedCorrect(ts: seq<Stream>, p: seq<Instr>, rcp: seq<Word>, base: nat, x: Regs, t: Stream)
    requires IsLayout(ts) && Valid(p, rcp) && t in ts
    ensures View(t, Execute(Generated(ts, p, rcp, base), 0, x)) == Run(p, 0, View(t, x), rcp)
  {
    hide Decode, Pooled, Rest, Generated, Run, View, Branch;
    var code, start := Generated(ts, p, rcp, base), |Header(p, rcp)|;
    GeneratedPooled(ts, p, rcp, base);
    RcpCount(p, 0, |p|);
    DecodeBranch(start);
    assert Execute(code, 0, x) == Execute(code, start, x);
    BodySimulates(ts, p, 0, code, base, start, start, x, rcp);
  }
}
