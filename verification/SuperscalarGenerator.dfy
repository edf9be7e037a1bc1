// Generating superscalar programs for a model CPU (src/superscalar.cpp). Each
// call on the random generator takes the next element of a tape of answers; a
// generation that asks for more answers than the tape holds is unfinished.
module SuperscalarGenerator {
  import opened Words
  import opened Reciprocal
  import opened Superscalar
  import opened PortSchedule
  import opened IssueLog

  const LATENCY: nat := 170
  const LOOK_FORWARD: nat := 4
  const MAX_THROWN: nat := 256

  const ANY := Uop(true, true, true)
  const ONE_ANY := MacroOp(3, 1, ANY, NOTHING, false)
  const MOV_RR := MacroOp(3, 0, NOTHING, NOTHING, false)
  const MUL_R := MacroOp(3, 4, Uop(false, true, false), Uop(false, false, true), false)
  const LEA_SIB := MacroOp(4, 1, Uop(true, true, false), NOTHING, false)
  const IMUL_RR := MacroOp(4, 3, Uop(false, true, false), NOTHING, false)
  const ROR_RI := MacroOp(4, 1, Uop(true, false, true), NOTHING, false)
  const ALU_RI := MacroOp(7, 1, ANY, NOTHING, false)
  const MOV_RI64 := MacroOp(10, 1, ANY, NOTHING, false)

  datatype Info = Info(ops: seq<MacroOp>, resultOp: nat, dstOp: nat, srcOp: int)

  function InfoOf(op: Option<Op>): (i: Info)
    ensures forall k :: 0 <= k < |i.ops| ==> Apart(i.ops[k].uop1, i.ops[k].uop2) && 3 <= i.ops[k].size <= 10
    ensures forall k :: 0 <= k < |i.ops| && i.ops[k].uop1.None() ==> i.ops[k].uop2.None()
    ensures op.Some? ==> i.resultOp < |i.ops| && i.dstOp <= i.resultOp && i.srcOp <= i.resultOp
  {
    match op
    case None => Info([], 0, 0, -1)
    case Some(ISUB_R) => Info([ONE_ANY], 0, 0, 0)
    case Some(IXOR_R) => Info([ONE_ANY], 0, 0, 0)
    case Some(IADD_RS) => Info([LEA_SIB], 0, 0, 0)
    case Some(IMUL_R) => Info([IMUL_RR], 0, 0, 0)
    case Some(IROR_C) => Info([ROR_RI], 0, 0, -1)
    case Some(IMULH_R) => Info([MOV_RR, MUL_R, MOV_RR], 1, 0, 1)
    case Some(ISMULH_R) => Info([MOV_RR, MUL_R, MOV_RR], 1, 0, 1)
    case Some(IMUL_RCP) => Info([MOV_RI64, IMUL_RR.(dependent := true)], 1, 1, -1)
    case Some(_) => Info([ALU_RI], 0, 0, -1)
  }

  function Part(ops: seq<MacroOp>, k: nat): MacroOp { if k < |ops| then ops[k] else MOV_RR.(size := 0) }

  // Length in bytes and latency of a whole instruction.
  lemma Costs(op: Op)
    ensures var ops := InfoOf(Some(op)).ops;
            var a, b, c := Part(ops, 0), Part(ops, 1), Part(ops, 2);
            && |ops| <= 3
            && a.latency + b.latency + c.latency ==
               (match op case IMUL_R => 3 case IMULH_R | ISMULH_R | IMUL_RCP => 4 case _ => 1)
            && a.size + b.size + c.size ==
               (match op
                case ISUB_R | IXOR_R => 3
                case IADD_RS | IMUL_R | IROR_C => 4
                case IMULH_R | ISMULH_R => 9
                case IMUL_RCP => 14
                case _ => 7)
  {
  }

  predicate IsMul(op: Option<Op>) {
    op.Some? && (op.value == IMUL_R || op.value == IMULH_R || op.value == ISMULH_R || op.value == IMUL_RCP)
  }

  // The instruction under construction; registers are -1 until chosen.
  datatype Building = Building(
    op: Option<Op>, src: int, dst: int, mod: Byte, imm: U32,
    group: Option<Op>, par: int, canReuse: bool, parIsSource: bool)

  const NULL := Building(None, -1, -1, 0, 0, None, -1, false, false)

  datatype RegisterInfo = RegisterInfo(latency: nat, lastGroup: Option<Op>, lastPar: int)

  // ---- operand rules ----

  predicate TwoOperand(op: Op) { op == ISUB_R || op == IXOR_R || op == IADD_RS || op == IMUL_R }

  predicate ImmediateOk(op: Op, imm: U32) {
    && (op == IROR_C ==> 1 <= imm <= 63)
    && (op == IMUL_RCP ==> !ZeroOrPowerOfTwo(imm))
  }

  // What every emitted instruction satisfies.
  predicate Legal(i: Instr) {
    && ImmediateOk(i.op, i.imm)
    && (i.op == IADD_RS ==> i.dst != 5)
    && (TwoOperand(i.op) ==> i.src != i.dst)
  }

  // ---- drawing ----

  type Tape = seq<U32>

  datatype Drawn<T> = Drew(value: T, pos: nat) | Unfinished

  function Draw(tape: Tape, pos: nat): (d: Drawn<U32>)
    ensures d.Drew? ==> pos < d.pos <= |tape|
  {
    if pos < |tape| then Drew(tape[pos], pos + 1) else Unfinished
  }

  // A rotate count is six bits and not zero, a divisor 32 bits with a reciprocal.
  predicate Accepts(rotate: bool, x: U32) { if rotate then x % 64 != 0 else !ZeroOrPowerOfTwo(x) }

  // Nothing acceptable among the answers from a to b.
  ghost predicate AllRefused(tape: Tape, rotate: bool, a: nat, b: nat) {
    forall k :: a <= k < b && k < |tape| ==> !Accepts(rotate, tape[k])
  }

  // d is the first acceptable answer from a position on.
  ghost predicate FirstAccepted(tape: Tape, from: nat, rotate: bool, d: Drawn<U32>) {
    match d
    case Drew(v, pos) =>
      && from < pos <= |tape| && Accepts(rotate, tape[pos - 1]) && AllRefused(tape, rotate, from, pos - 1)
      && v == if rotate then tape[pos - 1] % 64 else tape[pos - 1]
    case Unfinished => AllRefused(tape, rotate, from, |tape|)
  }

  // Draw until the answer is acceptable.
  method DrawUntil(tape: Tape, from: nat, rotate: bool) returns (d: Drawn<U32>)
    ensures FirstAccepted(tape, from, rotate, d)
    ensures d.Drew? ==> if rotate then 1 <= d.value <= 63 else !ZeroOrPowerOfTwo(d.value)
  {
    hide ZeroOrPowerOfTwo;
    var pos := from;
    while true
      invariant from <= pos && AllRefused(tape, rotate, from, pos)
      decreases |tape| - pos
    {
      d := Draw(tape, pos);
      if d.Unfinished? { return; }
      if Accepts(rotate, d.value) { return Drew(if rotate then d.value % 64 else d.value, d.pos); }
      pos := d.pos;
    }
  }

  function Signed32(x: U32): int { if x < TWO31 then x else x - TWO32 }

  // The group that decides which registers may repeat an operation.
  function GroupOf(op: Op): Op {
    match op
    case ISUB_R => IADD_RS
    case IADD_C8 | IADD_C9 => IADD_C7
    case IXOR_C8 | IXOR_C9 => IXOR_C7
    case _ => op
  }

  predicate HighMul(op: Op) { op == IMULH_R || op == ISMULH_R }

  // An instruction as created: no operand chosen, its group parameter to be the
  // source, a draw or -1, and its immediate and mode drawn where it has them.
  ghost predicate Created(op: Op, was: Building, b: Building) {
    && b.op == Some(op) && b.src == b.dst == -1 && b.group == Some(GroupOf(op))
    && ImmediateOk(op, b.imm) && (TwoOperand(op) || HighMul(op) ==> b.imm == 0)
    && b.canReuse == HighMul(op) && b.parIsSource == TwoOperand(op)
    && (op != IADD_RS ==> b.mod == 0)
    && (if TwoOperand(op) then b.par == was.par else if HighMul(op) then -TWO31 <= b.par < TWO31 else b.par == -1)
  }

  // The answers an instruction takes, and where it puts them.
  ghost predicate Answered(op: Op, tape: Tape, pos: nat, d: Drawn<Building>) {
    if op in {ISUB_R, IXOR_R, IMUL_R} then d.Drew? && d.pos == pos
    else if op in {IROR_C, IMUL_RCP} then
      FirstAccepted(tape, pos, op == IROR_C, if d.Drew? then Drew(d.value.imm, d.pos) else Unfinished)
    else if pos >= |tape| then d.Unfinished?
    else
      && d.Drew? && d.pos == pos + 1
      && if op == IADD_RS then d.value.mod == tape[pos] % 256
         else if HighMul(op) then d.value.par == Signed32(tape[pos]) else d.value.imm == tape[pos]
  }

  method Create(op: Op, was: Building, tape: Tape, pos: nat) returns (d: Drawn<Building>)
    ensures d.Drew? ==> Created(op, was, d.value)
    ensures Answered(op, tape, pos, d)
  {
    hide ZeroOrPowerOfTwo, FirstAccepted;
    var b := was.(op := Some(op), src := -1, dst := -1, canReuse := false, parIsSource := false, mod := 0, imm := 0);
    match op {
      case ISUB_R => d := Drew(b.(group := Some(IADD_RS), parIsSource := true), pos);
      case IXOR_R => d := Drew(b.(group := Some(op), parIsSource := true), pos);
      case IMUL_R => d := Drew(b.(group := Some(op), parIsSource := true), pos);
      case IADD_RS =>
        var x := Draw(tape, pos);
        if x.Unfinished? { return Unfinished; }
        d := Drew(b.(mod := x.value % 256, group := Some(op), parIsSource := true), x.pos);
      case IROR_C =>
        var x := DrawUntil(tape, pos, true);
        if x.Unfinished? { return Unfinished; }
        d := Drew(b.(imm := x.value, group := Some(op), par := -1), x.pos);
      case IMUL_RCP =>
        var x := DrawUntil(tape, pos, false);
        if x.Unfinished? { return Unfinished; }
        d := Drew(b.(imm := x.value, group := Some(op), par := -1), x.pos);
      case IMULH_R | ISMULH_R =>
        var x := Draw(tape, pos);
        if x.Unfinished? { return Unfinished; }
        d := Drew(b.(canReuse := true, group := Some(op), par := Signed32(x.value)), x.pos);
      case IADD_C7 | IADD_C8 | IADD_C9 =>
        var x := Draw(tape, pos);
        if x.Unfinished? { return Unfinished; }
        d := Drew(b.(imm := x.value, group := Some(IADD_C7), par := -1), x.pos);
      case IXOR_C7 | IXOR_C8 | IXOR_C9 =>
        var x := Draw(tape, pos);
        if x.Unfinished? { return Unfinished; }
        d := Drew(b.(imm := x.value, group := Some(IXOR_C7), par := -1), x.pos);
    }
  }

  // ---- decoder buffers ----

  datatype Buffer = Buffer(index: nat, counts: seq<nat>)

  function BufferAt(k: nat): (b: Buffer)
    requires k < 6
    ensures |b.counts| <= 4 && forall j :: 0 <= j < |b.counts| ==> b.counts[j] in {3, 4, 7, 8, 9, 10}
  {
    Buffer(k, [[4, 8, 4], [7, 3, 3, 3], [3, 7, 3, 3], [4, 9, 3], [4, 4, 4, 4], [3, 3, 10]][k])
  }

  function FetchNext(op: Option<Op>, cycle: nat, muls: nat, tape: Tape, pos: nat): (d: Drawn<nat>)
    ensures d.Drew? ==> d.value < 6
  {
    if op == Some(IMULH_R) || op == Some(ISMULH_R) then Drew(5, pos)
    else if muls < cycle + 1 then Drew(4, pos)
    else
      var x := Draw(tape, pos);
      if x.Unfinished? then Unfinished
      else if op == Some(IMUL_RCP) then Drew(if x.value % 2 == 1 then 0 else 3, x.pos)
      else Drew(x.value % 4, x.pos)
  }

  function Total(counts: seq<nat>): nat {
    if counts == [] then 0 else Total(counts[..|counts| - 1]) + counts[|counts| - 1]
  }

  // Every buffer decodes sixteen bytes.
  lemma SixteenBytes(k: nat)
    requires k < 6
    ensures Total(BufferAt(k).counts) == 16
  {
    var c := BufferAt(k).counts;
    assert c[..|c| - 1][..|c| - 2] == c[..|c| - 2];
    assert Total(c[..1]) == Total(c[..1][..0]) + c[0];
    assert Total(c[..2]) == Total(c[..1]) + c[1] by { assert c[..2][..1] == c[..1]; }
    assert Total(c[..3]) == Total(c[..2]) + c[2] by { assert c[..3][..2] == c[..2]; }
    if |c| == 3 {
      assert c[..3] == c;
    } else {
      assert c[..4] == c;
      assert c[..4][..3] == c[..3];
    }
  }

  // After a high multiplication comes 3-3-10, with fewer multiplications than
  // cycles 4-4-4-4; after a reciprocal one the draw decides between 4-8-4 and
  // 4-9-3, else among these and the two with a seven.
  lemma FetchRules(op: Option<Op>, cycle: nat, muls: nat, tape: Tape, pos: nat)
    ensures var d := FetchNext(op, cycle, muls, tape, pos);
            var high := op.Some? && HighMul(op.value);
            && (high ==> d.Drew? && d.pos == pos && BufferAt(d.value).counts == [3, 3, 10])
            && (!high && muls <= cycle ==> d.Drew? && d.pos == pos && BufferAt(d.value).counts == [4, 4, 4, 4])
            && (!high && muls > cycle ==> (d.Drew? <==> pos < |tape|))
            && (d.Drew? && !high && muls > cycle ==>
                  && d.pos == pos + 1
                  && var c, x := BufferAt(d.value).counts, tape[pos];
                     if op == Some(IMUL_RCP) then c == if x % 2 == 1 then [4, 8, 4] else [4, 9, 3]
                     else if x % 4 == 0 then c == [4, 8, 4] else if x % 4 == 1 then c == [7, 3, 3, 3]
                     else if x % 4 == 2 then c == [3, 7, 3, 3] else c == [4, 9, 3])
  {
  }

  // The operations a slot may receive.
  function SlotOps(slot: nat, index: nat, last: bool): (ops: seq<Op>)
    ensures |ops| in {1, 2, 4}
  {
    if slot == 3 then (if last then [ISUB_R, IXOR_R, IMULH_R, ISMULH_R] else [ISUB_R, IXOR_R])
    else if slot == 4 then (if index == 4 && !last then [IMUL_R] else [IROR_C, IADD_RS])
    else if slot == 7 then [IXOR_C7, IADD_C7]
    else if slot == 8 then [IXOR_C8, IADD_C8]
    else if slot == 9 then [IXOR_C9, IADD_C9]
    else [IMUL_RCP]
  }

  // High multiplications arise only in a last 3-byte slot, plain ones only in the
  // 4-4-4-4 buffer, reciprocal ones only in a 10-byte slot.
  method CreateForSlot(slot: nat, index: nat, last: bool, was: Building, tape: Tape, from: nat)
    returns (d: Drawn<Building>)
    requires slot in {3, 4, 7, 8, 9, 10}
    ensures d.Drew? ==> d.value.op.Some? && Created(d.value.op.value, was, d.value)
    ensures d.Drew? ==>
              && (TwoOperand(d.value.op.value) ==> !d.value.canReuse)
              && (HighMul(d.value.op.value) ==> slot == 3 && last)
              && (d.value.op == Some(IMUL_R) <==> slot == 4 && index == 4 && !last)
              && (d.value.op == Some(IMUL_RCP) <==> slot == 10)
    ensures var ops := SlotOps(slot, index, last);
            if |ops| == 1 then Answered(ops[0], tape, from, d) && (d.Drew? ==> d.value.op == Some(ops[0]))
            else if from >= |tape| then d.Unfinished?
            else
              var op := ops[tape[from] % |ops|];
              Answered(op, tape, from + 1, d) && (d.Drew? ==> d.value.op == Some(op))
  {
    hide Answered;
    var op, pos := IMUL_R, from;
    if slot == 10 {
      op := IMUL_RCP;
    } else if !(slot == 4 && index == 4 && !last) {
      var x := Draw(tape, pos);
      if x.Unfinished? { return Unfinished; }
      pos := x.pos;
      var odd := x.value % 2 == 1;
      if slot == 3 {
        var k := if last then x.value % 4 else x.value % 2;
        op := [ISUB_R, IXOR_R, IMULH_R, ISMULH_R][k];
      } else if slot == 4 {
        op := if odd then IADD_RS else IROR_C;
      } else if slot == 7 {
        op := if odd then IADD_C7 else IXOR_C7;
      } else if slot == 8 {
        op := if odd then IADD_C8 else IXOR_C8;
      } else {
        op := if odd then IADD_C9 else IXOR_C9;
      }
    }
    d := Create(op, was, tape, pos);
  }

  // ---- registers ----

  type Registers = r: seq<RegisterInfo> | |r| == 8 witness seq(8, _ => RegisterInfo(0, None, -1))

  predicate DestinationOk(b: Building, cycle: nat, chained: bool, regs: Registers, i: Reg) {
    && regs[i].latency <= cycle && (b.canReuse || i != b.src)
    && (chained || b.group != Some(IMUL_R) || regs[i].lastGroup != Some(IMUL_R))
    && (regs[i].lastGroup != b.group || regs[i].lastPar != b.par)
    && (b.op != Some(IADD_RS) || i != 5)
  }

  // How many of the first k registers may be used.
  function Usable(ok: seq<bool>, k: nat): nat
    requires k <= |ok|
  {
    if k == 0 then 0 else Usable(ok, k - 1) + if ok[k - 1] then 1 else 0
  }

  // The usable registers in order.
  ghost predicate Lists(available: seq<Reg>, ok: seq<bool>, n: nat)
    requires n <= |ok| == 8
  {
    && |available| == Usable(ok, n)
    && (forall r: Reg :: r in available <==> r < n && ok[r])
    && (forall k :: 0 <= k < |available| ==> available[k] < n && Usable(ok, available[k]) == k)
  }

  // What a draw must pick: of several usable registers the one with as many usable
  // ones before it as the draw leaves modulo their number.
  ghost predicate Picked(ok: seq<bool>, tape: Tape, pos: nat, d: Drawn<Option<Reg>>)
    requires |ok| == 8
  {
    var n := Usable(ok, 8);
    if n > 1 && pos >= |tape| then d.Unfinished?
    else
      && d.Drew? && d.pos == (if n > 1 then pos + 1 else pos) && (d.value.Some? <==> n > 0)
      && (n > 0 ==> ok[d.value.value] && Usable(ok, d.value.value) == if n > 1 then tape[pos] % n else 0)
  }

  lemma UsableNext(ok: seq<bool>, k: nat)
    requires k < |ok|
    ensures Usable(ok, k + 1) == Usable(ok, k) + if ok[k] then 1 else 0
  {
  }

  // None: no register available in this cycle.
  method SelectRegister(available: seq<Reg>, ghost ok: seq<bool>, tape: Tape, pos: nat)
    returns (d: Drawn<Option<Reg>>)
    requires |ok| == 8 && Lists(available, ok, 8)
    ensures Picked(ok, tape, pos, d)
  {
    hide Usable;
    if available == [] { return Drew(None, pos); }
    if |available| == 1 { assert available[0] in available; return Drew(Some(available[0]), pos); }
    var x := Draw(tape, pos);
    if x.Unfinished? { return Unfinished; }
    var r := available[x.value % |available|];
    assert r in available;
    d := Drew(Some(r), x.pos);
  }

  function DestinationFlags(b: Building, cycle: nat, chained: bool, regs: Registers): (ok: seq<bool>)
    ensures |ok| == 8
  {
    seq(8, r requires 0 <= r < 8 => DestinationOk(b, cycle, chained, regs, r))
  }

  function SourceFlags(cycle: nat, regs: Registers): (ok: seq<bool>)
    ensures |ok| == 8
  {
    seq(8, r requires 0 <= r < 8 => regs[r].latency <= cycle)
  }

  // No usable register means none that is allowed.
  lemma {:induction false} NoneUsable(ok: seq<bool>, k: nat)
    requires k <= |ok|
    ensures Usable(ok, k) == 0 <==> forall r :: 0 <= r < k ==> !ok[r]
  {
    if k > 0 { NoneUsable(ok, k - 1); }
  }

  method SelectDestination(b: Building, cycle: nat, chained: bool, regs: Registers, tape: Tape, pos: nat)
    returns (d: Drawn<Option<Reg>>)
    ensures Picked(DestinationFlags(b, cycle, chained, regs), tape, pos, d)
    ensures d.Drew? ==>
              (if d.value.Some? then DestinationOk(b, cycle, chained, regs, d.value.value)
               else forall i: Reg :: !DestinationOk(b, cycle, chained, regs, i))
  {
    hide Usable;
    ghost var ok := DestinationFlags(b, cycle, chained, regs);
    NoneUsable(ok, 0);
    var available: seq<Reg> := [];
    for i := 0 to 8
      invariant Lists(available, ok, i)
    {
      UsableNext(ok, i);
      if DestinationOk(b, cycle, chained, regs, i) { available := available + [i]; }
    }
    d := SelectRegister(available, ok, tape, pos);
    NoneUsable(ok, 8);
    assert forall i: Reg :: DestinationOk(b, cycle, chained, regs, i) == ok[i];
  }

  // Is r one of exactly two registers that are ready?
  ghost predicate OneOfTwo(regs: Registers, cycle: nat, r: Reg) {
    && regs[r].latency <= cycle
    && exists i: Reg :: i != r && regs[i].latency <= cycle &&
         forall j: Reg :: regs[j].latency <= cycle ==> j == r || j == i
  }

  lemma OnlyTwo(regs: Registers, cycle: nat, r: Reg, available: seq<Reg>)
    requires OneOfTwo(regs, cycle, r) && Lists(available, SourceFlags(cycle, regs), 8)
    ensures |available| == 2 && (available[0] == r || available[1] == r)
  {
    hide Usable;
    var i: Reg :| i != r && regs[i].latency <= cycle &&
                  forall j: Reg :: regs[j].latency <= cycle ==> j == r || j == i;
    assert r in available && i in available;
    forall k | 0 <= k < |available| ensures available[k] == r || available[k] == i {
      assert available[k] in available;
    }
    var k := |available| - 1;
    var j := if k > 0 then 1 else 0;
    var ok := SourceFlags(cycle, regs);
    assert Usable(ok, available[0]) == 0 && Usable(ok, available[j]) == j && Usable(ok, available[k]) == k;
  }

  // A shifted addition takes register 5 whenever that is one of two.
  method SelectSource(b: Building, cycle: nat, regs: Registers, tape: Tape, pos: nat)
    returns (d: Drawn<Option<Reg>>)
    ensures d.Drew? ==>
              (if d.value.Some? then regs[d.value.value].latency <= cycle
               else forall i: Reg :: regs[i].latency > cycle)
    ensures if b.op == Some(IADD_RS) && OneOfTwo(regs, cycle, 5) then d == Drew(Some(5), pos)
            else Picked(SourceFlags(cycle, regs), tape, pos, d)
  {
    hide Usable;
    ghost var ok := SourceFlags(cycle, regs);
    NoneUsable(ok, 0);
    var available: seq<Reg> := [];
    for i := 0 to 8
      invariant Lists(available, ok, i)
    {
      UsableNext(ok, i);
      if regs[i].latency <= cycle { available := available + [i]; }
    }
    NoneUsable(ok, 8);
    if b.op == Some(IADD_RS) && OneOfTwo(regs, cycle, 5) { OnlyTwo(regs, cycle, 5, available); }
    if |available| == 2 && b.op == Some(IADD_RS) && (available[0] == 5 || available[1] == 5) {
      TwoListed(regs, cycle, available);
      return Drew(Some(5), pos);
    }
    d := SelectRegister(available, ok, tape, pos);
    assert forall i: Reg :: (regs[i].latency <= cycle) == ok[i];
  }

  lemma TwoListed(regs: Registers, cycle: nat, available: seq<Reg>)
    requires Lists(available, SourceFlags(cycle, regs), 8)
    requires |available| == 2 && (available[0] == 5 || available[1] == 5)
    ensures OneOfTwo(regs, cycle, 5)
  {
    hide Usable;
    assert available[0] in available && available[1] in available;
    var i := if available[0] == 5 then available[1] else available[0];
    assert Usable(SourceFlags(cycle, regs), available[0]) != Usable(SourceFlags(cycle, regs), available[1]);
    forall j: Reg | regs[j].latency <= cycle ensures j == 5 || j == i {
      assert j in available;
    }
  }

  // ---- one macro-operation ----

  type PortSlot = (nat, Port)

  datatype Gen = Gen(
    regs: Registers, cur: Building, opIndex: nat, cycle: nat, dep: nat, saturated: bool,
    program: seq<Instr>, muls: nat, bytes: nat, retire: nat, thrown: nat, pos: nat,
    claims: seq<PortSlot>,   // every port slot taken, in order
    issues: Log)             // every macro-operation issued, in order

  function SizeOf(b: Building): (n: nat)
    ensures n > 0 <==> b.op.Some?
  {
    |InfoOf(b.op).ops|
  }

  // What is known of an instruction before its macro-operation k.
  predicate CurrentOk(b: Building, k: nat) {
    -1 <= b.src < 8 && -1 <= b.dst < 8 &&
    (b.op.Some? && k < SizeOf(b) ==>
      && ImmediateOk(b.op.value, b.imm) && (TwoOperand(b.op.value) ==> !b.canReuse)
      && (k > InfoOf(b.op).dstOp ==> 0 <= b.dst))
  }

  // The table marks exactly the slots claimed, and no slot was claimed twice.
  ghost predicate Ledger(claims: seq<PortSlot>, t: Table) {
    && (forall i, j :: 0 <= i < j < |claims| ==> claims[i] != claims[j])
    && (forall c: nat, p: Port :: (c, p) in claims <==> c < |t| && Taken(t[c], p))
  }

  function MulsIn(p: seq<Instr>): nat {
    if p == [] then 0 else MulsIn(p[..|p| - 1]) + if IsMul(Some(p[|p| - 1].op)) then 1 else 0
  }

  // Macro-operations of a whole program.
  function OpsIn(p: seq<Instr>): nat {
    if p == [] then 0 else OpsIn(p[..|p| - 1]) + |InfoOf(Some(p[|p| - 1].op)).ops|
  }

  lemma CountedNext(p: seq<Instr>, i: Instr)
    ensures MulsIn(p + [i]) == MulsIn(p) + if IsMul(Some(i.op)) then 1 else 0
    ensures OpsIn(p + [i]) == OpsIn(p) + |InfoOf(Some(i.op)).ops|
  {
    assert (p + [i])[..|p|] == p;
  }

  // The counters agree with the program and the operations of the instruction in
  // progress; those of an instruction thrown away half-way stay counted.
  ghost predicate Counted(p: seq<Instr>, pending: nat, muls: nat, ops: nat) {
    muls == MulsIn(p) && ops >= OpsIn(p) + pending
  }

  function Pending(g: Gen): nat { if g.opIndex < SizeOf(g.cur) then g.opIndex else 0 }

  lemma CountOp(p: seq<Instr>, pending: nat, muls: nat, ops: nat)
    requires Counted(p, pending, muls, ops)
    ensures Counted(p, pending + 1, muls, ops + 1)
  {
  }

  lemma CountInstr(p: seq<Instr>, i: Instr, muls: nat, ops: nat)
    requires Counted(p, |InfoOf(Some(i.op)).ops|, muls, ops)
    ensures Counted(p + [i], 0, muls + if IsMul(Some(i.op)) then 1 else 0, ops)
  {
    CountedNext(p, i);
  }

  // An issue is what the instruction table says of its operation.
  ghost predicate FromTable(x: Issue) {
    var info := InfoOf(Some(x.op));
    && x.part < |info.ops| && x.mop == info.ops[x.part]
    && (x.source.Some? <==> x.part == info.srcOp) && (x.target.Some? <==> x.part == info.dstOp)
    && (x.result.Some? <==> x.part == info.resultOp) && (x.done.Some? <==> x.part + 1 == |info.ops|)
    && (x.done.Some? ==> x.done.value.op == x.op)
    && (x.source.Some? && x.done.Some? ==> x.done.value.src == x.source.value)
    && (x.result.Some? && x.done.Some? ==> x.done.value.dst == x.result.value)
    && (x.result.Some? && x.target.Some? ==> x.result == x.target)
  }

  // What is kept of a register is what the log gives.
  predicate Matches(x: RegisterInfo, log: Log, r: Reg) {
    x.latency == ReadyAt(log, r) && Key(x.lastGroup, x.lastPar) == KeyAt(log, r)
  }

  // The registers, the program and the claims are those the log gives.
  ghost predicate Logged(log: Log, regs: Registers, dep: nat, p: seq<Instr>, bytes: nat, claims: seq<PortSlot>) {
    && Timely(log) && (forall k :: 0 <= k < |log| ==> FromTable(log[k]))
    && (forall r: Reg :: Matches(regs[r], log, r)) && dep == EndsAt(log)
    && p == Finished(log) && bytes == Bytes(log)
    && |claims| == |Cycles(log)| && (forall k :: 0 <= k < |claims| ==> claims[k].0 == Cycles(log)[k])
  }

  // The instruction in progress has just had its previous part issued.
  predicate Midway(log: Log, b: Building, k: nat) {
    b.op.Some? && 0 < k < SizeOf(b) ==> log != [] && Last(log).op == b.op.value && Last(log).part == k - 1
  }

  ghost predicate Good(g: Gen, t: Table) {
    && |t| == CYCLES && Ledger(g.claims, t)
    && Counted(g.program, Pending(g), g.muls, |g.issues|)
    && Logged(g.issues, g.regs, g.dep, g.program, g.bytes, g.claims) && Midway(g.issues, g.cur, g.opIndex)
    && |g.program| <= MAX_SIZE && (forall i :: 0 <= i < |g.program| ==> Legal(g.program[i]))
    && CurrentOk(g.cur, g.opIndex) && (g.opIndex < SizeOf(g.cur) ==> |g.program| < MAX_SIZE)
    && g.thrown <= MAX_THROWN && g.retire == Retired(g.issues)
  }

  function ClaimsOf(c: nat, ps: seq<Port>): (s: seq<PortSlot>)
    ensures |s| == |ps| && forall k :: 0 <= k < |ps| ==> s[k] == (c, ps[k])
  {
    seq(|ps|, k requires 0 <= k < |ps| => (c, ps[k]))
  }

  lemma LedgerGrows(claims: seq<PortSlot>, t: Table, mop: MacroOp, c: nat)
    requires Ledger(claims, t) && Apart(mop.uop1, mop.uop2)
    ensures var ps := Ports(t, mop, c);
            Ledger(claims + ClaimsOf(c, ps), ClaimAll(t, c, ps))
  {
    hide ClaimAll, Ports, Taken;
    var ps := Ports(t, mop, c);
    var t' := ClaimAll(t, c, ps);
    var more := ClaimsOf(c, ps);
    if c < |t| {
      PortsFree(t, mop, c);
      forall n: nat, p: Port ensures (n, p) in claims + more <==> n < |t'| && Taken(t'[n], p) {
        if n < |t| { ClaimAllTakes(t, c, ps, n, p); }
        assert (n, p) in more <==> n == c && p in ps by { InMore(more, c, ps, n, p); }
      }
      forall k | 0 <= k < |more| ensures more[k] !in claims { assert more[k] == (c, ps[k]); }
      assert forall j, k :: 0 <= j < k < |more| ==> more[j] != more[k];
    } else {
      NoPorts(t, mop, c);
      assert claims + more == claims;
    }
  }

  lemma InMore(more: seq<PortSlot>, c: nat, ps: seq<Port>, n: nat, p: Port)
    requires |more| == |ps| && forall k :: 0 <= k < |ps| ==> more[k] == (c, ps[k])
    ensures (n, p) in more <==> n == c && p in ps
  {
    if n == c && p in ps {
      var k :| 0 <= k < |ps| && ps[k] == p;
      assert more[k] == (n, p);
    }
  }

  lemma NoPorts(t: Table, mop: MacroOp, c: nat)
    requires c >= |t|
    ensures Ports(t, mop, c) == [] && ClaimAll(t, c, []) == t
  {
  }

  // The result of looking a few cycles ahead for a register.
  datatype Search = Found(b: Building, sched: nat, cycle: nat, pos: nat) | Missing(cycle: nat, pos: nat) | Starved

  // The search and the cycle it starts from advance together.
  predicate Ahead(s: Search, sched: nat, cycle: nat) {
    match s
    case Found(_, later, c, _) => c - cycle == later - sched
    case Missing(c, _) => c == cycle + LOOK_FORWARD
    case Starved => true
  }

  method FindSource(b: Building, sched: nat, cycle: nat, regs: Registers, tape: Tape, from: nat) returns (s: Search)
    ensures s.Found? ==>
              && 0 <= s.b.src < 8 && s.b == b.(src := s.b.src, par := if b.parIsSource then s.b.src else b.par)
              && sched <= s.sched < sched + LOOK_FORWARD && regs[s.b.src].latency <= s.sched
              && (s.sched > sched ==> forall r: Reg :: regs[r].latency >= s.sched)
    ensures s.Missing? ==> forall r: Reg :: regs[r].latency >= sched + LOOK_FORWARD
    ensures Ahead(s, sched, cycle)
  {
    var forward, pos := 0, from;
    while forward < LOOK_FORWARD
      invariant forward > 0 ==> forall r: Reg :: regs[r].latency >= sched + forward
    {
      var d := SelectSource(b, sched + forward, regs, tape, pos);
      if d.Unfinished? { return Starved; }
      pos := d.pos;
      if d.value.Some? {
        var r := d.value.value;
        return Found(b.(src := r, par := if b.parIsSource then r else b.par), sched + forward, cycle + forward, pos);
      }
      forward := forward + 1;
    }
    s := Missing(cycle + LOOK_FORWARD, pos);
  }

  ghost predicate NoDestination(b: Building, cycle: nat, chained: bool, regs: Registers) {
    forall r: Reg :: !DestinationOk(b, cycle, chained, regs, r)
  }

  method FindDestination(b: Building, sched: nat, cycle: nat, chained: bool, regs: Registers, tape: Tape, from: nat)
    returns (s: Search)
    ensures s.Found? ==>
              && 0 <= s.b.dst < 8 && s.b == b.(dst := s.b.dst)
              && sched <= s.sched < sched + LOOK_FORWARD && DestinationOk(b, s.sched, chained, regs, s.b.dst)
    ensures s.Found? && s.sched > sched ==> NoDestination(b, s.sched - 1, chained, regs)
    ensures s.Missing? ==> NoDestination(b, sched + LOOK_FORWARD - 1, chained, regs)
    ensures Ahead(s, sched, cycle)
  {
    var forward, pos := 0, from;
    while forward < LOOK_FORWARD
      invariant forward <= LOOK_FORWARD
      invariant forward > 0 ==> NoDestination(b, sched + forward - 1, chained, regs)
    {
      var d := SelectDestination(b, sched + forward, chained, regs, tape, pos);
      if d.Unfinished? { return Starved; }
      pos := d.pos;
      if d.value.Some? {
        return Found(b.(dst := d.value.value), sched + forward, cycle + forward, pos);
      }
      forward := forward + 1;
    }
    s := Missing(cycle + LOOK_FORWARD, pos);
  }

  // Choose what macro-operation k needs; thereafter the operand rules hold for
  // the registers chosen so far.
  predicate ChosenOk(b: Building, k: nat) {
    && CurrentOk(b, k) && b.op.Some?
    && (k >= InfoOf(b.op).dstOp ==> 0 <= b.dst) && (k == InfoOf(b.op).srcOp ==> 0 <= b.src)
    && (TwoOperand(b.op.value) ==> b.src != b.dst && 0 <= b.src)
    && (b.op.value == IADD_RS ==> b.dst != 5)
  }

  // The registers operation k needs are ready in cycle c, and the destination may
  // be written.
  predicate InTime(b: Building, k: nat, regs: Registers, chained: bool, c: nat)
    requires ChosenOk(b, k)
  {
    && (k == InfoOf(b.op).srcOp ==> regs[b.src].latency <= c)
    && (k == InfoOf(b.op).dstOp ==> DestinationOk(b, c, chained, regs, b.dst))
  }

  // In none of the four cycles from c on is there a register for operation k: no
  // source, or no destination for some choice of the source.
  ghost predicate Lacking(b: Building, k: nat, regs: Registers, chained: bool, c: nat) {
    || (k == InfoOf(b.op).srcOp && forall r: Reg :: regs[r].latency >= c + LOOK_FORWARD)
    || (k == InfoOf(b.op).dstOp &&
          exists b': Building, c': nat :: c <= c' && b'.op == b.op && Unwritable(b', c', chained, regs))
  }

  ghost predicate Unwritable(b: Building, c: nat, chained: bool, regs: Registers) {
    NoDestination(b, c + LOOK_FORWARD - 1, chained, regs)
  }

  method ChooseOperands(g: Gen, sched: nat, tape: Tape) returns (s: Search)
    requires CurrentOk(g.cur, g.opIndex) && g.cur.op.Some? && g.opIndex < SizeOf(g.cur)
    ensures s.Found? ==>
              && s.b.op == g.cur.op && ChosenOk(s.b, g.opIndex)
              && sched <= s.sched < sched + 2 * LOOK_FORWARD && InTime(s.b, g.opIndex, g.regs, g.thrown > 0, s.sched)
    ensures s.Missing? ==> Lacking(g.cur, g.opIndex, g.regs, g.thrown > 0, sched)
    ensures !s.Starved? ==> s.cycle >= g.cycle
  {
    var info := InfoOf(g.cur.op);
    s := Found(g.cur, sched, g.cycle, g.pos);
    if g.opIndex == info.srcOp {
      s := FindSource(g.cur, sched, g.cycle, g.regs, tape, g.pos);
      if !s.Found? { return; }
    }
    if g.opIndex == info.dstOp {
      var b, c := s.b, s.sched;
      s := FindDestination(b, c, s.cycle, g.thrown > 0, g.regs, tape, s.pos);
      assert s.Missing? ==> Unwritable(b, c, g.thrown > 0, g.regs);
    }
  }

  function ToInstr(b: Building): Instr
    requires b.op.Some? && 0 <= b.dst < 8 && -1 <= b.src < 8
  {
    Instr(b.op.value, b.dst, if b.src >= 0 then b.src else b.dst, b.mod, b.imm)
  }

  datatype Next = Advance | Retry | Stop | Unanswered

  function IssueOf(b: Building, k: nat, at: nat, chained: bool): Issue
    requires ChosenOk(b, k) && k < SizeOf(b)
  {
    var info := InfoOf(b.op);
    Issue(b.op.value, k, info.ops[k], at, Key(b.group, b.par), chained,
          if k == info.srcOp then Some(b.src) else None, if k == info.dstOp then Some(b.dst) else None,
          if k == info.resultOp then Some(b.dst) else None,
          if k + 1 == |info.ops| then Some(ToInstr(b)) else None)
  }

  lemma IssueFits(log: Log, b: Building, k: nat, regs: Registers, dep: nat, at: nat, chained: bool, sched: nat)
    requires ChosenOk(b, k) && k < SizeOf(b) && InTime(b, k, regs, chained, sched) && sched <= at && Midway(log, b, k)
    requires InfoOf(b.op).ops[k].dependent ==> dep <= sched
    requires (forall r: Reg :: Matches(regs[r], log, r)) && dep == EndsAt(log)
    ensures OnTime(log, IssueOf(b, k, at, chained)) && FromTable(IssueOf(b, k, at, chained))
  {
    hide ReadyAt, KeyAt;
    if k == InfoOf(b.op).srcOp { assert Matches(regs[b.src], log, b.src); }
    if k == InfoOf(b.op).dstOp { assert Matches(regs[b.dst], log, b.dst); }
  }

  lemma LogNext(log: Log, regs: Registers, dep: nat, p: seq<Instr>, bytes: nat, claims: seq<PortSlot>,
                x: Issue, more: seq<PortSlot>, regs': Registers)
    requires Logged(log, regs, dep, p, bytes, claims) && OnTime(log, x) && FromTable(x)
    requires |more| == Uops(x.mop) && forall k :: 0 <= k < |more| ==> more[k].0 == x.cycle
    requires forall r: Reg ::
               regs'[r] == if x.result == Some(r) then RegisterInfo(x.cycle + x.mop.latency, x.key.group, x.key.par)
                           else regs[r]
    ensures Logged(log + [x], regs', x.cycle + x.mop.latency, p + (if x.done.Some? then [x.done.value] else []),
                   bytes + x.mop.size, claims + more)
  {
    hide Timely, OnTime, FromTable, Finished, Bytes, Cycles, EndsAt, ReadyAt, KeyAt;
    LogGrows(log, x);
    forall r: Reg ensures Matches(regs'[r], log + [x], r) {
      assert Matches(regs[r], log, r);
      ReadyNext(log, x, r);
    }
  }

  lemma IssueIs(b: Building, k: nat, at: nat, chained: bool)
    requires ChosenOk(b, k) && k < SizeOf(b)
    ensures var x, info := IssueOf(b, k, at, chained), InfoOf(b.op);
            && x.op == b.op.value && x.part == k && x.mop == info.ops[k]
            && x.cycle == at && x.key == Key(b.group, b.par)
            && x.result == (if k == info.resultOp then Some(b.dst) else None)
            && x.done == (if k + 1 == SizeOf(b) then Some(ToInstr(b)) else None)
  {
  }

  lemma LoggedTimes(log: Log, regs: Registers, dep: nat, p: seq<Instr>, bytes: nat, claims: seq<PortSlot>)
    requires Logged(log, regs, dep, p, bytes, claims)
    ensures (forall r: Reg :: Matches(regs[r], log, r)) && dep == EndsAt(log)
  {
  }

  lemma NowMidway(log: Log, b: Building, k: nat, x: Issue)
    requires b.op.Some? && x.op == b.op.value && x.part == k
    ensures Midway(log + [x], b, k + 1) && Last(log + [x]) == x
  {
  }

  // The state after macro-operation g.opIndex was given cycle `at` and ports ps.
  function Committed(g: Gen, at: nat, ps: seq<Port>, chained: bool): Gen
    requires g.opIndex < SizeOf(g.cur) && ChosenOk(g.cur, g.opIndex)
  {
    var info := InfoOf(g.cur.op);
    var mop, whole := info.ops[g.opIndex], g.opIndex + 1 == SizeOf(g.cur);
    var dep, gives := at + mop.latency, g.opIndex == info.resultOp;
    g.(claims := g.claims + ClaimsOf(at, ps), dep := dep, opIndex := g.opIndex + 1,
       saturated := g.saturated || at >= LATENCY, bytes := g.bytes + mop.size,
       issues := g.issues + [IssueOf(g.cur, g.opIndex, at, chained)],
       regs := if gives then g.regs[g.cur.dst := RegisterInfo(dep, g.cur.group, g.cur.par)] else g.regs,
       retire := if gives then dep else g.retire,
       program := if whole then g.program + [ToInstr(g.cur)] else g.program,
       muls := g.muls + if whole && IsMul(g.cur.op) then 1 else 0)
  }

  lemma CommittedCounts(g: Gen, at: nat, ps: seq<Port>, chained: bool)
    requires g.opIndex < SizeOf(g.cur) && ChosenOk(g.cur, g.opIndex)
    requires Counted(g.program, Pending(g), g.muls, |g.issues|)
    ensures var g' := Committed(g, at, ps, chained); Counted(g'.program, Pending(g'), g'.muls, |g'.issues|)
  {
    hide Counted, InfoOf, IssueOf, IsMul;
    CountOp(g.program, g.opIndex, g.muls, |g.issues|);
    if g.opIndex + 1 == SizeOf(g.cur) { CountInstr(g.program, ToInstr(g.cur), g.muls, |g.issues| + 1); }
  }

  lemma CommittedRules(g: Gen, at: nat, ps: seq<Port>, chained: bool)
    requires g.opIndex < SizeOf(g.cur) && ChosenOk(g.cur, g.opIndex) && |g.program| < MAX_SIZE
    requires forall i :: 0 <= i < |g.program| ==> Legal(g.program[i])
    ensures var g' := Committed(g, at, ps, chained);
            && |g'.program| <= MAX_SIZE && (forall i :: 0 <= i < |g'.program| ==> Legal(g'.program[i]))
            && CurrentOk(g'.cur, g'.opIndex) && (g'.opIndex < SizeOf(g'.cur) ==> |g'.program| < MAX_SIZE)
  {
    hide Legal, IssueOf;
    if g.opIndex + 1 == SizeOf(g.cur) { ChosenLegal(g.cur, g.opIndex); }
  }

  lemma CommittedRetires(g: Gen, at: nat, ps: seq<Port>, chained: bool)
    requires g.opIndex < SizeOf(g.cur) && ChosenOk(g.cur, g.opIndex) && g.retire == Retired(g.issues)
    ensures var g' := Committed(g, at, ps, chained); g'.retire == Retired(g'.issues)
  {
    hide IssueOf, ChosenOk, InfoOf, IsMul;
    IssueIs(g.cur, g.opIndex, at, chained);
    LogGrows(g.issues, IssueOf(g.cur, g.opIndex, at, chained));
  }

  lemma CommittedGood(g: Gen, t: Table, at: nat, sched: nat, ps: seq<Port>, chained: bool)
    requires Good(g, t) && g.opIndex < SizeOf(g.cur) && ChosenOk(g.cur, g.opIndex)
    requires InTime(g.cur, g.opIndex, g.regs, chained, sched) && sched <= at
    requires var mop := InfoOf(g.cur.op).ops[g.opIndex];
             && (mop.dependent ==> g.dep <= sched) && |ps| == Uops(mop) && ps == Ports(t, mop, at)
    ensures Good(Committed(g, at, ps, chained), ClaimAll(t, at, ps))
  {
    hide Ledger, Legal, CurrentOk, ClaimAll, Ports, Counted, Logged, IssueOf, Midway, InTime, InfoOf, IsMul, Pending;
    hide Retired, ToInstr, ChosenOk;
    var mop, g' := InfoOf(g.cur.op).ops[g.opIndex], Committed(g, at, ps, chained);
    LedgerGrows(g.claims, t, mop, at);
    CommittedCounts(g, at, ps, chained);
    CommittedRules(g, at, ps, chained);
    CommittedRetires(g, at, ps, chained);
    CommitLogs(g, IssueOf(g.cur, g.opIndex, at, chained), mop, at, chained, sched, ps, g'.regs);
  }

  // Commit macro-operation g.opIndex of an instruction whose operands are chosen.
  method Commit(g: Gen, sched: nat, chained: bool, busy: array<Slots>) returns (g': Gen, next: Next)
    requires Good(g, busy[..]) && g.opIndex < SizeOf(g.cur) && ChosenOk(g.cur, g.opIndex)
    requires InTime(g.cur, g.opIndex, g.regs, chained, sched)
    requires InfoOf(g.cur.op).ops[g.opIndex].dependent ==> g.dep <= sched
    modifies busy
    ensures Good(g', busy[..]) && (next.Advance? || next.Stop?)
    ensures next.Advance? ==>
              && g'.thrown == g.thrown && |g'.issues| == |g.issues| + 1
              && g'.issues == g.issues + [IssueOf(g.cur, g.opIndex, Last(g'.issues).cycle, chained)]
              && (g'.saturated <==> g.saturated || Last(g'.issues).cycle >= LATENCY) && Last(g'.issues).cycle >= sched
    ensures next.Stop? ==>
              && g' == g.(saturated := true) && busy[..] == old(busy[..])
              && MopFit(busy[..], InfoOf(g.cur.op).ops[g.opIndex], sched) < 0
  {
    hide Good, ClaimAll, MopFit, Ports, InTime, ChosenOk, InfoOf;
    var mop := InfoOf(g.cur.op).ops[g.opIndex];
    var t := busy[..];
    var at := ScheduleMop(mop, busy, sched, sched, true);
    if at < 0 {
      SaturatedGood(g, t);
      return g.(saturated := true), Stop;
    }
    MopFitAfter(t, mop, sched);
    var ps := Ports(t, mop, at);
    CommittedGood(g, t, at, sched, ps, chained);
    g', next := Committed(g, at, ps, chained), Advance;
  }

  lemma SaturatedGood(g: Gen, t: Table)
    requires Good(g, t)
    ensures Good(g.(saturated := true), t)
  {
  }

  lemma CommitLogs(g: Gen, x: Issue, mop: MacroOp, at: nat, chained: bool, sched: nat, ps: seq<Port>,
                   regs': Registers)
    requires g.opIndex < SizeOf(g.cur) && ChosenOk(g.cur, g.opIndex) && x == IssueOf(g.cur, g.opIndex, at, chained)
    requires mop == InfoOf(g.cur.op).ops[g.opIndex]
    requires Logged(g.issues, g.regs, g.dep, g.program, g.bytes, g.claims) && Midway(g.issues, g.cur, g.opIndex)
    requires InTime(g.cur, g.opIndex, g.regs, chained, sched) && sched <= at
    requires mop.dependent ==> g.dep <= sched
    requires |ps| == Uops(mop)
    requires regs' == if g.opIndex == InfoOf(g.cur.op).resultOp
                      then g.regs[g.cur.dst := RegisterInfo(at + mop.latency, g.cur.group, g.cur.par)] else g.regs
    ensures Logged(g.issues + [x], regs', at + mop.latency,
                   if g.opIndex + 1 == SizeOf(g.cur) then g.program + [ToInstr(g.cur)] else g.program,
                   g.bytes + mop.size, g.claims + ClaimsOf(at, ps))
    ensures Midway(g.issues + [x], g.cur, g.opIndex + 1)
    ensures Last(g.issues + [x]) == x && x.cycle == at && x.mop == mop
  {
    hide InfoOf, ReadyAt, FromTable, OnTime, Logged, IssueOf, InTime, ChosenOk, Midway;
    LoggedTimes(g.issues, g.regs, g.dep, g.program, g.bytes, g.claims);
    IssueIs(g.cur, g.opIndex, at, chained);
    NowMidway(g.issues, g.cur, g.opIndex, x);
    IssueFits(g.issues, g.cur, g.opIndex, g.regs, g.dep, at, chained, sched);
    LogNext(g.issues, g.regs, g.dep, g.program, g.bytes, g.claims, x, ClaimsOf(at, ps), regs');
    assert g.program + [] == g.program;
  }

  lemma ChosenLegal(b: Building, k: nat)
    requires ChosenOk(b, k) && k < SizeOf(b) && k >= InfoOf(b.op).dstOp
    ensures 0 <= b.dst < 8 && Legal(ToInstr(b))
  {
  }

  // Operation g.opIndex finds a cycle but lacks a register there.
  ghost predicate Wanting(g: Gen, t: Table)
    requires g.opIndex < SizeOf(g.cur)
  {
    var mop := InfoOf(g.cur.op).ops[g.opIndex];
    var c := MopFit(t, mop, Start(mop, g.cycle, g.dep));
    c >= 0 && Lacking(g.cur, g.opIndex, g.regs, g.thrown > 0, c)
  }

  // No cycle is left for operation g.opIndex, or none near the one found.
  ghost predicate Crowded(g: Gen, t: Table)
    requires g.opIndex < SizeOf(g.cur)
  {
    var mop := InfoOf(g.cur.op).ops[g.opIndex];
    var c := MopFit(t, mop, Start(mop, g.cycle, g.dep));
    c < 0 || exists d: nat :: c <= d < c + 2 * LOOK_FORWARD && MopFit(t, mop, d) < 0
  }

  // Issue operation g.opIndex, throw the instruction away for want of a register, or
  // end the cycle: because the ports are saturated or too many were thrown away.
  method Place(g: Gen, busy: array<Slots>, tape: Tape) returns (g': Gen, next: Next)
    requires Good(g, busy[..]) && g.cur.op.Some? && g.opIndex < SizeOf(g.cur)
    modifies busy
    ensures !next.Unanswered? ==> Good(g', busy[..])
    ensures next.Retry? ==> g'.thrown == g.thrown + 1
    ensures next.Advance? ==>
              |g'.issues| == |g.issues| + 1 && g.issues < g'.issues && Last(g'.issues).cycle >= g.cycle
    ensures !next.Advance? ==> g'.issues == g.issues
    ensures next.Stop? ==> g'.saturated || (g'.cur == NULL && g.thrown == MAX_THROWN)
    ensures next.Retry? || (next.Stop? && !g'.saturated) ==> Wanting(g, old(busy[..]))
    ensures g'.saturated && !g.saturated ==>
              if next.Advance? then Last(g'.issues).cycle >= LATENCY else Crowded(g, old(busy[..]))
    ensures g'.cycle >= g.cycle && (next.Advance? ==> g'.cycle == g.cycle && g'.thrown == 0)
  {
    hide Good, InfoOf, MopFit, InTime, IssueOf, Lacking, ChosenOk, CurrentOk, Start;
    InProgress(g, busy[..]);
    var mop := InfoOf(g.cur.op).ops[g.opIndex];
    ghost var t := busy[..];
    var sched := ScheduleMop(mop, busy, g.cycle, g.dep, false);
    if sched < 0 {
      SaturatedGood(g, t);
      return g.(saturated := true), Stop;
    }
    MopFitAfter(t, mop, Start(mop, g.cycle, g.dep));
    var s := ChooseOperands(g, sched, tape);
    if s.Starved? { return g, Unanswered; }
    if s.Missing? {
      ThrownGood(g, t, s.cycle, s.pos);
      if g.thrown < MAX_THROWN {
        return g.(thrown := g.thrown + 1, opIndex := SizeOf(g.cur), cycle := s.cycle, pos := s.pos), Retry;
      }
      return g.(cur := NULL, cycle := s.cycle, pos := s.pos), Stop;
    }
    ChosenGood(g, t, s.b, s.pos);
    g', next := Commit(g.(cur := s.b, pos := s.pos, thrown := 0), s.sched, g.thrown > 0, busy);
    // the look-ahead does not outlast the operation
    var back := if next.Advance? then g.cycle else s.cycle;
    CycleIrrelevant(g', back, busy[..]);
    g' := g'.(cycle := back);
  }

  // The state in which the operation that is due is placed: the instruction in
  // progress goes on, or a new one begins.
  ghost predicate Begins(g: Gen, h: Gen) {
    && h.cur.op.Some? && h.opIndex < SizeOf(h.cur)
    && if g.opIndex < SizeOf(g.cur) then h == g else h == g.(cur := h.cur, opIndex := 0, pos := h.pos)
  }

  // One turn of the inner loop.
  method OneMop(g: Gen, busy: array<Slots>, slot: nat, index: nat, last: bool, tape: Tape) returns (g': Gen, next: Next)
    requires Good(g, busy[..]) && slot in {3, 4, 7, 8, 9, 10}
    modifies busy
    ensures !next.Unanswered? ==> Good(g', busy[..])
    ensures next.Retry? ==> g'.thrown == g.thrown + 1
    ensures next.Advance? ==>
              |g'.issues| == |g.issues| + 1 && g.issues < g'.issues && Last(g'.issues).cycle >= g.cycle
    ensures !next.Advance? ==> g'.issues == g.issues
    ensures next.Stop? ==> g'.saturated || |g'.program| >= MAX_SIZE || (g'.cur == NULL && g.thrown == MAX_THROWN)
    ensures next.Retry? || (next.Stop? && !g'.saturated && |g'.program| < MAX_SIZE) ==>
              exists h: Gen :: Begins(g, h) && Wanting(h, old(busy[..]))
    ensures g'.saturated && !g.saturated ==>
              if next.Advance? then Last(g'.issues).cycle >= LATENCY
              else exists h: Gen :: Begins(g, h) && Crowded(h, old(busy[..]))
    ensures g'.cycle >= g.cycle && (next.Advance? ==> g'.cycle == g.cycle && g'.thrown == 0)
  {
    hide Good, InfoOf, Created, SlotOps, Wanting, Crowded, CurrentOk;
    g' := g;
    if g.opIndex >= SizeOf(g.cur) {
      if g.saturated || |g.program| >= MAX_SIZE { return g, Stop; }
      var d := CreateForSlot(slot, index, last, g.cur, tape, g.pos);
      if d.Unfinished? { return g, Unanswered; }
      g' := g.(cur := d.value, opIndex := 0, pos := d.pos);
      BeginGood(g, busy[..], d.value, d.pos);
    }
    InProgress(g', busy[..]);
    assert Begins(g, g');
    g', next := Place(g', busy, tape);
  }

  lemma BeginGood(g: Gen, t: Table, b: Building, pos: nat)
    requires Good(g, t) && g.opIndex >= SizeOf(g.cur) && |g.program| < MAX_SIZE
    requires b.op.Some? && Created(b.op.value, g.cur, b)
    ensures Good(g.(cur := b, opIndex := 0, pos := pos), t)
  {
    hide Ledger, Legal, ImmediateOk, InfoOf, Logged, Counted;
  }

  lemma InProgress(g: Gen, t: Table)
    requires Good(g, t)
    ensures CurrentOk(g.cur, g.opIndex) && g.thrown <= MAX_THROWN
  {
  }

  lemma ThrownGood(g: Gen, t: Table, cycle: nat, pos: nat)
    requires Good(g, t) && g.cur.op.Some? && g.opIndex < SizeOf(g.cur)
    ensures g.thrown < MAX_THROWN ==>
              Good(g.(thrown := g.thrown + 1, opIndex := SizeOf(g.cur), cycle := cycle, pos := pos), t)
    ensures Good(g.(cur := NULL, cycle := cycle, pos := pos), t)
  {
    hide Ledger, Legal, ImmediateOk, InfoOf, Logged;
    assert SizeOf(NULL) == 0;
  }

  lemma ChosenGood(g: Gen, t: Table, b: Building, pos: nat)
    requires Good(g, t) && g.opIndex < SizeOf(g.cur) && b.op == g.cur.op && ChosenOk(b, g.opIndex)
    ensures Good(g.(cur := b, pos := pos, thrown := 0), t)
  {
    hide Ledger, Legal, ImmediateOk, InfoOf, Logged, Counted;
  }

  // One decode cycle: the slots of a buffer in turn. A slot is left by filling it
  // or retried with one more instruction thrown away, at most 256 in a row. Unless
  // the generation is over or that limit is hit, every slot is filled.
  method DecodeCycle(g: Gen, busy: array<Slots>, buffer: Buffer, tape: Tape)
    returns (g': Gen, finished: bool, aborted: bool)
    requires Good(g, busy[..]) && forall j :: 0 <= j < |buffer.counts| ==> buffer.counts[j] in {3, 4, 7, 8, 9, 10}
    modifies busy
    ensures finished ==> Good(g', busy[..]) && g.issues <= g'.issues
    ensures finished ==>
              aborted || g'.saturated || |g'.program| >= MAX_SIZE || |g'.issues| == |g.issues| + |buffer.counts|
    ensures finished && aborted ==> g'.cur == NULL
    ensures |g'.issues| <= |g.issues| + |buffer.counts|
    ensures g'.cycle >= g.cycle && NotBefore(g'.issues, |g.issues|, g.cycle)
  {
    hide Good;
    InProgress(g, busy[..]);
    g', aborted := g, false;
    var i := 0;
    while i < |buffer.counts|
      invariant i <= |buffer.counts| && Good(g', busy[..]) && g'.thrown <= MAX_THROWN && !aborted
      invariant g.issues <= g'.issues && |g'.issues| == |g.issues| + i
      invariant g'.cycle >= g.cycle && NotBefore(g'.issues, |g.issues|, g.cycle)
      decreases |buffer.counts| - i, MAX_THROWN - g'.thrown
    {
      var next;
      g', next := OneMop(g', busy, buffer.counts[i], buffer.index, i + 1 == |buffer.counts|, tape);
      if next.Unanswered? { return g', false, false; }
      if next.Stop? {
        aborted := !g'.saturated && |g'.program| < MAX_SIZE;
        return g', true, aborted;
      }
      assert g'.thrown <= MAX_THROWN by { InProgress(g', busy[..]); }
      if next.Advance? { i := i + 1; }
    }
    finished := true;
  }

  // The operations from number `from` on are issued in cycle c or later.
  predicate NotBefore(log: Log, from: nat, c: nat) {
    forall k :: from <= k < |log| ==> log[k].cycle >= c
  }

  // A decode cycle fills at most four slots, and none in an earlier cycle.
  predicate Paced(log: Log) {
    forall k :: 0 <= k < |log| ==> log[k].cycle >= k / 4
  }

  lemma PacedNext(log: Log, more: Log, c: nat)
    requires Paced(log) && log <= more && |more| <= 4 * (c + 1) && NotBefore(more, |log|, c)
    ensures Paced(more)
  {
    forall k | 0 <= k < |more| ensures more[k].cycle >= k / 4 {
      if k < |log| { assert more[k] == log[k]; }
    }
  }

  // The program with its statistics, the port slots it took and its log; `aborted`
  // counts the decode cycles cut short by throwing instructions away.
  datatype Product = Product(
    program: seq<Instr>, muls: nat, bytes: nat, decodeCycles: nat, latency: nat, latencies: seq<nat>,
    claims: seq<PortSlot>, issues: Log, saturated: bool, aborted: nat)

  function ProductOf(g: Gen, decode: nat, latencies: seq<nat>, aborted: nat): Product {
    Product(g.program, g.muls, g.bytes, decode, g.retire, latencies, g.claims, g.issues, g.saturated, aborted)
  }

  // What every finished generation satisfies, whatever the answers.
  ghost predicate Sound(r: Product) {
    // the program fits and obeys the operand rules
    && |r.program| <= MAX_SIZE && (forall i :: 0 <= i < |r.program| ==> Legal(r.program[i]))
    // it consists of the instructions completed, each scheduled in time
    && r.program == Finished(r.issues) && Timely(r.issues)
    && (forall k :: 0 <= k < |r.issues| ==> FromTable(r.issues[k]))
    // no port slot is taken twice, and each operation takes its own in its cycle
    && (forall i, j :: 0 <= i < j < |r.claims| ==> r.claims[i] != r.claims[j])
    && (forall i :: 0 <= i < |r.claims| ==> r.claims[i].0 < CYCLES)
    && |r.claims| == |Cycles(r.issues)| && (forall k :: 0 <= k < |r.claims| ==> r.claims[k].0 == Cycles(r.issues)[k])
    // the statistics are those of the log
    && r.muls == MulsIn(r.program) && r.bytes == Bytes(r.issues) && |r.issues| >= OpsIn(r.program)
    && |r.latencies| == 8 && (forall k: Reg :: r.latencies[k] == ReadyAt(r.issues, k)) && r.latency == Retired(r.issues)
    // it ends only when the cycles, the ports or the room are used up, and until
    // then every cycle that is not cut short issues at least three operations
    && r.decodeCycles <= LATENCY && r.aborted <= r.decodeCycles
    && (r.decodeCycles == LATENCY || r.saturated || |r.program| == MAX_SIZE)
    && 3 * (r.decodeCycles - r.aborted) <= |r.issues| + 3 && |r.issues| <= 4 * r.decodeCycles && Paced(r.issues)
  }

  method GenerateSuperscalar(tape: Tape) returns (r: Option<Product>)
    ensures r.Some? ==> Sound(r.value)
  {
    hide Good, Sound;
    var busy := new Slots[CYCLES](_ => Slots(false, false, false));
    var g := Gen(seq(8, _ => RegisterInfo(0, None, -1)), NULL, 0, 0, 0, false, [], 0, 0, 0, 0, 0, [], []);
    assert Good(g, busy[..]) by { StartGood(g, busy[..]); }
    var decode, aborted := 0, 0;
    while decode < LATENCY && !g.saturated && |g.program| < MAX_SIZE
      invariant Good(g, busy[..]) && fresh(busy) && aborted <= decode <= LATENCY
      invariant decode <= g.cycle && |g.issues| <= 4 * decode && Paced(g.issues)
      invariant if g.saturated || |g.program| >= MAX_SIZE then 3 * (decode - aborted) <= |g.issues| + 3
                else 3 * (decode - aborted) <= |g.issues|
      decreases LATENCY - decode
    {
      var b := FetchNext(g.cur.op, decode, g.muls, tape, g.pos);
      if b.Unfinished? { return None; }
      var finished, cut;
      ghost var log := g.issues;
      PosIrrelevant(g, b.pos, busy[..]);
      g, finished, cut := DecodeCycle(g.(pos := b.pos), busy, BufferAt(b.value), tape);
      if !finished { return None; }
      PacedNext(log, g.issues, decode);
      CycleIrrelevant(g, g.cycle + 1, busy[..]);
      g := g.(cycle := g.cycle + 1);
      decode, aborted := decode + 1, aborted + if cut then 1 else 0;
    }
    var latencies := seq(8, k requires 0 <= k < 8 => g.regs[k].latency);
    GoodMeans(g, busy[..], decode, aborted, latencies);
    r := Some(ProductOf(g, decode, latencies, aborted));
  }

  lemma StartGood(g: Gen, t: Table)
    requires g.cur == NULL && g.opIndex == g.thrown == g.muls == g.dep == g.bytes == g.retire == 0
    requires g.program == [] && g.claims == [] && g.issues == [] && |t| == CYCLES
    requires forall r: Reg :: g.regs[r] == RegisterInfo(0, None, -1)
    requires forall c :: 0 <= c < |t| ==> t[c] == Slots(false, false, false)
    ensures Good(g, t)
  {
  }

  lemma PosIrrelevant(g: Gen, pos: nat, t: Table)
    requires Good(g, t)
    ensures Good(g.(pos := pos), t)
  {
  }

  lemma CycleIrrelevant(g: Gen, cycle: nat, t: Table)
    requires Good(g, t)
    ensures Good(g.(cycle := cycle), t)
  {
  }

  lemma GoodMeans(g: Gen, t: Table, decode: nat, aborted: nat, latencies: seq<nat>)
    requires Good(g, t) && aborted <= decode <= LATENCY && 3 * (decode - aborted) <= |g.issues| + 3
    requires |g.issues| <= 4 * decode && Paced(g.issues)
    requires decode == LATENCY || g.saturated || |g.program| >= MAX_SIZE
    requires |latencies| == 8 && forall k: Reg :: latencies[k] == g.regs[k].latency
    ensures Sound(ProductOf(g, decode, latencies, aborted))
  {
    hide Timely, Finished, Bytes, Cycles, ReadyAt, Retired, FromTable, Legal, MulsIn, OpsIn;
    forall i | 0 <= i < |g.claims| ensures g.claims[i].0 < CYCLES {
      assert (g.claims[i].0, g.claims[i].1) in g.claims;
    }
  }

  // ---- the address register ----

  function Max(a: nat, b: nat): nat { if a < b then b else a }

  // Length of the longest dependency chain ending in register r after n
  // instructions, one step each.
  function Depth(p: seq<Instr>, n: nat, r: Reg): nat
    requires n <= |p|
  {
    if n == 0 then 0
    else
      var i := p[n - 1];
      if i.dst != r then Depth(p, n - 1, r)
      else Max(Depth(p, n - 1, r) + 1, if i.src != i.dst then Depth(p, n - 1, i.src) + 1 else 0)
  }

  // The first register with the longest chain.
  method AddressRegister(p: seq<Instr>) returns (address: Reg)
    ensures forall r: Reg :: Depth(p, |p|, r) <= Depth(p, |p|, address)
    ensures forall r: Reg :: r < address ==> Depth(p, |p|, r) < Depth(p, |p|, address)
  {
    var latency := new nat[8](_ => 0);
    for n := 0 to |p|
      invariant forall r: Reg :: latency[r] == Depth(p, n, r)
    {
      var i := p[n];
      latency[i.dst] := Max(latency[i.dst] + 1, if i.src != i.dst then latency[i.src] + 1 else 0);
    }
    address := 0;
    var longest: nat := 0;
    for k := 0 to 8
      invariant forall r: Reg :: r < k ==> latency[r] <= longest
      invariant longest == 0 ==> address == 0
      invariant longest > 0 ==> longest == latency[address] && forall r: Reg :: r < address ==> latency[r] < longest
    {
      if latency[k] > longest { longest, address := latency[k], k; }
    }
  }
}
