// A full-length program on which scheduled code and interpreter disagree: the
// branch's last writer by footprint is a reciprocal multiply that compiles to
// nothing. The first five instructions do the work, the rest are idle.
module Divergence {
  import opened Words
  import opened Arith
  import opened Reciprocal
  import opened Vm
  import opened Footprint
  import opened Interpreter
  import opened Reorder
  import opened Replay
  import opened Scheduler
  import opened Padding

  const MUL01: Instr := Instr(IMUL_R, 0, 1, 0, 0)
  const SUB20: Instr := Instr(ISUB_R, 2, 0, 0, 0)
  const NEG3: Instr := Instr(INEG_R, 3, 4, 0, 0)
  const RCP3: Instr := Instr(IMUL_RCP, 3, 4, 0, 0)
  const BRANCH3: Instr := Instr(CBRANCH, 3, 4, 0, 0)

  const HEAD: Program := [MUL01, SUB20, NEG3, RCP3, BRANCH3]
  const SWAPPED: Program := [MUL01, NEG3, SUB20, RCP3, BRANCH3]

  lemma AnchorOfHead()
    ensures AnchorOf(HEAD, 4) == 3 && !AnchorReal(HEAD, 4)
  {
    var p := HEAD;
    assert DomainStart(p, 4) == 0 by {
      assert DomainStart(p, 0) == 0;
      assert DomainStart(p, 1) == 0;
      assert DomainStart(p, 2) == 0;
      assert DomainStart(p, 3) == 0;
    }
    assert p[3] == RCP3 && p[4] == BRANCH3;
  }

  lemma OnlyAnchor()
    ensures AnchorOf(HEAD, 4) == 3 && !AnchorReal(HEAD, 4)
    ensures forall j: nat :: IsAnchor(HEAD, j) <==> j == 3
  {
    hide AnchorOf, AnchorReal;
    AnchorOfHead();
    forall j: nat ensures IsAnchor(HEAD, j) <==> j == 3 {
      assert HEAD[4].op == CBRANCH && AnchorOf(HEAD, 4) == 3;
    }
  }

  lemma PlanOfHead()
    ensures Plan(HEAD, 0, -1) == [0, 2, 1, 3, 4]
  {
    hide IsAnchor;
    var p := HEAD;
    OnlyAnchor();
    HazardsOfHead();
    assert Movable(p, 1) && Movable(p, 2) && !FootprintOf(p[3]).barrier;
    assert Block(p, 0, -1) == [0, 2, 1];
    assert Block(p, 3, -1) == [3];
    assert Block(p, 4, -1) == [4];
    assert Plan(p, 4, -1) == [4] + Plan(p, 5, -1);
    assert Plan(p, 3, -1) == [3] + Plan(p, 4, -1);
  }

  lemma HazardsOfHead()
    ensures Hazard(MUL01, SUB20) && !Hazard(MUL01, NEG3) && !Hazard(SUB20, NEG3)
    ensures FootprintOf(MUL01).longLatency && !FootprintOf(SUB20).barrier && !FootprintOf(NEG3).barrier
  {
    assert 0 in FootprintOf(MUL01).intWrite * FootprintOf(SUB20).intRead;
  }

  // A state with r0 = r1 = 1 and the given r2, r3; the rest is s.
  function With(s: State, r2: Word, r3: Word): State {
    s.(r := [1, 1, r2, r3, 0, 0, 0, 0])
  }

  lemma Targets()
    ensures Target(HEAD, 4) == 2 && Target(SWAPPED, 4) == 1
  {
    assert !Records(RCP3, 3) && Records(NEG3, 3) && !Records(SUB20, 3);
    LastWriterIs(HEAD, 3, 4, 2);
    LastWriterIs(SWAPPED, 3, 4, 1);
  }

  lemma BranchValues()
    ensures BranchImm(BRANCH3) == 256
    ensures Taken(BRANCH3, 0) && !Taken(BRANCH3, 256)
  {
    assert Pow2(7) == 128 && Pow2(8) == 256;
    assert BranchShift(BRANCH3) == 8 && SignExtend(0) == 0;
    assert Bit(0, 8) == 0 && SetBit(0, 8) == 256;
    assert 256 / 128 == 2;
    assert Bit(256, 7) == 0 && ClearBit(256, 7) == 256;
  }

  lemma BranchEffect(s: State, a: Word, b: Word)
    ensures BranchAdd(BRANCH3, With(s, a, b)) == With(s, a, Add(b, 256))
  {
    hide BranchImm, Taken;
    BranchValues();
  }

  lemma QuietEffect(m: Machine, s: State, a: Word, b: Word)
    ensures Exec(m, MUL01, With(s, a, b)) == With(s, a, b) == Exec(m, RCP3, With(s, a, b))
  {
    hide LoadInt, LoadPair, Lift2;
  }

  lemma SubEffect(m: Machine, s: State, a: Word, b: Word)
    ensures Exec(m, SUB20, With(s, a, b)) == With(s, Sub(a, 1), b)
  {
    hide LoadInt, LoadPair, Lift2, Sub;
  }

  lemma NegEffect(m: Machine, s: State, a: Word, b: Word)
    ensures Exec(m, NEG3, With(s, a, b)) == With(s, a, Neg(b))
  {
    hide LoadInt, LoadPair, Lift2, Neg;
  }

  // One step of a run that has n steps left.
  lemma Next(m: Machine, p: Program, n: nat, c: Config)
    requires c.pc < |p| && n > 0
    ensures StepN(m, p, n, c) == StepN(m, p, n - 1, Step(m, p, c))
  {
    hide StepN, Step;
    StepNAdd(m, p, 1, n - 1, c);
    StepOne(m, p, c);
  }

  lemma NextQuiet(m: Machine, p: Program, n: nat, pc: nat, s: State, a: Word, b: Word)
    requires pc < |p| && n > 0 && (p[pc] == MUL01 || p[pc] == RCP3)
    ensures StepN(m, p, n, Config(pc, With(s, a, b))) == StepN(m, p, n - 1, Config(pc + 1, With(s, a, b)))
  {
    hide StepN, Exec, With;
    QuietEffect(m, s, a, b);
    Next(m, p, n, Config(pc, With(s, a, b)));
  }

  lemma NextSub(m: Machine, p: Program, n: nat, pc: nat, s: State, a: Word, b: Word)
    requires pc < |p| && n > 0 && p[pc] == SUB20
    ensures StepN(m, p, n, Config(pc, With(s, a, b))) == StepN(m, p, n - 1, Config(pc + 1, With(s, Sub(a, 1), b)))
  {
    hide StepN, Exec, With;
    SubEffect(m, s, a, b);
    Next(m, p, n, Config(pc, With(s, a, b)));
  }

  lemma NextNeg(m: Machine, p: Program, n: nat, pc: nat, s: State, a: Word, b: Word)
    requires pc < |p| && n > 0 && p[pc] == NEG3
    ensures StepN(m, p, n, Config(pc, With(s, a, b))) == StepN(m, p, n - 1, Config(pc + 1, With(s, a, Neg(b))))
  {
    hide StepN, Exec, With;
    NegEffect(m, s, a, b);
    Next(m, p, n, Config(pc, With(s, a, b)));
  }

  lemma NextBranch3(m: Machine, p: Program, n: nat, pc: nat, s: State, a: Word, b: Word)
    requires pc < |p| && n > 0 && p[pc] == BRANCH3
    ensures var next := if Taken(BRANCH3, Add(b, 256)) then Target(p, pc) + 1 else pc + 1;
            StepN(m, p, n, Config(pc, With(s, a, b))) == StepN(m, p, n - 1, Config(next, With(s, a, Add(b, 256))))
  {
    hide StepN, BranchAdd, Taken, Target;
    BranchEffect(s, a, b);
    Next(m, p, n, Config(pc, With(s, a, b)));
  }

  const ONE_LESS: Word := TWO64 - 1
  const TWO_LESS: Word := TWO64 - 2
  const MINUS_256: Word := TWO64 - 256

  lemma Arithmetic()
    ensures Sub(0, 1) == ONE_LESS && Sub(ONE_LESS, 1) == TWO_LESS
    ensures Neg(256) == MINUS_256 && Add(MINUS_256, 256) == 0 && Add(0, 256) == 256
  {
  }

  // The interpreter subtracts once.
  lemma HeadRun(m: Machine, s: State)
    ensures Result(m, HEAD, With(s, 0, 256)) == With(s, ONE_LESS, 256)
  {
    hide Target, StepN, Exec, Step, Taken, With, Sub, Neg, Add, Result;
    Arithmetic();
    var p := HEAD;
    NextQuiet(m, p, 7, 0, s, 0, 256);
    NextSub(m, p, 6, 1, s, 0, 256);
    NextNeg(m, p, 5, 2, s, ONE_LESS, 256);
    NextQuiet(m, p, 4, 3, s, ONE_LESS, MINUS_256);
    HeadLoop(m, s);
    ResultByAnyRun(m, p, 7, With(s, 0, 256));
  }

  lemma HeadLoop(m: Machine, s: State)
    ensures StepN(m, HEAD, 3, Config(4, With(s, ONE_LESS, MINUS_256))) == Config(5, With(s, ONE_LESS, 256))
  {
    hide Target, StepN, Exec, Step, Taken, With, Sub, Neg, Add;
    Targets();
    BranchValues();
    Arithmetic();
    NextBranch3(m, HEAD, 3, 4, s, ONE_LESS, MINUS_256);
    NextQuiet(m, HEAD, 2, 3, s, ONE_LESS, 0);
    NextBranch3(m, HEAD, 1, 4, s, ONE_LESS, 0);
    NoSteps(m, HEAD, Config(5, With(s, ONE_LESS, 256)));
  }

  // The emitted loop also replays the subtraction.
  lemma SwappedRun(m: Machine, s: State)
    ensures Result(m, SWAPPED, With(s, 0, 256)) == With(s, TWO_LESS, 256)
  {
    hide Target, StepN, Exec, Step, Taken, With, Sub, Neg, Add, Result;
    Arithmetic();
    var p := SWAPPED;
    NextQuiet(m, p, 8, 0, s, 0, 256);
    NextNeg(m, p, 7, 1, s, 0, 256);
    NextSub(m, p, 6, 2, s, 0, MINUS_256);
    NextQuiet(m, p, 5, 3, s, ONE_LESS, MINUS_256);
    SwappedLoop(m, s);
    ResultByAnyRun(m, p, 8, With(s, 0, 256));
  }

  lemma SwappedLoop(m: Machine, s: State)
    ensures StepN(m, SWAPPED, 4, Config(4, With(s, ONE_LESS, MINUS_256))) == Config(5, With(s, TWO_LESS, 256))
  {
    hide Target, StepN, Exec, Step, Taken, With, Sub, Neg, Add;
    Targets();
    BranchValues();
    Arithmetic();
    NextBranch3(m, SWAPPED, 4, 4, s, ONE_LESS, MINUS_256);
    NextSub(m, SWAPPED, 3, 2, s, ONE_LESS, 0);
    NextQuiet(m, SWAPPED, 2, 3, s, TWO_LESS, 0);
    NextBranch3(m, SWAPPED, 1, 4, s, TWO_LESS, 0);
    NoSteps(m, SWAPPED, Config(5, With(s, TWO_LESS, 256)));
  }

  // The program of 256 instructions, and what the scheduler makes of it with no
  // swap limit: only the second and the third change places.
  const ORIGINAL: Program := Pad(HEAD, PROGRAM_SIZE - |HEAD|)

  lemma PlanOfOriginal()
    ensures |ORIGINAL| == PROGRAM_SIZE
    ensures Plan(ORIGINAL, 0, -1) == [0, 2, 1] + Range(3, PROGRAM_SIZE)
  {
    hide Plan, Pad;
    PlanOfHead();
    PadPlan(HEAD, PROGRAM_SIZE - |HEAD|, 0, -1);
    assert Range(3, PROGRAM_SIZE) == [3, 4] + Range(5, PROGRAM_SIZE);
  }

  lemma ScheduledHead()
    ensures KeepsHazards(HEAD, Plan(HEAD, 0, -1)) && Permute(HEAD, Plan(HEAD, 0, -1)) == SWAPPED
  {
    hide Plan, KeepsHazards;
    PlanKeepsHazards(HEAD, -1);
    PlanOfHead();
    OrderFits(HEAD, Plan(HEAD, 0, -1));
  }

  // Without AnchorReal scheduled code and interpreter can differ, whatever the
  // rest of the state.
  lemma NopAnchorDiverges(m: Machine, s: State)
    ensures |ORIGINAL| == PROGRAM_SIZE && ORIGINAL[4].op == CBRANCH && !AnchorReal(ORIGINAL, 4)
    ensures KeepsHazards(ORIGINAL, Plan(ORIGINAL, 0, -1))
    ensures Result(m, Permute(ORIGINAL, Plan(ORIGINAL, 0, -1)), With(s, 0, 256)) !=
            Result(m, ORIGINAL, With(s, 0, 256))
  {
    hide Result, AnchorReal, Plan, KeepsHazards, Permute, Pad, With;
    var n := PROGRAM_SIZE - |HEAD|;
    OnlyAnchor();
    PadAnchorOf(HEAD, n, 4);
    HeadRun(m, s);
    PadResult(m, HEAD, n, With(s, 0, 256));
    ScheduledHead();
    SwappedRun(m, s);
    PadScheduledResult(m, HEAD, n, -1, With(s, 0, 256));
    SwappedDiffers(s);
  }

  lemma SwappedDiffers(s: State)
    ensures With(s, ONE_LESS, 256) != With(s, TWO_LESS, 256)
  {
    assert With(s, ONE_LESS, 256).r[2] != With(s, TWO_LESS, 256).r[2];
  }
}
