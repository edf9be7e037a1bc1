// Register and memory footprints, the hazard test built on them, and the proof
// that instructions without a hazard commute (src/jit_compiler_a64.cpp).
module Footprint {
  import opened Words
  import opened Reciprocal
  import opened Vm

  datatype Footprint = Footprint(
    intRead: set<Reg>, intWrite: set<Reg>,
    fp: set<nat>, ep: set<nat>,   // f and e registers, always read and written together
    memory: bool, barrier: bool, branch: bool, longLatency: bool)

  const EMPTY := Footprint({}, {}, {}, {}, false, false, false, false)

  function FootprintOf(i: Instr): Footprint {
    var d4: nat := i.dst % 4;
    match i.op
    case IADD_RS | ISUB_R | IMUL_R | IMULH_R | ISMULH_R | IXOR_R | IROR_R | IROL_R =>
      EMPTY.(intRead := {i.dst, i.src}, intWrite := {i.dst},
             longLatency := i.op == IMUL_R || i.op == IMULH_R || i.op == ISMULH_R)
    case IADD_M | ISUB_M | IMUL_M | IMULH_M | ISMULH_M | IXOR_M =>
      EMPTY.(intRead := {i.dst, i.src}, intWrite := {i.dst}, memory := true)
    case IMUL_RCP => EMPTY.(intRead := {i.dst}, intWrite := {i.dst}, longLatency := true)
    case INEG_R => EMPTY.(intRead := {i.dst}, intWrite := {i.dst})
    case ISWAP_R => EMPTY.(intRead := {i.dst, i.src}, intWrite := {i.dst, i.src})
    case FSWAP_R => if i.dst < 4 then EMPTY.(fp := {i.dst}) else EMPTY.(ep := {i.dst - 4})
    case FADD_R | FSUB_R | FSCAL_R => EMPTY.(fp := {d4})
    case FMUL_R | FSQRT_R => EMPTY.(ep := {d4})
    case FADD_M | FSUB_M => EMPTY.(fp := {d4}, intRead := {i.src}, memory := true)
    case FDIV_M => EMPTY.(ep := {d4}, intRead := {i.src}, memory := true)
    case CBRANCH => EMPTY.(intRead := {i.dst}, intWrite := {i.dst}, barrier := true, branch := true)
    case CFROUND => EMPTY.(intRead := {i.src}, barrier := true)
    case ISTORE => EMPTY.(intRead := {i.dst, i.src}, memory := true)
    case NOP => EMPTY
  }

  predicate HasHazard(a: Footprint, b: Footprint) {
    || a.barrier || b.barrier
    || (a.memory && b.memory)
    || a.intWrite * b.intRead != {} || a.intRead * b.intWrite != {} || a.intWrite * b.intWrite != {}
    || a.fp * b.fp != {}
    || a.ep * b.ep != {}
  }

  predicate Hazard(a: Instr, b: Instr) { HasHazard(FootprintOf(a), FootprintOf(b)) }

  // Everything an instruction can touch, one location at a time.
  datatype Loc = IntReg(i: Reg) | FReg(k: nat) | EReg(k: nat) | Memory | Rounding

  ghost predicate SameAt(l: Loc, s: State, t: State) {
    match l
    case IntReg(i) => s.r[i] == t.r[i]
    case FReg(k) => k < 4 ==> s.f[k] == t.f[k]
    case EReg(k) => k < 4 ==> s.e[k] == t.e[k]
    case Memory => s.mem == t.mem
    case Rounding => s.rounding == t.rounding
  }

  ghost predicate Reads(i: Instr, l: Loc) {
    var a := FootprintOf(i);
    match l
    case IntReg(r) => r in a.intRead
    case FReg(k) => k in a.fp
    case EReg(k) => k in a.ep
    case Memory => a.memory
    case Rounding => true
  }

  ghost predicate Writes(i: Instr, l: Loc) {
    var a := FootprintOf(i);
    match l
    case IntReg(r) => r in a.intWrite
    case FReg(k) => k in a.fp
    case EReg(k) => k in a.ep
    case Memory => a.memory
    case Rounding => a.barrier
  }

  // An instruction changes nothing outside its declared writes.
  lemma ExecFrame(m: Machine, i: Instr, s: State, l: Loc)
    requires i.op != CBRANCH && !Writes(i, l)
    ensures SameAt(l, Exec(m, i, s), s)
  {
    hide Add, Sub, Mul, MulHigh, SignedMulHigh, Ror, Rol, Xor, Neg, Shl, SignExtend;
    hide RandomxReciprocal, LoadInt, LoadPair, Lift2;
  }

  predicate IsMemory(op: Op) {
    op in {IADD_M, ISUB_M, IMUL_M, IMULH_M, ISMULH_M, IXOR_M, FADD_M, FSUB_M, FDIV_M, ISTORE}
  }

  // What an instruction writes depends only on its declared reads.
  lemma ExecDepends(m: Machine, i: Instr, s: State, t: State, l: Loc)
    requires i.op != CBRANCH && Writes(i, l)
    requires forall k :: Reads(i, k) ==> SameAt(k, s, t)
    ensures SameAt(l, Exec(m, i, s), Exec(m, i, t))
  {
    hide Add, Sub, Mul, MulHigh, SignedMulHigh, Ror, Rol, Xor, Neg, Shl, SignExtend;
    hide RandomxReciprocal, LoadInt, LoadPair, Lift2;
    assert SameAt(Rounding, s, t);
    if IsMemory(i.op) {
      ExecDependsMemory(m, i, s, t, l);
    } else {
      assert Reads(i, IntReg(i.dst)) ==> SameAt(IntReg(i.dst), s, t);
      assert Reads(i, IntReg(i.src)) ==> SameAt(IntReg(i.src), s, t);
      assert Reads(i, l) ==> SameAt(l, s, t);
    }
  }

  lemma ExecDependsMemory(m: Machine, i: Instr, s: State, t: State, l: Loc)
    requires IsMemory(i.op) && Writes(i, l)
    requires forall k :: Reads(i, k) ==> SameAt(k, s, t)
    ensures SameAt(l, Exec(m, i, s), Exec(m, i, t))
  {
    hide Add, Sub, Mul, MulHigh, SignedMulHigh, Ror, Rol, Xor, Neg, Shl, SignExtend, RandomxReciprocal, WordIndex,
      Lift2;
    assert SameAt(Memory, s, t) && SameAt(Rounding, s, t);
    assert SameAt(IntReg(i.src), s, t);
    assert LoadInt(i, s) == LoadInt(i, t) || i.op in {FADD_M, FSUB_M, FDIV_M, ISTORE};
    assert LoadPair(m, i, s) == LoadPair(m, i, t);
    assert Reads(i, IntReg(i.dst)) ==> SameAt(IntReg(i.dst), s, t);
    assert Reads(i, l) ==> SameAt(l, s, t);
  }

  lemma SameEverywhere(s: State, t: State)
    requires forall l :: SameAt(l, s, t)
    ensures s == t
  {
    forall i | 0 <= i < 8 ensures s.r[i] == t.r[i] {
      assert SameAt(IntReg(i), s, t);
    }
    forall k | 0 <= k < 4 ensures s.f[k] == t.f[k] && s.e[k] == t.e[k] {
      assert SameAt(FReg(k), s, t) && SameAt(EReg(k), s, t);
    }
    assert SameAt(Memory, s, t) && SameAt(Rounding, s, t);
  }

  // The hazard test in terms of locations: whatever one side writes, the other
  // neither reads nor writes.
  lemma NoHazardDisjoint(a: Instr, b: Instr, l: Loc)
    requires !Hazard(a, b)
    ensures !(Writes(a, l) && (Reads(b, l) || Writes(b, l))) || l == Rounding
    ensures !(Writes(b, l) && Reads(a, l)) || l == Rounding
    ensures !Writes(a, Rounding) && !Writes(b, Rounding)
  {
    match l
    case IntReg(r) =>
      var x, y := FootprintOf(a), FootprintOf(b);
      assert r !in x.intWrite * y.intRead && r !in x.intRead * y.intWrite && r !in x.intWrite * y.intWrite;
    case FReg(k) => assert k !in FootprintOf(a).fp * FootprintOf(b).fp;
    case EReg(k) => assert k !in FootprintOf(a).ep * FootprintOf(b).ep;
    case Memory =>
    case Rounding =>
  }

  // One half of commutation: at a location the first writes, order is irrelevant.
  lemma SameWhereWritten(m: Machine, a: Instr, b: Instr, s: State, l: Loc)
    requires !Hazard(a, b) && Writes(a, l) && a.op != CBRANCH && b.op != CBRANCH
    ensures SameAt(l, Exec(m, b, Exec(m, a, s)), Exec(m, a, Exec(m, b, s)))
  {
    hide Exec, Hazard;
    NoHazardDisjoint(a, b, l);
    ExecFrame(m, b, Exec(m, a, s), l);
    forall k | Reads(a, k) ensures SameAt(k, s, Exec(m, b, s)) {
      NoHazardDisjoint(a, b, k);
      ExecFrame(m, b, s, k);
    }
    ExecDepends(m, a, s, Exec(m, b, s), l);
  }

  lemma HazardSymmetric(a: Instr, b: Instr)
    ensures Hazard(a, b) == Hazard(b, a)
  {
    var x, y := FootprintOf(a), FootprintOf(b);
    assert x.intWrite * y.intRead == y.intRead * x.intWrite;
    assert x.intRead * y.intWrite == y.intWrite * x.intRead;
    assert x.intWrite * y.intWrite == y.intWrite * x.intWrite;
    assert x.fp * y.fp == y.fp * x.fp && x.ep * y.ep == y.ep * x.ep;
  }

  // A branch has a hazard with everything.
  lemma NoHazardNoBranch(a: Instr, b: Instr)
    requires !Hazard(a, b)
    ensures a.op != CBRANCH && b.op != CBRANCH
  {
  }

  // Instructions the hazard test calls independent commute, from every state.
  lemma NoHazardCommutes(m: Machine, a: Instr, b: Instr, s: State)
    requires !Hazard(a, b) && a.op != CBRANCH && b.op != CBRANCH
    ensures Exec(m, b, Exec(m, a, s)) == Exec(m, a, Exec(m, b, s))
  {
    hide Exec, Hazard;
    var t, u := Exec(m, b, Exec(m, a, s)), Exec(m, a, Exec(m, b, s));
    HazardSymmetric(a, b);
    forall l ensures SameAt(l, t, u) {
      if Writes(a, l) {
        SameWhereWritten(m, a, b, s, l);
      } else if Writes(b, l) {
        SameWhereWritten(m, b, a, s, l);
      } else {
        ExecFrame(m, a, s, l);
        ExecFrame(m, b, Exec(m, a, s), l);
        ExecFrame(m, b, s, l);
        ExecFrame(m, a, Exec(m, b, s), l);
      }
    }
    SameEverywhere(t, u);
  }
}
