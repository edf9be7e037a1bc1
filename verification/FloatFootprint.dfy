// The footprints of floating-point instructions are exact: whatever they list can
// change or matter for some floating-point unit, and nothing else can
// (src/jit_compiler_a64.cpp).
module FloatFootprint {
  import opened Words
  import opened Arith
  import opened WordLaws
  import opened Vm
  import opened VmLaws
  import opened Footprint

  predicate IsFloat(i: Instr) {
    i.op in {FSWAP_R, FADD_R, FADD_M, FSUB_R, FSUB_M, FSCAL_R, FMUL_R, FDIV_M, FSQRT_R}
  }

  ghost predicate ChangesFrom(m: Machine, i: Instr, s: State, l: Loc)
    requires i.op != CBRANCH
  {
    !SameAt(l, Exec(m, i, s), s)
  }

  // Can the instruction change what is at l?
  ghost predicate Changes(i: Instr, l: Loc)
    requires i.op != CBRANCH
  {
    exists m: Machine, s: State :: ChangesFrom(m, i, s, l)
  }

  // s and t differ at l only, and the instruction makes them differ elsewhere.
  ghost predicate MattersFor(m: Machine, i: Instr, s: State, t: State, l: Loc)
    requires i.op != CBRANCH
  {
    && (forall k: Loc :: k != l ==> SameAt(k, s, t))
    && exists k: Loc :: k != l && !SameAt(k, Exec(m, i, s), Exec(m, i, t))
  }

  // Can what is at l influence anything else?
  ghost predicate Matters(i: Instr, l: Loc)
    requires i.op != CBRANCH
  {
    exists m: Machine, s: State, t: State :: MattersFor(m, i, s, t, l)
  }

  lemma OnlyWritesChange(i: Instr, l: Loc)
    requires i.op != CBRANCH && !Writes(i, l)
    ensures !Changes(i, l)
  {
    hide Exec, Writes;
    forall m: Machine, s: State ensures !ChangesFrom(m, i, s, l) { ExecFrame(m, i, s, l); }
  }

  lemma OnlyReadsMatter(i: Instr, l: Loc)
    requires i.op != CBRANCH && !Reads(i, l)
    ensures !Matters(i, l)
  {
    hide Exec, Reads, Writes, SameAt;
    forall m: Machine, s: State, t: State ensures !MattersFor(m, i, s, t, l) {
      if forall k: Loc :: k != l ==> SameAt(k, s, t) {
        forall k: Loc | k != l ensures SameAt(k, Exec(m, i, s), Exec(m, i, t)) {
          if Writes(i, k) {
            ExecDepends(m, i, s, t, k);
          } else {
            ExecFrame(m, i, s, k);
            ExecFrame(m, i, t, k);
            SameChain(k, Exec(m, i, s), s, t, Exec(m, i, t));
          }
        }
      }
    }
  }

  lemma SameChain(l: Loc, a: State, b: State, c: State, d: State)
    requires SameAt(l, a, b) && SameAt(l, b, c) && SameAt(l, d, c)
    ensures SameAt(l, a, d)
  {
  }

  // ---- a unit whose results differ from the first operand ----

  function Other(mode: nat, x: Word, y: Word): Word { if x == y then (x + 1) % TWO64 else y }

  function Bumped(mode: nat, x: Word): Word { (x + 1) % TWO64 }

  ghost function Unit(): Machine {
    RawMachine(Other, Other, Other, Other, Bumped, x => x, (x, _) => x, seq(4, _ => Double2(5, 5)), 0, 0)
  }

  // Lanes 0 and 1, and the given registers and memory.
  function Plain(r: seq<Word>, mem: Scratchpad): State
    requires |r| == 8
  {
    RawState(r, seq(4, _ => Double2(0, 1)), seq(4, _ => Double2(0, 1)), mem, 0)
  }

  function Zeros(): seq<Word> { seq(8, _ => 0) }

  function Words32(v: U32): Scratchpad { seq(0x4_0000, _ => v) }

  lemma ScaledDiffers(x: Word)
    ensures Xor(x, SCALE) != x
  {
    hide Bit, Xor;
    XorBit(x, SCALE, 63);
    ScaleBits(63);
    BitRange(x, 63);
  }

  lemma WritesHappen(i: Instr, k: nat)
    requires IsFloat(i) && k < 4
    ensures k in FootprintOf(i).fp ==> Changes(i, FReg(k))
    ensures k in FootprintOf(i).ep ==> Changes(i, EReg(k))
  {
    hide Xor, LoadInt, WordIndex;
    var s := Plain(Zeros(), Words32(0));
    ScaledDiffers(0);
    if k in FootprintOf(i).fp { assert ChangesFrom(Unit(), i, s, FReg(k)); }
    if k in FootprintOf(i).ep { assert ChangesFrom(Unit(), i, s, EReg(k)); }
  }

  // ---- memory operands ----

  lemma LoadedResult(i: Instr, r: seq<Word>, mem: Scratchpad, v: U32)
    requires |r| == 8 && i.op in {FADD_M, FSUB_M, FDIV_M}
    requires mem[WordIndex(r[i.src], i.imm, LoadLevel(i))] == v
    ensures var t, d := Exec(Unit(), i, Plain(r, mem)), i.dst % 4;
            (if i.op == FDIV_M then t.e[d] else t.f[d]).lo == Other(0, 0, v)
  {
    hide LoadInt, WordIndex;
  }

  lemma MemoryMatters(i: Instr)
    requires i.op in {FADD_M, FSUB_M, FDIV_M}
    ensures Matters(i, Memory)
  {
    hide Exec, WordIndex, Unit;
    var r, d := Zeros(), i.dst % 4;
    var s, t := Plain(r, Words32(7)), Plain(r, Words32(9));
    LoadedResult(i, r, Words32(7), 7);
    LoadedResult(i, r, Words32(9), 9);
    var k := if i.op == FDIV_M then EReg(d) else FReg(d);
    assert !SameAt(k, Exec(Unit(), i, s), Exec(Unit(), i, t));
    assert MattersFor(Unit(), i, s, t, Memory);
  }

  lemma BottomAddress(imm: int, size: int, n: int, k: int)
    requires size > 0 && k > 0 && n == k * size
    ensures n > 0 && ((0 - imm) % n + imm) % size == 0
  {
    var b := (0 - imm) % n;
    ModMod(0 - imm, n, k, size);
    AddMod(b, imm, size);
    AddMod(0 - imm, imm, size);
    DivUnique(0, size, 0, 0);
  }

  lemma ReachesBottom(imm: U32, size: nat)
    requires size == L1 || size == L2 || size == L3
    ensures WordIndex((0 - imm) % TWO64, imm, size) == 0
  {
    hide WordIndex;
    BottomAddress(imm, size, TWO64, TWO64 / size);
    AddressWraps((0 - imm) % TWO64, imm, size);
  }

  function Numbered(): Scratchpad { seq(0x4_0000, k requires 0 <= k < 0x4_0000 => k + 2) }

  lemma AddressMatters(i: Instr)
    requires i.op in {FADD_M, FSUB_M, FDIV_M}
    ensures Matters(i, IntReg(i.src))
  {
    hide Exec, WordIndex, Unit;
    var d, size := i.dst % 4, LoadLevel(i);
    var low, high := (0 - i.imm) % TWO64, (size - 8 - i.imm) % TWO64;
    ReachesBottom(i.imm, size);
    ReachesTop(i.imm, size);
    var r, q := Zeros()[i.src := low], Zeros()[i.src := high];
    var s, t := Plain(r, Numbered()), Plain(q, Numbered());
    LoadedResult(i, r, Numbered(), 2);
    LoadedResult(i, q, Numbered(), size / 8 + 1);
    var k := if i.op == FDIV_M then EReg(d) else FReg(d);
    assert !SameAt(k, Exec(Unit(), i, s), Exec(Unit(), i, t));
    assert MattersFor(Unit(), i, s, t, IntReg(i.src));
  }

  // The theorem.
  lemma FloatFootprintExact(i: Instr)
    requires IsFloat(i)
    ensures forall k: nat :: k < 4 ==> (k in FootprintOf(i).fp <==> Changes(i, FReg(k)))
    ensures forall k: nat :: k < 4 ==> (k in FootprintOf(i).ep <==> Changes(i, EReg(k)))
    ensures FootprintOf(i).memory <==> Matters(i, Memory)
    ensures forall r: Reg :: r in FootprintOf(i).intRead <==> Matters(i, IntReg(r))
    ensures FootprintOf(i).intWrite == {} && !FootprintOf(i).barrier
  {
    hide Changes, Matters;
    forall k: nat | k < 4
      ensures k in FootprintOf(i).fp <==> Changes(i, FReg(k))
      ensures k in FootprintOf(i).ep <==> Changes(i, EReg(k))
    {
      WritesHappen(i, k);
      if k !in FootprintOf(i).fp { OnlyWritesChange(i, FReg(k)); }
      if k !in FootprintOf(i).ep { OnlyWritesChange(i, EReg(k)); }
    }
    if FootprintOf(i).memory { MemoryMatters(i); AddressMatters(i); } else { OnlyReadsMatter(i, Memory); }
    forall r: Reg | r !in FootprintOf(i).intRead ensures !Matters(i, IntReg(r)) { OnlyReadsMatter(i, IntReg(r)); }
  }
}
