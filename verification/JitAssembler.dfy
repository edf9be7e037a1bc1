// Writing the code of a program into the code buffer: words upwards, reciprocal
// literals downwards, 32-bit literals behind them, with no write landing on an
// earlier one (src/jit_compiler_a64.cpp).
module JitAssembler {
  import opened Words
  import opened A64
  import opened Vm
  import opened Interpreter
  import opened Replay
  import opened Scheduler
  import opened JitOperands
  import opened JitInteger
  import opened JitMachine
  import opened JitSlots
  import opened JitProgram

  method WriteWords(code: array<U32>, at: nat, ws: seq<U32>)
    requires at + |ws| <= code.Length
    modifies code
    ensures code[..at] == old(code[..at]) && code[at + |ws|..] == old(code[at + |ws|..])
    ensures Placed(code[..], at, ws)
  {
    for k := 0 to |ws|
      invariant code[..at] == old(code[..at]) && code[at + |ws|..] == old(code[at + |ws|..])
      invariant forall j :: 0 <= j < k ==> code[at + j] == ws[j]
    {
      code[at + k] := ws[k];
    }
  }

  // Words below or above a write stay.
  lemma StillPlaced(was: seq<U32>, now: seq<U32>, lo: nat, hi: nat, at: int, ws: seq<U32>)
    requires |now| == |was| && lo <= hi <= |was| && now[..lo] == was[..lo] && now[hi..] == was[hi..]
    requires Placed(was, at, ws) && (at + |ws| <= lo || hi <= at)
    ensures Placed(now, at, ws)
  {
    if at + |ws| <= lo {
      assert now[at..at + |ws|] == now[..lo][at..at + |ws|] == was[at..at + |ws|];
    } else {
      assert now[at..at + |ws|] == now[hi..][at - hi..at - hi + |ws|] == was[at..at + |ws|];
    }
  }

  function LiteralWords(v: Word): seq<U32> { [v % TWO32, v / TWO32] }

  // The code of the first k slots, and the literals handed out by then, are in place.
  ghost predicate Written(fp: FpWords, q: Program, code: seq<U32>, k: nat)
    requires k <= |q|
  {
    && (forall j :: 0 <= j < k ==> Placed(code, SpotAt(fp, q, j).pos, CodeAt(fp, q, j).words))
    && LiteralsWritten(code, SpotAt(fp, q, k).pools)
  }

  ghost predicate LiteralsWritten(code: seq<U32>, p: Pools) {
    && Placed(code, LITERALS_END, p.lits)
    && forall id: nat :: id < |p.rcps| ==> Placed(code, LiteralAt(id), LiteralWords(p.rcps[id]))
  }

  // A write beyond the code and literals so far harms neither.
  lemma StillWritten(fp: FpWords, q: Program, was: seq<U32>, now: seq<U32>, k: nat, lo: nat, hi: nat)
    requires k <= |q| && Written(fp, q, was, k)
    requires |now| == |was| && lo <= hi <= |was| && now[..lo] == was[..lo] && now[hi..] == was[hi..]
    requires var b := SpotAt(fp, q, k);
             && b.pos <= LITERALS_END
             && ((b.pos <= lo && hi <= LiteralAt(|b.pools.rcps|) + 2) || LITERALS_END + |b.pools.lits| <= lo)
    ensures Written(fp, q, now, k)
  {
    hide SpotAt, CodeAt, Placed;
    var p := SpotAt(fp, q, k).pools;
    forall j | 0 <= j < k ensures Placed(now, SpotAt(fp, q, j).pos, CodeAt(fp, q, j).words) {
      NextSpot(fp, q, j);
      SpotsGrow(fp, q, j + 1, k);
      StillPlaced(was, now, lo, hi, SpotAt(fp, q, j).pos, CodeAt(fp, q, j).words);
    }
    forall id: nat | id < |p.rcps| ensures Placed(now, LiteralAt(id), LiteralWords(p.rcps[id])) {
      StillPlaced(was, now, lo, hi, LiteralAt(id), LiteralWords(p.rcps[id]));
    }
    StillPlaced(was, now, lo, hi, LITERALS_END, p.lits);
  }

  lemma NextWritten(fp: FpWords, q: Program, code: seq<U32>, k: nat)
    requires k < |q| && Written(fp, q, code, k)
    requires Placed(code, SpotAt(fp, q, k).pos, CodeAt(fp, q, k).words)
    requires LiteralsWritten(code, SpotAt(fp, q, k + 1).pools)
    ensures Written(fp, q, code, k + 1)
  {
    hide SpotAt, CodeAt, Placed, LiteralsWritten;
  }

  // Room for slot k, whatever it emits.
  lemma Room(fp: FpWords, q: Program, k: nat)
    requires k < |q| <= MAX_PROGRAM
    ensures var b, n := SpotAt(fp, q, k), SpotAt(fp, q, k + 1);
            && 0 <= b.pos <= n.pos <= LiteralAt(|b.pools.rcps|) && n.pos <= LITERALS_END && |n.pools.lits| <= 64
            && b.pools.lits <= n.pools.lits && b.pools.rcps <= n.pools.rcps
            && |n.pools.rcps| <= |b.pools.rcps| + 1
  {
    hide SpotAt, CodeAt, Handler, LastWriter;
    var b := SpotAt(fp, q, k);
    SpotBounds(fp, q, k);
    SpotBounds(fp, q, k + 1);
    SpotsGrow(fp, q, k, k + 1);
    CodeIs(fp, q, k);
    NextSpot(fp, q, k);
    ShortHandler(fp, q[k], b.pos, SpotAt(fp, q, Target(q, k) + 1).pos, b.pools);
  }

  lemma LitsPlaced(code: seq<U32>, lits: seq<U32>, more: seq<U32>, fp: FpWords, q: Program, k: nat)
    requires k <= |q| && Written(fp, q, code, k) && lits == SpotAt(fp, q, k).pools.lits
    requires Placed(code, LITERALS_END + |lits|, more)
    ensures Placed(code, LITERALS_END, lits + more)
  {
    hide SpotAt, CodeAt, Placed;
    PlacedParts(code, LITERALS_END, lits, more);
  }

  lemma RcpsPlaced(code: seq<U32>, fp: FpWords, q: Program, k: nat, p: Pools)
    requires k <= |q| && Written(fp, q, code, k) && Placed(code, LITERALS_END, p.lits)
    requires var rcps := SpotAt(fp, q, k).pools.rcps;
             && rcps <= p.rcps && |p.rcps| <= |rcps| + 1
             && (|p.rcps| > |rcps| ==> Placed(code, LiteralAt(|rcps|), LiteralWords(p.rcps[|rcps|])))
    ensures LiteralsWritten(code, p)
  {
    hide SpotAt, CodeAt, Placed;
  }

  lemma StillLiterals(was: seq<U32>, now: seq<U32>, lo: nat, hi: nat, p: Pools)
    requires |now| == |was| && lo <= hi <= |was| && now[..lo] == was[..lo] && now[hi..] == was[hi..]
    requires LiteralsWritten(was, p) && (|p.rcps| > 0 ==> hi <= LiteralAt(|p.rcps| - 1)) && hi <= LITERALS_END
    ensures LiteralsWritten(now, p)
  {
    hide Placed;
    forall id: nat | id < |p.rcps| ensures Placed(now, LiteralAt(id), LiteralWords(p.rcps[id])) {
      StillPlaced(was, now, lo, hi, LiteralAt(id), LiteralWords(p.rcps[id]));
    }
    StillPlaced(was, now, lo, hi, LITERALS_END, p.lits);
  }

  // The 32-bit literals a handler adds.
  method EmitLits(fp: FpWords, q: Program, k: nat, b: Spot, lits: seq<U32>, code: array<U32>)
    requires k <= |q| && b == SpotAt(fp, q, k) && b.pos <= LITERALS_END
    requires b.pools.lits <= lits && |lits| <= 64 && code.Length >= LITERALS_END + 64 && Written(fp, q, code[..], k)
    modifies code
    ensures Written(fp, q, code[..], k) && Placed(code[..], LITERALS_END, lits)
  {
    hide SpotAt, CodeAt, Written, Placed;
    ghost var was := code[..];
    var n := |b.pools.lits|;
    WriteWords(code, LITERALS_END + n, lits[n..]);
    StillWritten(fp, q, was, code[..], k, LITERALS_END + n, LITERALS_END + |lits|);
    LitsPlaced(code[..], b.pools.lits, lits[n..], fp, q, k);
    assert b.pools.lits + lits[n..] == lits;
  }

  // The reciprocal a handler adds, if any.
  method EmitRcp(fp: FpWords, q: Program, k: nat, b: Spot, p: Pools, code: array<U32>)
    requires k <= |q| && b == SpotAt(fp, q, k) && b.pos <= LiteralAt(|b.pools.rcps|) && 0 <= LiteralAt(|b.pools.rcps|)
    requires b.pools.rcps <= p.rcps && |p.rcps| <= |b.pools.rcps| + 1
    requires code.Length >= LITERALS_END + 64 && Written(fp, q, code[..], k) && Placed(code[..], LITERALS_END, p.lits)
    modifies code
    ensures Written(fp, q, code[..], k) && LiteralsWritten(code[..], p)
  {
    hide SpotAt, CodeAt, Written, Placed, LiteralsWritten;
    ghost var was := code[..];
    var id := |b.pools.rcps|;
    if |p.rcps| > id {
      WriteWords(code, LiteralAt(id), LiteralWords(p.rcps[id]));
      StillWritten(fp, q, was, code[..], k, LiteralAt(id), LiteralAt(id) + 2);
      StillPlaced(was, code[..], LiteralAt(id), LiteralAt(id) + 2, LITERALS_END, p.lits);
    }
    RcpsPlaced(code[..], fp, q, k, p);
  }

  // One handler call: its 32-bit literals, its reciprocal and its words.
  method EmitSlot(fp: FpWords, q: Program, k: nat, b: Spot, target: int, code: array<U32>) returns (n: Spot)
    requires k < |q| <= MAX_PROGRAM && b == SpotAt(fp, q, k) && target == SpotAt(fp, q, Target(q, k) + 1).pos
    requires code.Length >= LITERALS_END + 64 && Written(fp, q, code[..], k)
    modifies code
    ensures n == SpotAt(fp, q, k + 1) && Written(fp, q, code[..], k + 1)
  {
    hide SpotAt, CodeAt, Handler, Written, Placed, LastWriter, LiteralsWritten;
    var e := Handler(fp, q[k], b.pos, target, b.pools);
    n := Spot(b.pos + |e.words|, e.pools);
    CodeIs(fp, q, k);
    NextSpot(fp, q, k);
    Room(fp, q, k);
    EmitLits(fp, q, k, b, e.pools.lits, code);
    EmitRcp(fp, q, k, b, e.pools, code);
    ghost var was := code[..];
    WriteWords(code, b.pos, e.words);
    StillWritten(fp, q, was, code[..], k, b.pos, n.pos);
    StillLiterals(was, code[..], b.pos, n.pos, e.pools);
    NextWritten(fp, q, code[..], k);
  }

  // All handlers in emission order, with the position behind each register's last
  // writer kept for the branches.
  method Assemble(fp: FpWords, q: Program, code: array<U32>) returns (end: int)
    requires |q| <= MAX_PROGRAM && code.Length >= LITERALS_END + 64
    modifies code
    ensures end == SpotAt(fp, q, |q|).pos
    ensures Assembled(fp, q, code[..]) && LiteralsWritten(code[..], SpotAt(fp, q, |q|).pools)
  {
    hide SpotAt, CodeAt, Written, Records, Note, LastWriter, LiteralsWritten;
    var spot := Spot(BASE, Pools([], []));
    var changed: seq<int> := seq(8, _ => BASE);
    NothingWritten(fp, q, code[..]);
    forall r: Reg { NoWriter(q, r); }
    for k := 0 to |q|
      invariant spot == SpotAt(fp, q, k) && |changed| == 8 && Written(fp, q, code[..], k)
      invariant forall r: Reg :: changed[r] == SpotAt(fp, q, LastWriter(q, r, k) + 1).pos
    {
      forall r: Reg ensures LastWriter(q, r, k + 1) == if Records(q[k], r) then k else LastWriter(q, r, k) {
        WriterNext(q, r, k);
      }
      spot := EmitSlot(fp, q, k, spot, changed[q[k].dst], code);
      changed := Note(changed, q[k], spot.pos);
    }
    AllWritten(fp, q, code[..]);
    end := spot.pos;
  }

  lemma NothingWritten(fp: FpWords, q: Program, code: seq<U32>)
    requires |code| >= LITERALS_END
    ensures Written(fp, q, code, 0) && SpotAt(fp, q, 0) == Spot(BASE, Pools([], []))
  {
  }

  lemma NoWriter(q: Program, r: Reg)
    ensures LastWriter(q, r, 0) == -1
  {
  }

  lemma WriterNext(q: Program, r: Reg, k: nat)
    requires k < |q|
    ensures LastWriter(q, r, k + 1) == if Records(q[k], r) then k else LastWriter(q, r, k)
  {
  }

  lemma AllWritten(fp: FpWords, q: Program, code: seq<U32>)
    requires Written(fp, q, code, |q|)
    ensures Assembled(fp, q, code) && LiteralsWritten(code, SpotAt(fp, q, |q|).pools)
  {
    hide SpotAt, CodeAt, Placed;
  }

  // ---- before the first instruction ----

  // The main loop's prologue loads the literal registers and the literal lanes.
  ghost predicate PrologueLoaded(code: seq<U32>, c: Cpu)
    requires |code| >= LITERALS_END + 64
  {
    && c.lanes == code[LITERALS_END..LITERALS_END + 64]
    && forall id: nat :: id < LITERAL_REGS ==>
         c.x[LiteralReg(id)] == code[LiteralAt(id)] + TWO32 * code[LiteralAt(id) + 1]
  }

  lemma LiteralValue(code: seq<U32>, at: int, v: Word)
    requires Placed(code, at, LiteralWords(v))
    ensures code[at] + TWO32 * code[at + 1] == v
  {
    assert code[at] == code[at..at + 2][0] && code[at + 1] == code[at..at + 2][1];
  }

  lemma PrologueSuffices(fp: FpWords, q: Program, code: seq<U32>, c: Cpu)
    requires |q| <= MAX_PROGRAM && |code| >= LITERALS_END + 64 && PrologueLoaded(code, c)
    requires LiteralsWritten(code, SpotAt(fp, q, |q|).pools)
    ensures Loaded(fp, q, code, c)
  {
    hide SpotAt;
    var p := SpotAt(fp, q, |q|).pools;
    SpotBounds(fp, q, |q|);
    assert code[LITERALS_END..LITERALS_END + 64][..|p.lits|] == p.lits;
    forall id: nat | id < |p.rcps|
      ensures 0 <= LiteralAt(id) && LiteralAt(id) + 1 < |code|
      ensures code[LiteralAt(id)] + TWO32 * code[LiteralAt(id) + 1] == p.rcps[id]
    {
      LiteralValue(code, LiteralAt(id), p.rcps[id]);
    }
  }

  // Scheduling, assembling and loading together: the code leaves the
  // interpreter's result, provided no branch anchor compiles to nothing.
  lemma CompiledProgramRuns(unit: VectorUnit, fp: FpWords, p: Program, budget: int, code: seq<U32>,
                            m: Machine, c: Core, s: State) returns (n: nat)
    requires |p| <= MAX_PROGRAM && forall k :: 0 <= k < |p| && p[k].op == CBRANCH ==> AnchorReal(p, k)
    requires KeepsHazards(p, Plan(p, 0, budget)) && |code| >= LITERALS_END + 64
    requires var q := Permute(p, Plan(p, 0, budget));
             && Assembled(fp, q, code) && LiteralsWritten(code, SpotAt(fp, q, |q|).pools)
             && FloatsDone(unit, fp, code, m, q)
    requires c.pc == BASE && Represents(c, s) && PrologueLoaded(code, c.cpu)
    ensures Represents(CoreN(unit, code, n, c), Result(m, p, s))
  {
    hide CoreN, Assembled, FloatsDone, Represents, Loaded, Result, AnchorReal, Plan, KeepsHazards, Permute, SpotAt,
      LiteralsWritten, PrologueLoaded;
    OrderFits(p, Plan(p, 0, budget));
    PrologueSuffices(fp, Permute(p, Plan(p, 0, budget)), code, c.cpu);
    n := ScheduledCodeRunsProgram(unit, fp, p, budget, code, m, c, s);
  }
}
