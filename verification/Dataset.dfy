// Dataset items: one at a time, and two at a time in vector lanes
// (src/dataset.cpp, src/superscalar.cpp).
module Dataset {
  import opened Words
  import opened Arith
  import opened WordLaws
  import opened Superscalar
  import opened Chunks

  const ACCESSES: nat := 8

  datatype SuperscalarProgram = SuperscalarProgram(code: seq<Instr>, address: Reg)

  datatype RawCache = RawCache(lines: seq<RegFile>, programs: seq<SuperscalarProgram>, rcp: seq<Word>)

  predicate IsCache(c: RawCache) {
    |c.programs| == ACCESSES && forall k :: 0 <= k < ACCESSES ==> Valid(c.programs[k].code, c.rcp)
  }

  type Cache = c: RawCache | IsCache(c) witness RawCache([], seq(ACCESSES, _ => SuperscalarProgram([], 0)), [])

  // An item is the eight words stored as its 64 bytes.
  type Item = RegFile

  const SEED_ADDENDS: RegFile :=
    [0, 9298411001130361340, 12065312585734608966, 9306329213124626780, 5281919268842080866,
     10536153434571861004, 3398623926847679864, 9549104520008361294]

  function SeedRegisters(item: Word): RegFile {
    var seed := Mul(Add(item, 1), 6364136223846793005);
    seq(8, q requires 0 <= q < 8 => if q == 0 then seed else Xor(seed, SEED_ADDENDS[q]))
  }

  const SEED_MULTIPLIER: Word := 6364136223846793005
  const SEED_INVERSE: Word := 13877824140714322085

  // Register 0 starts at the multiplier and grows by it from item to item; the
  // others differ from it by the same bits for every item.
  lemma SeedProgression(item: Word, q: nat)
    requires q < 8
    ensures SeedRegisters(0)[0] == SEED_MULTIPLIER
    ensures SeedRegisters(Add(item, 1))[0] == Add(SeedRegisters(item)[0], SEED_MULTIPLIER)
    ensures q > 0 ==> Xor(SeedRegisters(item)[q], SeedRegisters(item)[0]) == SEED_ADDENDS[q]
  {
    hide Xor;
    var x := Add(item, 1);
    XorCancel(SeedRegisters(item)[0], SEED_ADDENDS[q]);
    assert SeedRegisters(item)[0] == x * SEED_MULTIPLIER % TWO64;
    var y := Add(x, 1);
    assert y * SEED_MULTIPLIER % TWO64 == (x + 1) * SEED_MULTIPLIER % TWO64;
    AddMod(x * SEED_MULTIPLIER, SEED_MULTIPLIER, TWO64);
  }

  // Different items start from different registers.
  lemma SeedsDiffer(i: Word, j: Word)
    requires i != j
    ensures SeedRegisters(i)[0] != SeedRegisters(j)[0]
  {
    hide Mul, Xor;
    InverseOfMultiplier();
    MulInverse(Add(i, 1), SEED_MULTIPLIER, SEED_INVERSE);
    MulInverse(Add(j, 1), SEED_MULTIPLIER, SEED_INVERSE);
    SumLaws(i, 1);
    SumLaws(j, 1);
  }

  lemma InverseOfMultiplier()
    ensures Mul(SEED_MULTIPLIER, SEED_INVERSE) == 1
  {
  }

  function Mixed(r: RegFile, line: RegFile): RegFile {
    seq(8, q requires 0 <= q < 8 => Xor(r[q], line[q]))
  }

  // Cache accesses k, k + 1, ..., with v choosing the next line.
  function Accesses(c: Cache, k: nat, r: RegFile, v: Word): Item
    requires |c.lines| > 0 && k <= ACCESSES
    decreases ACCESSES - k
  {
    if k == ACCESSES then r
    else
      var r' := Mixed(Run(c.programs[k].code, 0, r, c.rcp), c.lines[v % |c.lines|]);
      Accesses(c, k + 1, r', r'[c.programs[k].address])
  }

  function DatasetItem(c: Cache, item: Word): Item
    requires |c.lines| > 0
  {
    Accesses(c, 0, SeedRegisters(item), item)
  }

  method MixLine(rl: array<Word>, line: RegFile)
    requires rl.Length == 8
    modifies rl
    ensures rl[..] == Mixed(old(rl[..]), line)
  {
    hide Xor;
    forall q | 0 <= q < 8 { rl[q] := Xor(rl[q], line[q]); }
  }

  method GenerateDatasetItem(c: Cache, item: Word) returns (out: Item)
    requires |c.lines| > 0
    ensures out == DatasetItem(c, item)
  {
    hide Run, SeedRegisters, Mixed, Valid;
    var seed := SeedRegisters(item);
    var rl := new Word[8](q requires 0 <= q < 8 => seed[q]);
    assert rl[..] == seed;
    var v: Word := item;
    var i := 0;
    while i < ACCESSES
      invariant i <= ACCESSES && Accesses(c, i, rl[..], v) == DatasetItem(c, item)
    {
      var line := c.lines[v % |c.lines|];
      ExecuteSuperscalar(rl, c.programs[i].code, c.rcp);
      MixLine(rl, line);
      v := rl[c.programs[i].address];
      i := i + 1;
    }
    out := rl[..];
  }

  // ---- two lanes ----

  type Pair = (Word, Word)

  ghost function Lane(vr: seq<Pair>, second: bool): RegFile
    requires |vr| == 8
  {
    seq(8, q requires 0 <= q < 8 => if second then vr[q].1 else vr[q].0)
  }

  method ExecuteSuperscalarNeon(vr: array<Pair>, p: seq<Instr>, rcp: seq<Word>)
    requires vr.Length == 8 && Valid(p, rcp)
    modifies vr
    ensures forall second :: Lane(vr[..], second) == Run(p, 0, Lane(old(vr[..]), second), rcp)
  {
    hide Value;
    var j := 0;
    while j < |p|
      invariant j <= |p|
      invariant forall second :: Run(p, j, Lane(vr[..], second), rcp) == Run(p, 0, Lane(old(vr[..]), second), rcp)
    {
      var i := p[j];
      ghost var before := vr[..];
      var a, b := vr[i.dst], vr[i.src];
      vr[i.dst] := (Value(i, a.0, b.0, rcp), Value(i, a.1, b.1, rcp));
      forall second ensures Lane(vr[..], second) == Exec(i, Lane(before, second), rcp) {
      }
      j := j + 1;
    }
  }

  method MixLines(vr: array<Pair>, line0: RegFile, line1: RegFile)
    requires vr.Length == 8
    modifies vr
    ensures Lane(vr[..], false) == Mixed(Lane(old(vr[..]), false), line0)
    ensures Lane(vr[..], true) == Mixed(Lane(old(vr[..]), true), line1)
  {
    hide Xor;
    forall q | 0 <= q < 8 { vr[q] := (Xor(vr[q].0, line0[q]), Xor(vr[q].1, line1[q])); }
  }

  // One cache access for both lanes.
  method TwoAccesses(c: Cache, i: nat, vr: array<Pair>, v0: Word, v1: Word) returns (w0: Word, w1: Word)
    requires |c.lines| > 0 && i < ACCESSES && vr.Length == 8
    modifies vr
    ensures Accesses(c, i + 1, Lane(vr[..], false), w0) == Accesses(c, i, Lane(old(vr[..]), false), v0)
    ensures Accesses(c, i + 1, Lane(vr[..], true), w1) == Accesses(c, i, Lane(old(vr[..]), true), v1)
  {
    hide Run, Mixed, Valid;
    var line0, line1 := c.lines[v0 % |c.lines|], c.lines[v1 % |c.lines|];
    ExecuteSuperscalarNeon(vr, c.programs[i].code, c.rcp);
    MixLines(vr, line0, line1);
    var w := vr[c.programs[i].address];
    w0, w1 := w.0, w.1;
  }

  method GenerateTwoItems(c: Cache, item0: Word, item1: Word) returns (out0: Item, out1: Item)
    requires |c.lines| > 0
    ensures out0 == DatasetItem(c, item0) && out1 == DatasetItem(c, item1)
  {
    hide Run, SeedRegisters, Mixed, IsCache;
    var seed0, seed1 := SeedRegisters(item0), SeedRegisters(item1);
    var vr := new Pair[8](q requires 0 <= q < 8 => (seed0[q], seed1[q]));
    assert Lane(vr[..], false) == seed0 && Lane(vr[..], true) == seed1;
    var v0: Word, v1: Word := item0, item1;
    var i := 0;
    while i < ACCESSES
      invariant i <= ACCESSES && fresh(vr)
      invariant Accesses(c, i, Lane(vr[..], false), v0) == DatasetItem(c, item0)
      invariant Accesses(c, i, Lane(vr[..], true), v1) == DatasetItem(c, item1)
    {
      v0, v1 := TwoAccesses(c, i, vr, v0, v1);
      i := i + 1;
    }
    out0 := seq(8, q requires 0 <= q < 8 reads vr => vr[q].0);
    out1 := seq(8, q requires 0 <= q < 8 reads vr => vr[q].1);
    assert out0 == Lane(vr[..], false) && out1 == Lane(vr[..], true);
  }

  // ---- ranges of items ----

  datatype Outcome = Done | BadRange | BufferTooSmall | NoLines

  // Two items per iteration, then a leftover one, into the span of `out` that
  // begins at `at`. An accepted call writes exactly the items of its range.
  method InitializeDataset(out: array<Item>, at: nat, size: nat, c: Cache, start: Word, count: Word)
    returns (r: Outcome)
    requires at + size <= out.Length
    modifies out
    ensures r == if start > DATASET_ITEMS || count > DATASET_ITEMS - start then BadRange
                 else if size < count then BufferTooSmall
                 else if |c.lines| == 0 then NoLines else Done
    ensures r.Done? ==> forall k :: at <= k < at + count ==> out[k] == DatasetItem(c, start + k - at)
    ensures out[..at] == old(out[..at])
    ensures r.Done? ==> out[at + count..] == old(out[at + count..])
    ensures !r.Done? ==> out[..] == old(out[..])
  {
    hide DatasetItem;
    if start > DATASET_ITEMS || count > DATASET_ITEMS - start { return BadRange; }
    if size < count { return BufferTooSmall; }
    if |c.lines| == 0 { return NoLines; }
    var offset := 0;
    while offset + 1 < count
      invariant offset <= count
      invariant forall k :: at <= k < at + offset ==> out[k] == DatasetItem(c, start + k - at)
      invariant forall k :: 0 <= k < out.Length && !(at <= k < at + offset) ==> out[k] == old(out[k])
    {
      var a, b := GenerateTwoItems(c, start + offset, start + offset + 1);
      out[at + offset], out[at + offset + 1] := a, b;
      offset := offset + 2;
    }
    while offset < count
      invariant offset <= count
      invariant forall k :: at <= k < at + offset ==> out[k] == DatasetItem(c, start + k - at)
      invariant forall k :: 0 <= k < out.Length && !(at <= k < at + offset) ==> out[k] == old(out[k])
    {
      var a := GenerateDatasetItem(c, start + offset);
      out[at + offset] := a;
      offset := offset + 1;
    }
    return Done;
  }

  // A fill worker's chunk, in sub-chunks between which it looks for cancellation
  // (`cancelled` answers the k-th look). It reports completion exactly when every
  // item of the chunk is in place; items outside the chunk are never touched.
  method FillChunk(data: array<Item>, c: Cache, first: nat, end: nat, cancelled: nat -> bool) returns (complete: bool)
    requires |c.lines| > 0 && first <= end <= data.Length <= DATASET_ITEMS
    modifies data
    ensures complete ==> forall k :: first <= k < end ==> data[k] == DatasetItem(c, k)
    ensures data[..first] == old(data[..first]) && data[end..] == old(data[end..])
    ensures (forall k :: !cancelled(k)) ==> complete
    ensures !complete ==> exists k :: cancelled(k)
    ensures forall k :: first <= k < end ==> data[k] == DatasetItem(c, k) || data[k] == old(data[k])
  {
    hide DatasetItem;
    var sub, looks := first, 0;
    while sub < end
      invariant first <= sub <= end
      invariant forall k :: first <= k < sub ==> data[k] == DatasetItem(c, k)
      invariant data[..first] == old(data[..first]) && data[sub..] == old(data[sub..])
    {
      if cancelled(looks) { return false; }
      var subEnd := Min(sub + CHUNK_ITEMS, end);
      ghost var before := data[..];
      var r := InitializeDataset(data, sub, subEnd - sub, c, sub, subEnd - sub);
      forall k | first <= k < subEnd ensures data[k] == DatasetItem(c, k) {
        if k < sub { assert data[..sub][k] == before[..sub][k]; }
      }
      sub, looks := subEnd, looks + 1;
    }
    return true;
  }
}
