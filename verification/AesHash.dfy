// The scratchpad hash and fill loops (src/aes_hash.cpp). The AES rounds and the
// constants are parameters.
module AesHash {
  import opened Words

  type Block = seq<Byte>

  datatype Quad = Quad(b0: Block, b1: Block, b2: Block, b3: Block)

  datatype Aes = Aes(
    enc: (Block, Block) -> Block, dec: (Block, Block) -> Block,
    fillKey: Quad, hashStart: Quad, finish1: Block, finish2: Block)

  function FillRound(a: Aes, q: Quad): Quad {
    Quad(a.dec(q.b0, a.fillKey.b0), a.enc(q.b1, a.fillKey.b1), a.dec(q.b2, a.fillKey.b2), a.enc(q.b3, a.fillKey.b3))
  }

  function HashRound(a: Aes, h: Quad, x: Quad): Quad {
    Quad(a.enc(h.b0, x.b0), a.dec(h.b1, x.b1), a.enc(h.b2, x.b2), a.dec(h.b3, x.b3))
  }

  function Finish(a: Aes, h: Quad): Quad {
    HashRound(a, HashRound(a, h, Quad(a.finish1, a.finish1, a.finish1, a.finish1)),
              Quad(a.finish2, a.finish2, a.finish2, a.finish2))
  }

  // ---- what the loops compute ----

  // A buffer is a sequence of 16-byte blocks, four to a 64-byte line.
  predicate WholeLines(s: seq<Block>) { |s| % 4 == 0 }

  function Line(s: seq<Block>, n: nat): Quad
    requires 4 * n + 4 <= |s|
  {
    Quad(s[4 * n], s[4 * n + 1], s[4 * n + 2], s[4 * n + 3])
  }

  // The generator state after n lines.
  function FillState(a: Aes, q: Quad, n: nat): Quad {
    if n == 0 then q else FillRound(a, FillState(a, q, n - 1))
  }

  function Part(q: Quad, k: nat): Block {
    if k == 0 then q.b0 else if k == 1 then q.b1 else if k == 2 then q.b2 else q.b3
  }

  // The content of a buffer of n blocks filled from q.
  ghost predicate FilledTo(a: Aes, q: Quad, s: seq<Block>, n: nat)
    requires n <= |s|
  {
    forall k :: 0 <= k < n ==> s[k] == Part(FillState(a, q, k / 4 + 1), k % 4)
  }

  ghost predicate Filled(a: Aes, q: Quad, s: seq<Block>) { FilledTo(a, q, s, |s|) }

  // The hash state after the first n lines.
  function Absorbed(a: Aes, s: seq<Block>, n: nat): Quad
    requires 4 * n <= |s|
  {
    if n == 0 then a.hashStart else HashRound(a, Absorbed(a, s, n - 1), Line(s, n - 1))
  }

  function HashOf(a: Aes, s: seq<Block>): Quad
    requires WholeLines(s)
  {
    Finish(a, Absorbed(a, s, |s| / 4))
  }

  // Two buffers filled from the same seed are equal.
  lemma FilledUnique(a: Aes, q: Quad, s: seq<Block>, t: seq<Block>)
    requires |s| == |t| && Filled(a, q, s) && Filled(a, q, t)
    ensures s == t
  {
  }

  // ---- lane by lane ----

  // Rounds in turn, each with the next key.
  function Fold(round: (Block, Block) -> Block, start: Block, keys: seq<Block>): Block {
    if keys == [] then start else round(Fold(round, start, keys[..|keys| - 1]), keys[|keys| - 1])
  }

  lemma FoldNext(round: (Block, Block) -> Block, start: Block, keys: seq<Block>, k: Block)
    ensures Fold(round, start, keys + [k]) == round(Fold(round, start, keys), k)
  {
    assert (keys + [k])[..|keys|] == keys;
  }

  // Every fourth block from block j on, of the first n lines.
  function Strand(s: seq<Block>, j: nat, n: nat): seq<Block>
    requires j < 4 && 4 * n <= |s|
  {
    seq(n, k requires 0 <= k < n => s[4 * k + j])
  }

  function HashOp(a: Aes, j: nat): (Block, Block) -> Block { if j % 2 == 0 then a.enc else a.dec }

  function FillOp(a: Aes, j: nat): (Block, Block) -> Block { if j % 2 == 0 then a.dec else a.enc }

  lemma RoundLane(a: Aes, h: Quad, s: seq<Block>, n: nat, j: nat)
    requires 4 * n + 4 <= |s| && j < 4
    ensures Part(HashRound(a, h, Line(s, n)), j) == HashOp(a, j)(Part(h, j), s[4 * n + j])
  {
  }

  lemma NoKeys(round: (Block, Block) -> Block, start: Block)
    ensures Fold(round, start, []) == start
  {
  }

  lemma {:induction false} AbsorbedLane(a: Aes, s: seq<Block>, n: nat, j: nat)
    requires 4 * n <= |s| && j < 4
    ensures Part(Absorbed(a, s, n), j) == Fold(HashOp(a, j), Part(a.hashStart, j), Strand(s, j, n))
  {
    hide Part, Fold, HashRound, Line, HashOp;
    if n > 0 {
      AbsorbedLane(a, s, n - 1, j);
      RoundLane(a, Absorbed(a, s, n - 1), s, n - 1, j);
      FoldNext(HashOp(a, j), Part(a.hashStart, j), Strand(s, j, n - 1), s[4 * (n - 1) + j]);
      assert Strand(s, j, n) == Strand(s, j, n - 1) + [s[4 * (n - 1) + j]];
    } else {
      assert Strand(s, j, 0) == [];
      NoKeys(HashOp(a, j), Part(a.hashStart, j));
    }
  }

  // Each lane of the hash absorbs its own blocks and then the two final keys, by
  // encryption rounds in the even lanes and decryption rounds in the odd ones.
  lemma HashLanes(a: Aes, s: seq<Block>, j: nat)
    requires WholeLines(s) && j < 4
    ensures Part(HashOf(a, s), j) ==
            Fold(HashOp(a, j), Part(a.hashStart, j), Strand(s, j, |s| / 4) + [a.finish1, a.finish2])
  {
    var keys := Strand(s, j, |s| / 4);
    AbsorbedLane(a, s, |s| / 4, j);
    FoldNext(HashOp(a, j), Part(a.hashStart, j), keys, a.finish1);
    FoldNext(HashOp(a, j), Part(a.hashStart, j), keys + [a.finish1], a.finish2);
    assert keys + [a.finish1] + [a.finish2] == keys + [a.finish1, a.finish2];
  }

  // Each lane of the generator runs by itself with its own key, by decryption
  // rounds in the even lanes and encryption rounds in the odd ones.
  lemma {:induction false} FillLanes(a: Aes, q: Quad, n: nat, j: nat)
    requires j < 4
    ensures Part(FillState(a, q, n), j) == Fold(FillOp(a, j), Part(q, j), seq(n, _ => Part(a.fillKey, j)))
  {
    if n > 0 {
      FillLanes(a, q, n - 1, j);
      var key := Part(a.fillKey, j);
      FoldNext(FillOp(a, j), Part(q, j), seq(n - 1, _ => key), key);
      assert seq(n, _ => key) == seq(n - 1, _ => key) + [key];
    }
  }

  // Block k of a filled buffer is k / 4 + 1 rounds of its lane away from the seed.
  lemma FilledBlocks(a: Aes, q: Quad, s: seq<Block>, k: nat)
    requires Filled(a, q, s) && k < |s|
    ensures s[k] == Fold(FillOp(a, k % 4), Part(q, k % 4), seq(k / 4 + 1, _ => Part(a.fillKey, k % 4)))
  {
    hide FillState, Part, Fold;
    FillLanes(a, q, k / 4 + 1, k % 4);
  }

  // ---- the loops ----

  method WriteLine(out: array<Block>, n: nat, q: Quad)
    requires 4 * n + 4 <= out.Length
    modifies out
    ensures out[..4 * n] == old(out[..4 * n]) && out[4 * n + 4..] == old(out[4 * n + 4..])
    ensures Line(out[..], n) == q
  {
    out[4 * n], out[4 * n + 1], out[4 * n + 2], out[4 * n + 3] := q.b0, q.b1, q.b2, q.b3;
  }

  lemma FilledGrows(a: Aes, q: Quad, s: seq<Block>, t: seq<Block>, n: nat)
    requires |s| == |t| && 4 * n + 4 <= |s| && FilledTo(a, q, s, 4 * n)
    requires t[..4 * n] == s[..4 * n] && Line(t, n) == FillState(a, q, n + 1)
    ensures FilledTo(a, q, t, 4 * (n + 1))
  {
    hide FillState;
    forall k | 0 <= k < 4 * n ensures t[k] == Part(FillState(a, q, k / 4 + 1), k % 4) {
      assert t[..4 * n][k] == s[..4 * n][k];
    }
    assert t[4 * n] == Line(t, n).b0 && t[4 * n + 1] == Line(t, n).b1;
    assert t[4 * n + 2] == Line(t, n).b2 && t[4 * n + 3] == Line(t, n).b3;
  }

  method FillAes(a: Aes, seed: Quad, out: array<Block>) returns (state: Quad)
    requires WholeLines(out[..])
    modifies out
    ensures Filled(a, seed, out[..]) && state == FillState(a, seed, out.Length / 4)
  {
    hide FilledTo, FillRound;
    state := seed;
    var n := 0;
    assert FilledTo(a, seed, out[..], 0) by { NothingFilled(a, seed, out[..]); }
    while n < out.Length / 4
      invariant n <= out.Length / 4 && state == FillState(a, seed, n) && FilledTo(a, seed, out[..], 4 * n)
    {
      ghost var before := out[..];
      state := FillRound(a, state);
      WriteLine(out, n, state);
      FilledGrows(a, seed, before, out[..], n);
      n := n + 1;
    }
  }

  lemma NothingFilled(a: Aes, q: Quad, s: seq<Block>)
    ensures FilledTo(a, q, s, 0)
  {
  }

  method HashAes(a: Aes, input: array<Block>) returns (hash: Quad)
    requires WholeLines(input[..])
    ensures hash == HashOf(a, input[..])
  {
    hash := a.hashStart;
    var n := 0;
    while n < input.Length / 4
      invariant n <= input.Length / 4 && hash == Absorbed(a, input[..], n)
    {
      hash := HashRound(a, hash, Quad(input[4 * n], input[4 * n + 1], input[4 * n + 2], input[4 * n + 3]));
      n := n + 1;
    }
    hash := Finish(a, hash);
  }

  lemma SameLine(s: seq<Block>, t: seq<Block>, n: nat)
    requires 4 * n + 4 <= |s| == |t| && s[4 * n..] == t[4 * n..]
    ensures Line(s, n) == Line(t, n) && s[4 * n + 4..] == t[4 * n + 4..]
  {
    assert s[4 * n..][0] == t[4 * n..][0] && s[4 * n..][1] == t[4 * n..][1];
    assert s[4 * n..][2] == t[4 * n..][2] && s[4 * n..][3] == t[4 * n..][3];
    assert s[4 * n + 4..] == s[4 * n..][4..];
  }

  // Hashing one buffer while filling another, or the same one: each line is read
  // before it is overwritten, so the hash is that of the old contents either way.
  method HashAndFillInterleaved(a: Aes, hashPad: array<Block>, fillPad: array<Block>, seed: Quad)
    returns (hash: Quad, state: Quad)
    requires hashPad.Length == fillPad.Length && WholeLines(hashPad[..])
    modifies fillPad
    ensures hash == HashOf(a, old(hashPad[..]))
    ensures Filled(a, seed, fillPad[..]) && state == FillState(a, seed, fillPad.Length / 4)
  {
    hide FilledTo, FillRound, HashRound;
    hash, state := a.hashStart, seed;
    ghost var was := hashPad[..];
    var n := 0;
    NothingFilled(a, seed, fillPad[..]);
    while n < hashPad.Length / 4
      invariant n <= hashPad.Length / 4 && hash == Absorbed(a, was, n) && hashPad[4 * n..] == was[4 * n..]
      invariant state == FillState(a, seed, n) && FilledTo(a, seed, fillPad[..], 4 * n)
    {
      ghost var before := fillPad[..];
      var x := Quad(hashPad[4 * n], hashPad[4 * n + 1], hashPad[4 * n + 2], hashPad[4 * n + 3]);
      SameLine(hashPad[..], was, n);
      hash := HashRound(a, hash, x);
      state := FillRound(a, state);
      WriteLine(fillPad, n, state);
      FilledGrows(a, seed, before, fillPad[..], n);
      n := n + 1;
    }
    hash := Finish(a, hash);
  }

  // Hashing a buffer while overwriting it: each line is read just before it is
  // replaced, so the hash is that of the old contents.
  method HashAndFill(a: Aes, pad: array<Block>, seed: Quad) returns (hash: Quad, state: Quad)
    requires WholeLines(pad[..])
    modifies pad
    ensures hash == HashOf(a, old(pad[..]))
    ensures Filled(a, seed, pad[..]) && state == FillState(a, seed, pad.Length / 4)
  {
    hide FilledTo, FillRound, HashRound;
    hash, state := a.hashStart, seed;
    ghost var was := pad[..];
    var n := 0;
    NothingFilled(a, seed, pad[..]);
    while n < pad.Length / 4
      invariant n <= pad.Length / 4 && hash == Absorbed(a, was, n) && pad[4 * n..] == was[4 * n..]
      invariant state == FillState(a, seed, n) && FilledTo(a, seed, pad[..], 4 * n)
    {
      ghost var before := pad[..];
      var x := Quad(pad[4 * n], pad[4 * n + 1], pad[4 * n + 2], pad[4 * n + 3]);
      SameLine(before, was, n);
      hash, state := HashRound(a, hash, x), FillRound(a, state);
      WriteLine(pad, n, state);
      FilledGrows(a, seed, before, pad[..], n);
      n := n + 1;
    }
    hash := Finish(a, hash);
  }
}
