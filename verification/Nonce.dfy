// Nonces: how they are written into a block template, and how the workers share
// them out (src/mining_engine.cpp).
module Nonce {
  import opened Words
  import opened Arith

  function Pow256(n: nat): (r: nat)
    ensures r > 0
  {
    if n == 0 then 1 else 256 * Pow256(n - 1)
  }

  // Little-endian bytes.
  function Bytes(x: nat, size: nat): (b: seq<Byte>)
    ensures |b| == size
  {
    if size == 0 then [] else [x % 256] + Bytes(x / 256, size - 1)
  }

  function Value(b: seq<Byte>): nat {
    if b == [] then 0 else b[0] + 256 * Value(b[1..])
  }

  // Reading the bytes back gives the nonce cut to the field.
  lemma {:induction false} ValueOfBytes(x: nat, size: nat)
    ensures Value(Bytes(x, size)) == x % Pow256(size)
  {
    if size > 0 {
      ValueOfBytes(x / 256, size - 1);
      assert Bytes(x, size)[1..] == Bytes(x / 256, size - 1);
      ModSplit(x, Pow256(size - 1), 256);
    }
  }

  lemma {:induction false} BytesAt(x: nat, size: nat, i: nat)
    requires i < size
    ensures Bytes(x, size)[i] == x / Pow256(i) % 256
  {
    if i > 0 {
      BytesAt(x / 256, size - 1, i - 1);
      ModSplit(x, Pow256(i - 1), 256);
    }
  }

  function Stamp(block: seq<Byte>, nonce: nat, offset: nat, size: nat): (r: seq<Byte>)
    requires offset + size <= |block|
    ensures |r| == |block|
  {
    block[..offset] + Bytes(nonce, size) + block[offset + size..]
  }

  // Distinct nonces that fit the field give distinct blocks.
  lemma StampInjective(block: seq<Byte>, a: nat, b: nat, offset: nat, size: nat)
    requires offset + size <= |block| && a < Pow256(size) && b < Pow256(size) && a != b
    ensures Stamp(block, a, offset, size) != Stamp(block, b, offset, size)
  {
    var s, t := Stamp(block, a, offset, size), Stamp(block, b, offset, size);
    assert s[offset..offset + size] == Bytes(a, size) && t[offset..offset + size] == Bytes(b, size);
    ValueOfBytes(a, size);
    ValueOfBytes(b, size);
    DivUnique(a, Pow256(size), 0, a);
    DivUnique(b, Pow256(size), 0, b);
  }

  method UpdateNonce(block: seq<Byte>, nonce: Word, offset: nat, size: nat) returns (ok: bool, out: seq<Byte>)
    ensures ok == (offset + size <= |block|)
    ensures out == if ok then Stamp(block, nonce, offset, size) else block
  {
    out := block;
    if offset + size > |block| { return false, block; }
    var rest, i := nonce, 0;
    while i < size
      invariant i <= size && out == block[..offset] + Bytes(nonce, size)[..i] + block[offset + i..]
      invariant rest == nonce / Pow256(i) && rest >= 0
    {
      BytesAt(nonce, size, i);
      ModSplit(nonce, 256, Pow256(i));
      assert Bytes(nonce, size)[..i + 1] == Bytes(nonce, size)[..i] + [rest % 256];
      out := out[offset + i := rest % 256];
      assert out == block[..offset] + Bytes(nonce, size)[..i + 1] + block[offset + i + 1..];
      rest, i := rest / 256, i + 1;
    }
    assert Bytes(nonce, size)[..size] == Bytes(nonce, size);
    ok := true;
  }

  // ---- sharing out ----

  // The k-th nonce a worker draws for a job; the counter is 64 bits wide.
  function Draw(worker: nat, workers: nat, k: nat): Word { (worker + k * workers) % TWO64 }

  lemma DrawFirst(worker: nat, workers: nat)
    ensures Draw(worker, workers, 0) == worker % TWO64
  {
  }

  lemma DrawNext(worker: nat, workers: nat, k: nat)
    ensures Draw(worker, workers, k + 1) == (Draw(worker, workers, k) + workers) % TWO64
  {
    var x := worker + k * workers;
    assert worker + (k + 1) * workers == x + workers;
    AddMod(x, workers, TWO64);
    AddMod(Draw(worker, workers, k), workers, TWO64);
    ModMod(x, TWO64, 1, TWO64);
  }

  // Until the counter leaves the nonce field, no two draws of any workers stamp
  // the same block.
  lemma DrawsNeverClash(block: seq<Byte>, offset: nat, size: nat, workers: nat, v: nat, j: nat, w: nat, k: nat)
    requires offset + size <= |block| && v < workers && w < workers && (v != w || j != k)
    requires v + j * workers < Pow256(size) && v + j * workers < TWO64
    requires w + k * workers < Pow256(size) && w + k * workers < TWO64
    ensures Stamp(block, Draw(v, workers, j), offset, size) != Stamp(block, Draw(w, workers, k), offset, size)
  {
    hide Stamp, Pow256;
    var a, b := v + j * workers, w + k * workers;
    DivUnique(a, workers, j, v);
    DivUnique(b, workers, k, w);
    DivUnique(a, TWO64, 0, a);
    DivUnique(b, TWO64, 0, b);
    StampInjective(block, a, b, offset, size);
  }
}
