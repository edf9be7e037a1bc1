// How the background fill divides the partial dataset among its workers
// (src/partial_dataset.cpp).
module Chunks {
  import opened Arith

  const CHUNK_ITEMS: nat := 0x10_0000     // 64 MiB of 64-byte items
  const DATASET_ITEMS: nat := 0x208_0000  // 2 GiB + 32 MiB of 64-byte items

  function CeilDiv(a: nat, b: nat): (q: nat)
    requires b > 0
    ensures (q - 1) * b < a <= q * b || (a == 0 && q == 0)
  {
    DivUnique(a + b - 1, b, (a + b - 1) / b, (a + b - 1) % b);
    (a + b - 1) / b
  }

  function Min(a: nat, b: nat): nat { if a < b then a else b }

  // start_fill: total items, and the number of cores the fill may use.
  datatype RawLayout = RawLayout(total: nat, workers: nat, perChunk: nat)
  {
    // First item of chunk k; chunk `workers` stands for the end.
    function Bound(k: nat): nat { if k < workers then k * perChunk else total }
  }

  // What the publish cursor relies on: every chunk starts inside the buffer.
  ghost predicate IsLayout(l: RawLayout) {
    && l.workers > 0 && l.perChunk > 0
    && (l.workers - 1) * l.perChunk < l.total <= l.workers * l.perChunk
  }

  type Layout = l: RawLayout | IsLayout(l) ghost witness RawLayout(1, 1, 1)

  function Divide(total: nat, cores: nat): (l: RawLayout)
    requires 0 < total
  {
    var workers := Min(CeilDiv(total, CHUNK_ITEMS), if cores == 0 then 1 else cores);
    RawLayout(total, workers, CeilDiv(total, workers))
  }

  lemma SquareBelow(w: int, total: int, k: int)
    requires 0 <= w <= k && (w > 0 ==> w * k < total) && 0 < total
    ensures w * w < total
  {
    if w > 0 { MulBelow(w, k, w); }
  }

  // Every accepted size yields non-empty chunks.
  lemma DivideIsLayout(total: nat, cores: nat)
    requires 0 < total <= DATASET_ITEMS
    ensures IsLayout(Divide(total, cores))
  {
    var w := CeilDiv(total, CHUNK_ITEMS);
    assert w <= 33 by { if w >= 34 { MulBelow(33, w - 1, CHUNK_ITEMS); } }
    var n := Divide(total, cores).workers;
    var c := CeilDiv(total, n);
    assert 1 <= n <= w;
    assert (n - 1) * CHUNK_ITEMS < total by { MulBelow(n - 1, w - 1, CHUNK_ITEMS); }
    SquareBelow(n - 1, total, CHUNK_ITEMS);
    assert (c - 1) * n < total;
    AlmostAll(total, n, c);
  }

  // As many workers as there are cores, or as few as keep chunks within the
  // limit; the shares are as small as they can be.
  lemma WorkersShare(total: nat, cores: nat)
    requires 0 < total
    ensures var l := Divide(total, cores);
            && l.total == total && l.workers >= 1 && (l.workers <= cores || l.workers == 1)
            && (l.workers - 1) * CHUNK_ITEMS < total && (l.workers < cores ==> total <= l.workers * CHUNK_ITEMS)
            && (l.perChunk - 1) * l.workers < total <= l.perChunk * l.workers
  {
    var w, l := CeilDiv(total, CHUNK_ITEMS), Divide(total, cores);
    assert (l.workers - 1) * CHUNK_ITEMS < total by { MulBelow(l.workers - 1, w - 1, CHUNK_ITEMS); }
    assert l.perChunk == CeilDiv(total, l.workers);
  }

  // With (n-1)^2 < total, n - 1 full chunks do not reach the end.
  lemma AlmostAll(total: int, n: int, c: int)
    requires n > 0 && (n - 1) * (n - 1) < total && (c - 1) * n < total
    ensures (n - 1) * c < total
  {
    var b := n - 1;
    MulBelow((c - 1) * n, total - 1, b);
    Spread(b, c, n);
    Gathered(b, total);
    assert b * c * n < b * total + total;
    Cancel((n - 1) * c, total, n);
  }

  lemma Spread(b: int, c: int, n: int)
    ensures b * c * n == (c - 1) * n * b + b * n
  {
  }

  lemma Gathered(b: int, total: int)
    ensures (total - 1) * b + b * (b + 1) == b * total + b * b && b * total + total == total * (b + 1)
  {
  }

  lemma Cancel(a: int, b: int, d: int)
    requires d > 0 && a * d < b * d
    ensures a < b
  {
    if a >= b { MulBelow(b, a, d); }
  }

  // Bounds grow strictly up to the end, so chunks are disjoint and cover all.
  lemma BoundsGrow(l: Layout, j: nat, k: nat)
    requires j < k <= l.workers
    ensures l.Bound(j) < l.Bound(j + 1) <= l.Bound(k) <= l.total
  {
    MulBelow(j + 1, k, l.perChunk);
    MulBelow(j, l.workers - 1, l.perChunk);
    if j + 1 < l.workers { MulBelow(j + 1, l.workers - 1, l.perChunk); }
    if k < l.workers { MulBelow(k, l.workers - 1, l.perChunk); }
  }

  // The cursor arithmetic of fill_worker at a chunk bound.
  lemma CursorStep(l: Layout, k: nat)
    requires k < l.workers
    ensures l.Bound(k) < l.total && l.Bound(k) / l.perChunk == k
    ensures l.Bound(k) + (if k + 1 < l.workers then l.perChunk else l.total - k * l.perChunk) == l.Bound(k + 1)
  {
    BoundsGrow(l, k, l.workers);
    DivUnique(k * l.perChunk, l.perChunk, k, 0);
  }

  lemma DivFits(item: nat, n: nat, workers: nat, total: nat)
    requires n > 0 && item < total <= workers * n
    ensures var k := item / n; k < workers && k * n <= item < (k + 1) * n
  {
    var k := item / n;
    if k >= workers { MulBelow(workers, k, n); }
  }

  // Every item lies in exactly one chunk.
  lemma ChunksPartition(l: Layout, item: nat) returns (k: nat)
    requires item < l.total
    ensures k < l.workers && l.Bound(k) <= item < l.Bound(k + 1)
    ensures forall j :: 0 <= j < l.workers && l.Bound(j) <= item < l.Bound(j + 1) ==> j == k
  {
    k := item / l.perChunk;
    DivFits(item, l.perChunk, l.workers, l.total);
    forall j | 0 <= j < l.workers && l.Bound(j) <= item < l.Bound(j + 1) ensures j == k {
      if j < k { BoundsGrow(l, j, k); }
      if k < j { BoundsGrow(l, k, j); }
    }
  }
}
