// Argon2d memory filling with one lane (src/argon2.cpp; section 3.4 of RFC 9106).
module Argon2 {
  import opened Words
  import opened Arith

  // Legal sizes: at least eight 1 KiB blocks, a multiple of four, addressable.
  type Size = m: int | 8 <= m < 0x40_0000_0000_0000 && m % 4 == 0 witness 8

  // Number of blocks a reference may be chosen from.
  function Area(m: Size, pass: nat, slice: nat, index: nat): (area: nat)
    requires slice < 4 && index < m / 4 && (pass == 0 && slice == 0 ==> index >= 2)
    ensures 1 <= area < m
  {
    if pass == 0 then slice * (m / 4) + index - 1 else m - m / 4 + index - 1
  }

  function StartPosition(m: Size, pass: nat, slice: nat): nat {
    if pass == 0 || slice == 3 then 0 else (slice + 1) * (m / 4)
  }

  // All products and sums wrap at 64 bits.
  function Reference(m: Size, pass: nat, slice: nat, index: nat, j1: U32): nat
    requires slice < 4 && index < m / 4 && (pass == 0 && slice == 0 ==> index >= 2)
  {
    var area := Area(m, pass, slice, index);
    var x := j1 * j1 / TWO32;
    var y := area * x % TWO64 / TWO32;
    (StartPosition(m, pass, slice) + (area - 1 - y) % TWO64) % TWO64 % m
  }

  function Current(m: Size, slice: nat, index: nat): nat { slice * (m / 4) + index }

  function Previous(m: Size, current: nat): nat { if current == 0 then m - 1 else current - 1 }

  // What RFC 9106 allows: not the previous block, nothing at or after the current
  // block in its segment, and in the first pass only blocks already written.
  ghost predicate MayRefer(m: Size, pass: nat, slice: nat, index: nat, b: int) {
    && 0 <= b < m
    && b != Previous(m, Current(m, slice, index))
    && !(Current(m, slice, index) <= b < (slice + 1) * (m / 4))
    && (pass == 0 ==> b < Current(m, slice, index))
  }

  // How far back in a window of w blocks a draw points, as section 3.4.2 of RFC
  // 9106 prescribes; the product wraps at 64 bits.
  function Back(w: nat, j1: U32): int { w * (j1 * j1 / TWO32) % TWO64 / TWO32 }

  // The draw is always inside the area, even where the product wraps.
  lemma DrawInArea(area: nat, j1: U32)
    requires 1 <= area < TWO64
    ensures 0 <= area * (j1 * j1 / TWO32) % TWO64 / TWO32 < area
  {
    var x := j1 * j1 / TWO32;
    var prod := area * x;
    assert 0 <= x < TWO32 by { SquareSmall(j1); }
    MulBelow(0, x, area);
    if area < TWO32 {
      MulBelow(x, TWO32 - 1, area);
      assert prod < area * TWO32 < TWO64;
    }
  }

  lemma SquareSmall(j: U32)
    ensures 0 <= j * j / TWO32 < TWO32
  {
    if j > 0 {
      MulBelow(j, TWO32 - 1, j);
      MulBelow(j, TWO32 - 1, TWO32 - 1);
      MulBelow(0, j, j);
    }
  }

  lemma RingPosition(m: int, start: int, rel: int)
    requires 0 <= start < m && 0 <= rel < m && m > 0
    ensures (start + rel) % m == if start + rel < m then start + rel else start + rel - m
  {
    var wraps := if start + rel < m then 0 else 1;
    DivUnique(start + rel, m, wraps, start + rel - wraps * m);
  }

  lemma ReferenceIs(m: Size, pass: nat, slice: nat, index: nat, j1: U32) returns (rel: nat)
    requires slice < 4 && index < m / 4 && (pass == 0 && slice == 0 ==> index >= 2)
    ensures rel < Area(m, pass, slice, index)
    ensures rel == Area(m, pass, slice, index) - 1 - Back(Area(m, pass, slice, index), j1)
    ensures var p := StartPosition(m, pass, slice) + rel;
            Reference(m, pass, slice, index, j1) == if p < m then p else p - m
  {
    hide Area, StartPosition;
    var area, start := Area(m, pass, slice, index), StartPosition(m, pass, slice);
    DrawInArea(area, j1);
    StartBelow(m, pass, slice);
    rel := area - 1 - Back(area, j1);
    ReferenceSum(m, start, rel);
    assert Reference(m, pass, slice, index, j1) == (start + rel % TWO64) % TWO64 % m;
  }

  lemma StartBelow(m: Size, pass: nat, slice: nat)
    requires slice < 4
    ensures StartPosition(m, pass, slice) < m
  {
  }

  lemma ReferenceSum(m: Size, start: nat, rel: nat)
    requires start < m && rel < m
    ensures (start + rel % TWO64) % TWO64 % m == if start + rel < m then start + rel else start + rel - m
  {
    NoWrap(rel);
    NoWrap(start + rel);
    RingPosition(m, start, rel);
  }

  lemma NoWrap(x: int)
    requires 0 <= x < TWO64
    ensures x % TWO64 == x
  {
  }

  // Every block ever referred to is one the standard allows.
  lemma ReferenceLegal(m: Size, pass: nat, slice: nat, index: nat, j1: U32)
    requires slice < 4 && index < m / 4 && (pass == 0 && slice == 0 ==> index >= 2)
    ensures MayRefer(m, pass, slice, index, Reference(m, pass, slice, index, j1))
  {
    hide Reference;
    var rel := ReferenceIs(m, pass, slice, index, j1);
  }

  // ---- which block a draw names ----

  // How many blocks ago block b was written, when block c is to be written next.
  function Age(m: Size, c: nat, b: int): nat { (c - b) % m }

  lemma AgeIs(m: Size, c: nat, b: int)
    requires c < m && 0 <= b < m
    ensures Age(m, c, b) == if b <= c then c - b else c - b + m
  {
    DivUnique(c - b, m, if b <= c then 0 else -1, if b <= c then c - b else c - b + m);
  }

  // The blocks the standard allows are the ones written last, except the very
  // last: a window of the given size.
  lemma WindowIsRecent(m: Size, pass: nat, slice: nat, index: nat, b: int)
    requires slice < 4 && index < m / 4 && (pass == 0 && slice == 0 ==> index >= 2)
    ensures MayRefer(m, pass, slice, index, b) <==>
            0 <= b < m && 2 <= Age(m, Current(m, slice, index), b) <= Area(m, pass, slice, index) + 1
  {
    hide Age, MayRefer, Current, Area;
    var seg, c := m / 4, Current(m, slice, index);
    SegmentFacts(m, pass, slice, index);
    if 0 <= b < m { AgeIs(m, c, b); }
    MayReferIs(m, pass, slice, index, b, c);
  }

  lemma SegmentFacts(m: Size, pass: nat, slice: nat, index: nat)
    requires slice < 4 && index < m / 4 && (pass == 0 && slice == 0 ==> index >= 2)
    ensures var c := Current(m, slice, index);
            && index <= c && c < m && c - index + m / 4 <= m
            && Area(m, pass, slice, index) == if pass == 0 then c - 1 else m - m / 4 + index - 1
  {
  }

  lemma MayReferIs(m: Size, pass: nat, slice: nat, index: nat, b: int, c: nat)
    requires slice < 4 && index < m / 4 && c == Current(m, slice, index) && c < m
    ensures MayRefer(m, pass, slice, index, b) <==>
            && 0 <= b < m && b != (if c == 0 then m - 1 else c - 1)
            && !(c <= b < c - index + m / 4) && (pass == 0 ==> b < c)
  {
    assert (slice + 1) * (m / 4) == slice * (m / 4) + m / 4;
  }

  ghost function Window(m: Size, pass: nat, slice: nat, index: nat): set<int> {
    set b | 0 <= b < m && MayRefer(m, pass, slice, index, b)
  }

  ghost function Aged(m: Size, c: nat, k: nat): set<int> {
    set b | 0 <= b < m && 2 <= Age(m, c, b) <= k + 1
  }

  lemma AgedNext(m: Size, c: nat, k: nat, b: int)
    requires c < m && 0 < k && k + 1 < m && b == if k + 1 <= c then c - k - 1 else c - k - 1 + m
    ensures Aged(m, c, k) == Aged(m, c, k - 1) + {b} && b !in Aged(m, c, k - 1)
  {
    hide Age;
    AgeIs(m, c, b);
    forall x | 0 <= x < m ensures Age(m, c, x) == k + 1 <==> x == b { AgeIs(m, c, x); }
  }

  lemma NoneAged(m: Size, c: nat)
    ensures Aged(m, c, 0) == {}
  {
  }

  lemma {:induction false} AgedCount(m: Size, c: nat, k: nat)
    requires c < m && k + 1 < m
    ensures |Aged(m, c, k)| == k
    decreases k
  {
    hide Aged;
    if k == 0 {
      NoneAged(m, c);
    } else {
      AgedCount(m, c, k - 1);
      AgedNext(m, c, k, if k + 1 <= c then c - k - 1 else c - k - 1 + m);
    }
  }

  // The area is the number of blocks allowed.
  lemma WindowSize(m: Size, pass: nat, slice: nat, index: nat)
    requires slice < 4 && index < m / 4 && (pass == 0 && slice == 0 ==> index >= 2)
    ensures |Window(m, pass, slice, index)| == Area(m, pass, slice, index)
  {
    hide MayRefer, Age, Area;
    var c, w := Current(m, slice, index), Area(m, pass, slice, index);
    CurrentBelow(m, slice, index);
    forall b: int
      ensures MayRefer(m, pass, slice, index, b) <==> 0 <= b < m && 2 <= Age(m, c, b) <= w + 1
    {
      WindowIsRecent(m, pass, slice, index, b);
    }
    assert Window(m, pass, slice, index) == Aged(m, c, w);
    AreaBound(m, pass, slice, index);
    AgedCount(m, c, w);
  }

  lemma AreaBound(m: Size, pass: nat, slice: nat, index: nat)
    requires slice < 4 && index < m / 4 && (pass == 0 && slice == 0 ==> index >= 2)
    ensures Area(m, pass, slice, index) + 1 < m
  {
  }

  // Counted from the newest allowed block, two before the current one, a draw
  // points back as far as the standard says for a window of that many blocks.
  lemma ReferenceDistance(m: Size, pass: nat, slice: nat, index: nat, j1: U32)
    requires slice < 4 && index < m / 4 && (pass == 0 && slice == 0 ==> index >= 2)
    ensures var c, z := Current(m, slice, index), Back(|Window(m, pass, slice, index)|, j1);
            && 0 <= z < |Window(m, pass, slice, index)|
            && Reference(m, pass, slice, index, j1) == (c - 2 - z) % m
            && Age(m, c, Reference(m, pass, slice, index, j1)) == 2 + z
  {
    hide Reference, Window, Age, Back;
    WindowSize(m, pass, slice, index);
    CurrentBelow(m, slice, index);
    var c, w := Current(m, slice, index), Area(m, pass, slice, index);
    var rel := ReferenceIs(m, pass, slice, index, j1);
    AreaBound(m, pass, slice, index);
    BackInWindow(w, j1);
    var r, z := Reference(m, pass, slice, index, j1), Back(w, j1);
    assert r == if c - 2 - z >= 0 then c - 2 - z else c - 2 - z + m;
    DivUnique(c - 2 - z, m, if c - 2 - z >= 0 then 0 else -1, r);
    AgeIs(m, c, r);
  }

  lemma BackInWindow(w: nat, j1: U32)
    requires 1 <= w < TWO64
    ensures 0 <= Back(w, j1) < w
  {
    DrawInArea(w, j1);
  }

  lemma NoDrawNoDistance(w: nat)
    ensures Back(w, 0) == 0
  {
  }

  // The zero draw names the block two before the current one.
  lemma ZeroDrawNewest(m: Size, pass: nat, slice: nat, index: nat)
    requires slice < 4 && index < m / 4 && (pass == 0 && slice == 0 ==> index >= 2)
    ensures Reference(m, pass, slice, index, 0) == (Current(m, slice, index) - 2) % m
  {
    hide Reference, Window, Back;
    ReferenceDistance(m, pass, slice, index, 0);
    NoDrawNoDistance(|Window(m, pass, slice, index)|);
  }

  lemma BackGrows(w: nat, j: U32, k: U32)
    requires w < TWO32 && j <= k
    ensures Back(w, j) <= Back(w, k)
  {
    SquareSmall(j);
    SquareSmall(k);
    MulBelow(j, k, j);
    MulBelow(j, k, k);
    var x, y := j * j / TWO32, k * k / TWO32;
    DivGrows(j * j, k * k, TWO32);
    MulBelow(x, y, w);
    MulBelow(y, TWO32 - 1, w);
    MulBelow(w, TWO32 - 1, TWO32);
    MulBelow(0, x, w);
    NoWrap(w * x);
    NoWrap(w * y);
    DivGrows(w * x, w * y, TWO32);
  }

  lemma DivGrows(a: int, b: int, d: int)
    requires d > 0 && a <= b
    ensures a / d <= b / d
  {
    if b / d < a / d { MulBelow(b / d + 1, a / d, d); }
  }

  // A larger draw never names a more recent block, unless the products wrap.
  lemma LargerDrawOlder(m: Size, pass: nat, slice: nat, index: nat, j: U32, k: U32)
    requires slice < 4 && index < m / 4 && (pass == 0 && slice == 0 ==> index >= 2) && j <= k
    requires Area(m, pass, slice, index) < TWO32
    ensures var c := Current(m, slice, index);
            Age(m, c, Reference(m, pass, slice, index, j)) <= Age(m, c, Reference(m, pass, slice, index, k))
  {
    hide Reference, Window, Back, Age, Area;
    WindowSize(m, pass, slice, index);
    ReferenceDistance(m, pass, slice, index, j);
    ReferenceDistance(m, pass, slice, index, k);
    BackGrows(Area(m, pass, slice, index), j, k);
  }

  // ---- filling ----

  type Block = seq<Word>

  // The compression function, and the low half of a block's first word.
  datatype Mix = Mix(compress: (Block, Block, Option<Block>) -> Block, draw: Block -> U32)

  function RefAt(m: Size, pass: nat, i: nat, j1: U32): (r: nat)
    requires i < m && (pass == 0 ==> i >= 2)
    ensures r < m && (pass == 0 ==> r < i)
  {
    SegmentOf(m, i);
    ReferenceLegal(m, pass, i / (m / 4), i % (m / 4), j1);
    Reference(m, pass, i / (m / 4), i % (m / 4), j1)
  }

  lemma SegmentOf(m: Size, i: nat)
    requires i < m
    ensures i / (m / 4) < 4 && i % (m / 4) < m / 4 && Current(m, i / (m / 4), i % (m / 4)) == i
    ensures i >= 2 && i / (m / 4) == 0 ==> i % (m / 4) >= 2
  {
    var seg := m / 4;
    if i / seg >= 4 { MulBelow(4, i / seg, seg); }
  }

  // The value of block i after the given pass, defined without any memory: the
  // recursion is well founded because references only name finished blocks.
  ghost function BlockAfter(g: Mix, m: Size, first: seq<Block>, pass: nat, i: nat): Block
    requires |first| == 2 && i < m
    decreases pass, i
  {
    if pass == 0 && i < 2 then first[i]
    else
      var previous := if i == 0 then BlockAfter(g, m, first, pass - 1, m - 1) else BlockAfter(g, m, first, pass, i - 1);
      var r := RefAt(m, pass, i, g.draw(previous));
      var reference := if r < i then BlockAfter(g, m, first, pass, r) else BlockAfter(g, m, first, pass - 1, r);
      g.compress(previous, reference, if pass == 0 then None else Some(BlockAfter(g, m, first, pass - 1, i)))
  }

  // Blocks before c are done for this pass, the others hold the previous pass.
  ghost predicate DoneTo(g: Mix, m: Size, first: seq<Block>, blocks: seq<Block>, pass: nat, c: nat) {
    && |first| == 2 && |blocks| == m && c <= m
    && (forall i :: 0 <= i < c ==> blocks[i] == BlockAfter(g, m, first, pass, i))
    && (pass > 0 ==> forall i :: c <= i < m ==> blocks[i] == BlockAfter(g, m, first, pass - 1, i))
  }

  method FillBlock(g: Mix, m: Size, blocks: array<Block>, pass: nat, slice: nat, index: nat, ghost first: seq<Block>)
    requires blocks.Length == m && slice < 4 && index < m / 4 && (pass == 0 && slice == 0 ==> index >= 2)
    requires DoneTo(g, m, first, blocks[..], pass, Current(m, slice, index))
    modifies blocks
    ensures DoneTo(g, m, first, blocks[..], pass, Current(m, slice, index) + 1)
  {
    hide Reference, BlockAfter, DoneTo, RefAt, Current;
    var current := Current(m, slice, index);
    CurrentBelow(m, slice, index);
    var previous := Previous(m, current);
    var j1 := g.draw(blocks[previous]);
    RefAtIs(m, pass, slice, index, j1);
    var reference := Reference(m, pass, slice, index, j1);
    ghost var before := blocks[..];
    var was := if pass == 0 then None else Some(blocks[current]);
    blocks[current] := g.compress(blocks[previous], blocks[reference], was);
    BlockAfterStep(g, m, first, before, pass, current, blocks[current]);
    DoneGrows(g, m, first, before, blocks[..], pass, current);
  }

  lemma CurrentBelow(m: Size, slice: nat, index: nat)
    requires slice < 4 && index < m / 4
    ensures Current(m, slice, index) < m
  {
  }

  lemma RefAtIs(m: Size, pass: nat, slice: nat, index: nat, j1: U32)
    requires slice < 4 && index < m / 4 && (pass == 0 && slice == 0 ==> index >= 2)
    ensures var i := Current(m, slice, index);
            i < m && (pass == 0 ==> i >= 2) && RefAt(m, pass, i, j1) == Reference(m, pass, slice, index, j1)
  {
    hide Reference;
    DivUnique(Current(m, slice, index), m / 4, slice, index);
  }

  lemma DoneGrows(g: Mix, m: Size, first: seq<Block>, before: seq<Block>, after: seq<Block>, pass: nat, c: nat)
    requires c < m && DoneTo(g, m, first, before, pass, c) && |after| == m
    requires after[c] == BlockAfter(g, m, first, pass, c) && after == before[c := after[c]]
    ensures DoneTo(g, m, first, after, pass, c + 1)
  {
    hide BlockAfter;
  }

  lemma BlockAfterStep(g: Mix, m: Size, first: seq<Block>, blocks: seq<Block>, pass: nat, i: nat, b: Block)
    requires i < m && (pass == 0 ==> i >= 2) && DoneTo(g, m, first, blocks, pass, i)
    requires var previous := blocks[Previous(m, i)];
             b == g.compress(previous, blocks[RefAt(m, pass, i, g.draw(previous))],
                             if pass == 0 then None else Some(blocks[i]))
    ensures b == BlockAfter(g, m, first, pass, i)
  {
    hide RefAt;
  }

  // The first block a segment fills: the two given blocks are skipped.
  function Begin(m: Size, pass: nat, slice: nat): nat { if pass == 0 && slice == 0 then 2 else slice * (m / 4) }

  lemma BeginEnds(m: Size, pass: nat)
    ensures Begin(m, pass, 4) == m && Begin(m, pass, 0) == if pass == 0 then 2 else 0
  {
  }

  method FillSegment(g: Mix, m: Size, blocks: array<Block>, pass: nat, slice: nat, ghost first: seq<Block>)
    requires blocks.Length == m && slice < 4 && DoneTo(g, m, first, blocks[..], pass, Begin(m, pass, slice))
    modifies blocks
    ensures DoneTo(g, m, first, blocks[..], pass, Begin(m, pass, slice + 1))
  {
    hide DoneTo;
    var index := if pass == 0 && slice == 0 then 2 else 0;
    while index < m / 4
      invariant index <= m / 4 && (pass == 0 && slice == 0 ==> index >= 2)
      invariant DoneTo(g, m, first, blocks[..], pass, Current(m, slice, index))
    {
      FillBlock(g, m, blocks, pass, slice, index, first);
      index := index + 1;
    }
  }

  lemma PassDone(g: Mix, m: Size, first: seq<Block>, blocks: seq<Block>, pass: nat)
    requires DoneTo(g, m, first, blocks, pass, m)
    ensures DoneTo(g, m, first, blocks, pass + 1, 0)
  {
    hide BlockAfter;
  }

  // The in-place fill leaves every block with the value the recursion gives it.
  method FillMemory(g: Mix, m: Size, passes: nat, blocks: array<Block>)
    requires blocks.Length == m && passes > 0
    modifies blocks
    ensures forall i :: 0 <= i < m ==> blocks[i] == BlockAfter(g, m, old(blocks[..2]), passes - 1, i)
  {
    hide BlockAfter, DoneTo, Begin;
    ghost var first := blocks[..2];
    FirstBlocks(g, m, blocks[..]);
    BeginEnds(m, 0);
    var pass := 0;
    while pass < passes
      invariant pass <= passes && DoneTo(g, m, first, blocks[..], pass, Begin(m, pass, 0))
    {
      var slice := 0;
      while slice < 4
        invariant slice <= 4 && DoneTo(g, m, first, blocks[..], pass, Begin(m, pass, slice))
      {
        FillSegment(g, m, blocks, pass, slice, first);
        slice := slice + 1;
      }
      BeginEnds(m, pass);
      PassDone(g, m, first, blocks[..], pass);
      pass := pass + 1;
      BeginEnds(m, pass);
    }
    BeginEnds(m, passes);
    AllDone(g, m, first, blocks[..], passes);
  }

  lemma AllDone(g: Mix, m: Size, first: seq<Block>, blocks: seq<Block>, passes: nat)
    requires passes > 0 && DoneTo(g, m, first, blocks, passes, 0)
    ensures forall i :: 0 <= i < m ==> blocks[i] == BlockAfter(g, m, first, passes - 1, i)
  {
    hide BlockAfter;
  }

  lemma FirstBlocks(g: Mix, m: Size, blocks: seq<Block>)
    requires |blocks| == m
    ensures DoneTo(g, m, blocks[..2], blocks, 0, 2)
  {
  }
}
