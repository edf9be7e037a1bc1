// Share targets: byte-wise long division of 2^256 - 1 by the difficulty, and the
// comparison of a hash with a target (src/miner_app.cpp,
// include/armrx/mining_common.hpp).
module Target {
  import opened Words
  import opened Arith
  import opened Nonce
  import opened Reciprocal

  type Bytes32 = b: seq<Byte> | |b| == 32 witness seq(32, _ => 0)

  const TWO56: int := 0x100_0000_0000_0000

  // The 64-bit remainder after k digits, most significant first.
  function Remainder(d: Word, k: nat): (r: Word)
    requires d > 0
    ensures r < d
    decreases k, 0
  {
    if k == 0 then 0 else Dividend(d, k - 1) % d
  }

  function Dividend(d: Word, k: nat): Word
    requires d > 0
    decreases k, 1
  {
    AlignedByte(Remainder(d, k));
    Remainder(d, k) * 256 % TWO64 + 255
  }

  lemma AlignedByte(r: Word)
    ensures r * 256 % TWO64 + 255 < TWO64
    ensures r < TWO56 ==> r * 256 % TWO64 == r * 256
  {
  }

  function Digit(d: Word, k: nat): Byte
    requires d > 0
  {
    Dividend(d, k) / d % 256
  }

  // The number the first k digits spell.
  function Spelled(d: Word, k: nat): nat
    requires d > 0
  {
    if k == 0 then 0 else 256 * Spelled(d, k - 1) + Digit(d, k - 1)
  }

  function Divisor(diff: Word): (d: Word)
    ensures d > 0
  {
    if diff == 0 then 1 else diff
  }

  method DifficultyToTarget(diff: Word) returns (target: Bytes32)
    ensures Value(target) == Spelled(Divisor(diff), 32)
  {
    hide Dividend;
    var d := Divisor(diff);
    target := seq(32, _ => 0);
    var remainder: Word, i := 0, 31;
    while i >= 0
      invariant -1 <= i <= 31 && remainder == Remainder(d, 31 - i)
      invariant Value(target[i + 1..]) == Spelled(d, 31 - i)
    {
      AlignedByte(remainder);
      var val: Word := remainder * 256 % TWO64 + 255;
      assert val == Dividend(d, 31 - i) by { DividendIs(d, 31 - i); }
      ghost var rest := target[i + 1..];
      target := target[i := val / d % 256];
      assert target[i..] == [val / d % 256] + rest;
      remainder := val % d;
      i := i - 1;
    }
    assert target[0..] == target;
  }

  lemma DividendIs(d: Word, k: nat)
    requires d > 0
    ensures Dividend(d, k) == Remainder(d, k) * 256 % TWO64 + 255
  {
  }

  // ---- when the division is exact ----

  // The exact remainder after k digits fits 56 bits, so the next shift is safe.
  ghost predicate ShiftsSafely(d: Word, k: nat)
    requires d > 0
  {
    (Pow256(k) - 1) % d < TWO56
  }

  lemma NextDigit(n: nat, d: nat, s: nat, r: nat)
    requires d > 0 && n > 0 && n - 1 == s * d + r && r < d
    ensures var val := r * 256 + 255;
            val / d < 256 && (256 * n - 1) / d == 256 * s + val / d && (256 * n - 1) % d == val % d
  {
    var val := r * 256 + 255;
    DivLess(val, d, 256);
    assert val == val / d * d + val % d;
    assert 256 * n - 1 == (256 * s + val / d) * d + val % d;
    DivUnique(256 * n - 1, d, 256 * s + val / d, val % d);
  }

  lemma Unfold(d: Word, k: nat)
    requires d > 0
    ensures Remainder(d, k + 1) == Dividend(d, k) % d
    ensures Spelled(d, k + 1) == 256 * Spelled(d, k) + Dividend(d, k) / d % 256
    ensures Dividend(d, k) == Remainder(d, k) * 256 % TWO64 + 255
    ensures Remainder(d, 0) == 0 == Spelled(d, 0)
  {
    DividendIs(d, k);
  }

  lemma Pow256Next(k: nat)
    ensures Pow256(k + 1) == 256 * Pow256(k)
  {
  }

  lemma Below256(x: nat)
    requires x < 256
    ensures x % 256 == x
  {
  }

  lemma ExactStep(d: Word, n: nat, s: nat, r: Word, val: nat)
    requires d > 0 && n > 0 && s == (n - 1) / d && r == (n - 1) % d < TWO56 && val == r * 256 % TWO64 + 255
    ensures val % d == (256 * n - 1) % d && 256 * s + val / d % 256 == (256 * n - 1) / d
  {
    AlignedByte(r);
    Remains(n - 1, d);
    NextDigit(n, d, s, r);
    DivAtLeast(val, d, 0);
    Below256(val / d);
  }

  lemma {:induction false} ExactSoFar(d: Word, k: nat)
    requires d > 0 && forall j :: 0 <= j < k ==> ShiftsSafely(d, j)
    ensures Remainder(d, k) == (Pow256(k) - 1) % d && Spelled(d, k) == (Pow256(k) - 1) / d
  {
    hide Remainder, Dividend, Spelled, Digit, Pow256, ShiftsSafely;
    if k > 0 {
      ExactSoFar(d, k - 1);
      Unfold(d, k - 1);
      Pow256Next(k - 1);
      SafeMeans(d, k - 1);
      ExactStep(d, Pow256(k - 1), Spelled(d, k - 1), Remainder(d, k - 1), Dividend(d, k - 1));
    } else {
      Unfold(d, 0);
      Pow256Zero();
      DivUnique(0, d, 0, 0);
    }
  }

  lemma SafeMeans(d: Word, k: nat)
    requires d > 0 && ShiftsSafely(d, k)
    ensures (Pow256(k) - 1) % d < TWO56
  {
  }

  lemma Pow256Zero()
    ensures Pow256(0) == 1
  {
  }

  lemma CutOff(r: nat)
    requires TWO56 <= r < TWO64
    ensures r * 256 % TWO64 + 255 + TWO64 <= r * 256 + 255
  {
  }

  // A dividend smaller by at least d has a smaller quotient.
  lemma SmallerQuotient(cut: nat, val: nat, d: int)
    requires d > 0 && cut + d <= val
    ensures cut / d < val / d
  {
    var q := cut / d;
    assert q * d + cut % d == cut;
    assert (q + 1) * d == q * d + d;
    DivAtLeast(val, d, q + 1);
  }

  // A shift that loses bits makes the digit too small.
  lemma LostBits(r: nat, d: nat)
    requires TWO56 <= r < d < TWO64
    ensures (r * 256 % TWO64 + 255) / d < (r * 256 + 255) / d <= 255
  {
    CutOff(r);
    SmallerQuotient(r * 256 % TWO64 + 255, r * 256 + 255, d);
    DivLess(r * 256 + 255, d, 256);
  }

  lemma Scale(a: nat, b: nat, p: nat, x: nat)
    requires a < b * p && x < 256
    ensures 256 * a + x < b * (256 * p)
  {
    assert b * (256 * p) == 256 * (b * p);
  }

  lemma {:induction false} SpelledBound(d: Word, k: nat, m: nat, bound: nat)
    requires d > 0 && Spelled(d, k) < bound
    ensures Spelled(d, k + m) < bound * Pow256(m)
  {
    hide Remainder, Dividend, Spelled, Digit, Pow256;
    if m > 0 {
      SpelledBound(d, k, m - 1, bound);
      Unfold(d, k + m - 1);
      Pow256Next(m - 1);
      Scale(Spelled(d, k + (m - 1)), bound, Pow256(m - 1), Dividend(d, k + m - 1) / d % 256);
    } else {
      Pow256Zero();
    }
  }

  lemma Times256(a: nat, p: nat)
    ensures a * (256 * p) == 256 * (a * p)
  {
  }

  // The exact quotient of a longer dividend starts with that of a shorter one.
  lemma {:induction false} QuotientGrows(d: Word, k: nat, m: nat)
    requires d > 0
    ensures (Pow256(k) - 1) / d * Pow256(m) <= (Pow256(k + m) - 1) / d
  {
    hide Pow256;
    if m > 0 {
      QuotientGrows(d, k, m - 1);
      var n := Pow256(k + (m - 1));
      Pow256Next(k + (m - 1));
      Pow256Next(m - 1);
      Remains(n - 1, d);
      NextDigit(n, d, (n - 1) / d, (n - 1) % d);
      Times256((Pow256(k) - 1) / d, Pow256(m - 1));
      DivAtLeast((n - 1) % d * 256 + 255, d, 0);
    } else {
      Pow256Zero();
    }
  }

  lemma Remains(x: nat, d: nat)
    requires d > 0
    ensures x == x / d * d + x % d && 0 <= x / d && 0 <= x % d < d
  {
    DivBounds(x, d);
  }

  lemma {:induction false} FirstLoss(d: Word, n: nat) returns (k: nat)
    requires d > 0 && exists j :: 0 <= j < n && !ShiftsSafely(d, j)
    ensures k < n && !ShiftsSafely(d, k) && forall j :: 0 <= j < k ==> ShiftsSafely(d, j)
  {
    if exists j :: 0 <= j < n - 1 && !ShiftsSafely(d, j) {
      k := FirstLoss(d, n - 1);
    } else {
      k := n - 1;
    }
  }

  // The target is floor((2^256 - 1) / d) exactly when no exact remainder outgrows
  // 56 bits before the last digit; otherwise it is smaller, never larger.
  lemma TargetExactIff(diff: Word)
    ensures var d := Divisor(diff);
            && d == (if diff == 0 then 1 else diff)
            && Spelled(d, 32) <= (Pow256(32) - 1) / d
            && (Spelled(d, 32) == (Pow256(32) - 1) / d <==> forall k :: 0 <= k < 32 ==> ShiftsSafely(d, k))
  {
    hide Spelled, ShiftsSafely, Pow256;
    var d := Divisor(diff);
    if forall k :: 0 <= k < 32 ==> ShiftsSafely(d, k) {
      ExactSoFar(d, 32);
    } else {
      var k := FirstLoss(d, 32);
      LossShrinks(d, k);
      SpelledBound(d, k + 1, 31 - k, (Pow256(k + 1) - 1) / d);
      QuotientGrows(d, k + 1, 31 - k);
    }
  }

  lemma LossShrinks(d: Word, k: nat)
    requires d > 0 && !ShiftsSafely(d, k) && forall j :: 0 <= j < k ==> ShiftsSafely(d, j)
    ensures Spelled(d, k + 1) < (Pow256(k + 1) - 1) / d
  {
    hide Remainder, Dividend, Spelled, Digit, Pow256;
    ExactSoFar(d, k);
    Unfold(d, k);
    Pow256Next(k);
    var n, r := Pow256(k), Remainder(d, k);
    LostBits(r, d);
    Remains(n - 1, d);
    NextDigit(n, d, Spelled(d, k), r);
    DivAtLeast(r * 256 % TWO64 + 255, d, 0);
    Below256((r * 256 % TWO64 + 255) / d);
  }

  // Every difficulty up to 2^56 is exact.
  lemma SmallDifficultiesExact(diff: Word)
    requires diff <= TWO56
    ensures Spelled(Divisor(diff), 32) == (Pow256(32) - 1) / Divisor(diff)
  {
    hide Spelled, Pow256;
    TargetExactIff(diff);
  }

  // 2^57 is the simplest difficulty the code gets wrong.
  lemma LargeDifficultyInexact()
    ensures Spelled(Divisor(2 * TWO56), 32) < (Pow256(32) - 1) / (2 * TWO56)
  {
    hide Spelled, Pow256;
    assert Pow256(8) == TWO64 by { Pow256Eight(); }
    assert (TWO64 - 1) % (2 * TWO56) == 2 * TWO56 - 1;
    assert !ShiftsSafely(2 * TWO56, 8);
    TargetExactIff(2 * TWO56);
  }

  lemma Pow256Eight()
    ensures Pow256(8) == TWO64
  {
    assert Pow256(4) == TWO32;
    assert Pow256(8) == 256 * (256 * (256 * (256 * Pow256(4))));
  }

  // ---- comparing ----

  lemma Regroup(x: nat, v: nat, p: nat, r: nat)
    ensures x + 256 * (v + p * r) == (x + 256 * v) + 256 * p * r
  {
  }

  lemma {:induction false} ValueSplit(b: seq<Byte>, i: nat)
    requires i <= |b|
    ensures Value(b) == Value(b[..i]) + Pow256(i) * Value(b[i..])
  {
    hide Pow256;
    if i == 0 {
      assert b[..0] == [] && b[0..] == b;
      Pow256Zero();
    } else {
      var t := b[1..];
      ValueSplit(t, i - 1);
      assert b[..i][1..] == t[..i - 1] && t[i - 1..] == b[i..];
      Pow256Next(i - 1);
      Regroup(b[0], Value(t[..i - 1]), Pow256(i - 1), Value(b[i..]));
    }
  }

  lemma {:induction false} ValueBelow(b: seq<Byte>)
    ensures Value(b) < Pow256(|b|)
  {
    if b != [] { ValueBelow(b[1..]); }
  }

  lemma TopWins(x: nat, y: nat, p: nat, top: nat, above: nat)
    requires x < p && top < above
    ensures x + p * top < y + p * above
  {
    MulBelow(top + 1, above, p);
  }

  // The highest differing byte decides.
  lemma TopByteDecides(a: seq<Byte>, b: seq<Byte>, i: nat)
    requires |a| == |b| && i < |a| && a[i] < b[i] && forall k :: i < k < |a| ==> a[k] == b[k]
    ensures Value(a) < Value(b)
  {
    hide Pow256;
    ValueSplit(a, i);
    ValueSplit(b, i);
    ValueBelow(a[..i]);
    assert a[i..][1..] == b[i..][1..];
    TopWins(Value(a[..i]), Value(b[..i]), Pow256(i), Value(a[i..]), Value(b[i..]));
  }

  method MeetsTarget(hash: Bytes32, target: Bytes32) returns (meets: bool)
    ensures meets == (Value(hash) <= Value(target))
  {
    hide Value;
    var i := 31;
    while i >= 0
      invariant -1 <= i <= 31 && forall k :: i < k < 32 ==> hash[k] == target[k]
    {
      if hash[i] < target[i] {
        TopByteDecides(hash, target, i);
        return true;
      }
      if hash[i] > target[i] {
        TopByteDecides(target, hash, i);
        return false;
      }
      i := i - 1;
    }
    assert hash == target;
    return true;
  }

  // An accepted share always satisfies the difficulty; whenever the target is
  // exact, the converse holds too.
  lemma AcceptedIff(hash: Bytes32, diff: Word)
    requires 0 < diff
    ensures Value(hash) <= Spelled(diff, 32) ==> Value(hash) * diff <= Pow256(32) - 1
    ensures (forall k :: 0 <= k < 32 ==> ShiftsSafely(diff, k)) ==>
              (Value(hash) <= Spelled(diff, 32) <==> Value(hash) * diff <= Pow256(32) - 1)
  {
    hide Spelled, Pow256, Value, ShiftsSafely;
    TargetExactIff(diff);
    var n := Pow256(32) - 1;
    Remains(n, diff);
    if Value(hash) <= n / diff { MulBelow(Value(hash), n / diff, diff); }
    if Value(hash) * diff <= n { DivAtLeast(n, diff, Value(hash)); }
  }
}
