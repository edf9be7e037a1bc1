// Reordering a sequence of numbered steps: if every pair that changes places
// commutes, the outcome is the same from every state.
module Reorder {

  // The numbers lo, lo + 1, ..., hi - 1.
  function Range(lo: nat, hi: nat): (r: seq<nat>)
    requires lo <= hi
    ensures |r| == hi - lo
    ensures forall k :: 0 <= k < |r| ==> r[k] == lo + k
  {
    seq(hi - lo, k requires 0 <= k < hi - lo => lo + k)
  }

  function Run<S>(step: (nat, S) -> S, xs: seq<nat>, s: S): S {
    if xs == [] then s else Run(step, xs[1..], step(xs[0], s))
  }

  lemma {:induction false} RunConcat<S>(step: (nat, S) -> S, xs: seq<nat>, ys: seq<nat>, s: S)
    ensures Run(step, xs + ys, s) == Run(step, ys, Run(step, xs, s))
  {
    if xs == [] {
      assert xs + ys == ys;
    } else {
      assert (xs + ys)[1..] == xs[1..] + ys;
      RunConcat(step, xs[1..], ys, step(xs[0], s));
    }
  }

  ghost predicate Commute<S(!new)>(step: (nat, S) -> S, a: nat, b: nat) {
    forall s: S :: step(a, step(b, s)) == step(b, step(a, s))
  }

  ghost predicate Increasing(ys: seq<nat>) {
    forall a, b :: 0 <= a < b < |ys| ==> ys[a] < ys[b]
  }

  // Whenever a later step is put before an earlier one, the two commute.
  ghost predicate InversionsCommute<S(!new)>(step: (nat, S) -> S, xs: seq<nat>) {
    forall a, b :: 0 <= a < b < |xs| && xs[a] > xs[b] ==> Commute(step, xs[a], xs[b])
  }

  // A step that commutes with all of `xs` may be run before them.
  lemma {:induction false} Hoist<S(!new)>(step: (nat, S) -> S, xs: seq<nat>, x: nat, s: S)
    requires forall k :: 0 <= k < |xs| ==> Commute(step, x, xs[k])
    ensures Run(step, xs + [x], s) == Run(step, [x] + xs, s)
  {
    if xs == [] {
      assert xs + [x] == [x] + xs;
    } else {
      var u := step(xs[0], s);
      calc {
        Run(step, xs + [x], s);
        { assert (xs + [x])[1..] == xs[1..] + [x]; }
        Run(step, xs[1..] + [x], u);
        { Hoist(step, xs[1..], x, u); }
        Run(step, [x] + xs[1..], u);
        { assert ([x] + xs[1..])[1..] == xs[1..]; }
        Run(step, xs[1..], step(x, u));
        { assert Commute(step, x, xs[0]); }
        Run(step, xs[1..], step(xs[0], step(x, s)));
        Run(step, xs, step(x, s));
        { assert ([x] + xs)[1..] == xs; }
        Run(step, [x] + xs, s);
      }
    }
  }

  // The first element of one listing, cut out of the other.
  lemma CutOut(xs: seq<nat>, ys: seq<nat>) returns (pre: seq<nat>, post: seq<nat>)
    requires xs != [] && multiset(xs) == multiset(ys)
    ensures ys == pre + [xs[0]] + post
    ensures multiset(xs[1..]) == multiset(pre + post)
  {
    assert xs == [xs[0]] + xs[1..];
    assert xs[0] in multiset(ys);
    var k :| 0 <= k < |ys| && ys[k] == xs[0];
    pre, post := ys[..k], ys[k + 1..];
    assert ys == pre + [xs[0]] + post;
    assert multiset(ys) == multiset(pre) + multiset{xs[0]} + multiset(post);
    assert multiset(xs) == multiset{xs[0]} + multiset(xs[1..]);
    assert multiset(pre + post) == multiset(pre) + multiset(post);
    calc {
      multiset(xs[1..]);
      multiset(xs) - multiset{xs[0]};
      multiset(pre) + multiset(post) + multiset{xs[0]} - multiset{xs[0]};
      multiset(pre + post);
    }
  }

  // The reordering theorem.
  lemma {:induction false} ReorderPreserves<S(!new)>(step: (nat, S) -> S, xs: seq<nat>, ys: seq<nat>, s: S)
    requires Increasing(ys) && multiset(xs) == multiset(ys)
    requires InversionsCommute(step, xs)
    ensures Run(step, xs, s) == Run(step, ys, s)
    decreases |xs|
  {
    if xs == [] {
      assert |multiset(ys)| == 0;
    } else {
      var x := xs[0];
      var pre, post := CutOut(xs, ys);
      Smaller(step, xs, ys, pre, post);
      calc {
        Run(step, ys, s);
        { RunConcat(step, pre + [x], post, s); }
        Run(step, post, Run(step, pre + [x], s));
        { Hoist(step, pre, x, s); }
        Run(step, post, Run(step, [x] + pre, s));
        { assert ([x] + pre)[1..] == pre; }
        Run(step, post, Run(step, pre, step(x, s)));
        { RunConcat(step, pre, post, step(x, s)); }
        Run(step, pre + post, step(x, s));
        { ReorderPreserves(step, xs[1..], pre + post, step(x, s)); }
        Run(step, xs, s);
      }
    }
  }

  lemma Smaller<S(!new)>(step: (nat, S) -> S, xs: seq<nat>, ys: seq<nat>, pre: seq<nat>, post: seq<nat>)
    requires Increasing(ys) && InversionsCommute(step, xs)
    requires xs != [] && ys == pre + [xs[0]] + post && multiset(xs[1..]) == multiset(pre + post)
    ensures Increasing(pre + post) && InversionsCommute(step, xs[1..])
    ensures forall k :: 0 <= k < |pre| ==> Commute(step, xs[0], pre[k])
  {
    forall k | 0 <= k < |pre| ensures Commute(step, xs[0], pre[k]) {
      assert ys[k] == pre[k] && ys[|pre|] == xs[0];
      assert (pre + post)[k] == pre[k];
      assert pre[k] in multiset(pre + post);
      var j :| 0 <= j < |xs[1..]| && xs[1..][j] == pre[k];
      assert xs[j + 1] == pre[k];
    }
    forall a, b | 0 <= a < b < |pre + post| ensures (pre + post)[a] < (pre + post)[b] {
      var a', b' := if a < |pre| then a else a + 1, if b < |pre| then b else b + 1;
      assert ys[a'] == (pre + post)[a] && ys[b'] == (pre + post)[b];
    }
  }

  // `order` lists 0, 1, ..., n - 1 in some order.
  ghost predicate Permutation(order: seq<nat>, n: nat) {
    multiset(order) == multiset(Range(0, n))
  }

  // The first k places hold exactly the first k numbers.
  ghost predicate Cut(order: seq<nat>, k: nat) {
    && k <= |order|
    && (forall a :: 0 <= a < k ==> order[a] < k)
    && (forall a :: k <= a < |order| ==> order[a] >= k)
  }

  lemma {:induction false} RangeOnce(lo: nat, hi: nat, x: nat)
    requires lo <= hi
    ensures multiset(Range(lo, hi))[x] == if lo <= x < hi then 1 else 0
    decreases hi - lo
  {
    if lo < hi {
      RangeOnce(lo, hi - 1, x);
      assert Range(lo, hi) == Range(lo, hi - 1) + [hi - 1];
    } else {
      assert Range(lo, hi) == [];
    }
  }

  lemma PermutationFacts(order: seq<nat>, n: nat)
    requires Permutation(order, n)
    ensures |order| == n
    ensures forall a :: 0 <= a < n ==> order[a] < n
    ensures forall a, b :: 0 <= a < b < n ==> order[a] != order[b]
  {
    assert |multiset(order)| == |multiset(Range(0, n))|;
    forall a | 0 <= a < n ensures order[a] < n {
      assert order[a] in multiset(order);
      RangeOnce(0, n, order[a]);
    }
    forall a, b | 0 <= a < b < n ensures order[a] != order[b] {
      RangeOnce(0, n, order[a]);
      assert order == order[..a] + [order[a]] + order[a + 1..b] + [order[b]] + order[b + 1..];
    }
  }

  lemma CutCount(order: seq<nat>, n: nat, lo: nat, hi: nat, x: nat)
    requires Permutation(order, n) && lo <= hi && Cut(order, lo) && Cut(order, hi)
    ensures multiset(order[lo..hi])[x] == if lo <= x < hi then 1 else 0
  {
    PermutationFacts(order, n);
    if lo <= x < hi {
      RangeOnce(0, n, x);
      assert x !in order[..lo] && x !in order[hi..];
      assert order == order[..lo] + order[lo..hi] + order[hi..];
    } else {
      assert x !in order[lo..hi];
    }
  }

  // Between two cuts, a permutation permutes just that range.
  lemma CutRange(order: seq<nat>, n: nat, lo: nat, hi: nat)
    requires Permutation(order, n) && lo <= hi && Cut(order, lo) && Cut(order, hi)
    ensures multiset(order[lo..hi]) == multiset(Range(lo, hi))
  {
    forall x: nat ensures multiset(order[lo..hi])[x] == multiset(Range(lo, hi))[x] {
      RangeOnce(lo, hi, x);
      CutCount(order, n, lo, hi, x);
    }
  }
}
