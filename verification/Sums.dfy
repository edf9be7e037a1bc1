// Sums of weights over a sequence, for counting threads by what they are doing.
module Sums {
  ghost function Sum<T>(xs: seq<T>, weight: (nat, T) -> nat): nat {
    if xs == [] then 0 else Sum(xs[..|xs| - 1], weight) + weight(|xs| - 1, xs[|xs| - 1])
  }

  lemma {:induction false} SumUpdate<T>(xs: seq<T>, i: nat, x: T, weight: (nat, T) -> nat)
    requires i < |xs|
    ensures Sum(xs[i := x], weight) == Sum(xs, weight) - weight(i, xs[i]) + weight(i, x)
  {
    var n := |xs| - 1;
    if i == n {
      assert xs[i := x][..n] == xs[..n];
    } else {
      assert xs[i := x][..n] == xs[..n][i := x];
      SumUpdate(xs[..n], i, x, weight);
    }
  }

  lemma {:induction false} SumSame<T>(xs: seq<T>, ys: seq<T>, weight: (nat, T) -> nat)
    requires |xs| == |ys| && forall i :: 0 <= i < |xs| ==> weight(i, xs[i]) == weight(i, ys[i])
    ensures Sum(xs, weight) == Sum(ys, weight)
  {
    if xs != [] { SumSame(xs[..|xs| - 1], ys[..|xs| - 1], weight); }
  }

  lemma {:induction false} SumZero<T>(xs: seq<T>, weight: (nat, T) -> nat)
    ensures Sum(xs, weight) == 0 <==> forall i :: 0 <= i < |xs| ==> weight(i, xs[i]) == 0
  {
    if xs != [] {
      var n := |xs| - 1;
      SumZero(xs[..n], weight);
      assert forall i :: 0 <= i < n ==> xs[..n][i] == xs[i];
    }
  }
}
