/** Finite sums and occurrence counts, used by the two round-robin selectors. */
module Sums {

  function Sum(xs: seq<int>): int {
    if xs == [] then 0 else Sum(xs[..|xs| - 1]) + xs[|xs| - 1]
  }

  lemma SumOfPrefix(xs: seq<int>, i: nat)
    requires i < |xs|
    ensures Sum(xs[..i + 1]) == Sum(xs[..i]) + xs[i]
  {
    assert xs[..i + 1][..i] == xs[..i];
  }

  lemma {:induction false} SumOfPointwise(xs: seq<int>, ys: seq<int>, zs: seq<int>)
    requires |xs| == |ys| == |zs|
    requires forall i :: 0 <= i < |xs| ==> zs[i] == xs[i] + ys[i]
    ensures Sum(zs) == Sum(xs) + Sum(ys)
  {
    if xs != [] {
      var n := |xs| - 1;
      SumOfPointwise(xs[..n], ys[..n], zs[..n]);
    }
  }

  lemma {:induction false} SumOfUpdate(xs: seq<int>, i: nat, v: int)
    requires i < |xs|
    ensures Sum(xs[i := v]) == Sum(xs) - xs[i] + v
  {
    var n := |xs| - 1;
    if i == n {
      assert xs[i := v][..n] == xs[..n];
    } else {
      SumOfUpdate(xs[..n], i, v);
      assert xs[i := v][..n] == xs[..n][i := v];
    }
  }

  lemma {:induction false} SumOfZeros(xs: seq<int>)
    requires forall i :: 0 <= i < |xs| ==> xs[i] == 0
    ensures Sum(xs) == 0
  {
    if xs != [] { SumOfZeros(xs[..|xs| - 1]); }
  }

  lemma {:induction false} SumOfNonPositive(xs: seq<int>)
    requires forall i :: 0 <= i < |xs| ==> xs[i] <= 0
    ensures Sum(xs) <= 0
  {
    if xs != [] { SumOfNonPositive(xs[..|xs| - 1]); }
  }

  /** A term is at most the sum plus what the other terms may lack. */
  lemma TermAtMost(xs: seq<int>, d: int, i: nat)
    requires i < |xs|
    requires forall j :: 0 <= j < |xs| ==> -d <= xs[j]
    ensures xs[i] <= Sum(xs) + (|xs| - 1) * d
  {
    SumOfUpdate(xs, i, -d);
    SumAtLeast(xs[i := -d], d);
    assert |xs| * d == (|xs| - 1) * d + d;
  }

  lemma {:induction false} SumAtLeast(xs: seq<int>, d: int)
    requires forall i :: 0 <= i < |xs| ==> -d <= xs[i]
    ensures -(|xs| * d) <= Sum(xs)
  {
    if xs != [] {
      SumAtLeast(xs[..|xs| - 1], d);
      assert |xs| * d == (|xs| - 1) * d + d;
    }
  }

  /** Pointwise order with equal sums is equality. */
  lemma {:induction false} EqualSumsForceEquality(xs: seq<int>, ys: seq<int>)
    requires |xs| == |ys|
    requires forall i :: 0 <= i < |xs| ==> xs[i] <= ys[i]
    requires Sum(xs) >= Sum(ys)
    ensures xs == ys
  {
    if xs != [] {
      var n := |xs| - 1;
      SumMonotone(xs[..n], ys[..n]);
      EqualSumsForceEquality(xs[..n], ys[..n]);
      assert xs == xs[..n] + [xs[n]] && ys == ys[..n] + [ys[n]];
    }
  }

  lemma {:induction false} SumMonotone(xs: seq<int>, ys: seq<int>)
    requires |xs| == |ys|
    requires forall i :: 0 <= i < |xs| ==> xs[i] <= ys[i]
    ensures Sum(xs) <= Sum(ys)
  {
    if xs != [] { SumMonotone(xs[..|xs| - 1], ys[..|ys| - 1]); }
  }

  /** How often i occurs in bs. */
  function Count(bs: seq<nat>, i: nat): nat {
    if bs == [] then 0
    else Count(bs[..|bs| - 1], i) + (if bs[|bs| - 1] == i then 1 else 0)
  }
}
