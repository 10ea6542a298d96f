/**
  The arithmetic of smooth weighted round robin, stated for any way of breaking ties.

  w are the weights, up says which positions hold a server (an empty position weighs nothing),
  cs the accounts before the first and after every pick, bs the positions picked.
*/
module WeightedAccounts {
  import opened Sums

  /** One pick: everyone earns their weight, the richest position pays the total. */
  predicate Step(w: seq<int>, up: seq<bool>, c: seq<int>, b: nat, d: seq<int>) {
    && |up| == |c| == |d| == |w|
    && b < |w| && up[b]
    && (forall j :: 0 <= j < |w| && up[j] ==> c[j] + w[j] <= c[b] + w[b])
    && (forall j :: 0 <= j < |w| ==> d[j] == c[j] + w[j] - (if j == b then Sum(w) else 0))
  }

  predicate Schedule(w: seq<int>, up: seq<bool>, cs: seq<seq<int>>, bs: seq<nat>) {
    && |up| == |w|
    && |cs| == |bs| + 1
    && |cs[0]| == |w|
    && (forall j :: 0 <= j < |w| ==> cs[0][j] == 0)
    && (forall j :: 0 <= j < |w| && !up[j] ==> w[j] == 0)
    && (forall t :: 0 <= t < |bs| ==> Step(w, up, cs[t], bs[t], cs[t + 1]))
  }

  function Counts(bs: seq<nat>, n: nat): (r: seq<int>)
    ensures |r| == n
  {
    seq(n, i requires 0 <= i < n => Count(bs, i))
  }

  function Last(cs: seq<seq<int>>): seq<int>
    requires cs != []
  {
    cs[|cs| - 1]
  }

  lemma Shorter(w: seq<int>, up: seq<bool>, cs: seq<seq<int>>, bs: seq<nat>)
    requires Schedule(w, up, cs, bs) && bs != []
    ensures Schedule(w, up, cs[..|bs|], bs[..|bs| - 1])
    ensures Step(w, up, Last(cs[..|bs|]), bs[|bs| - 1], Last(cs))
  {
    var n := |bs| - 1;
    assert Step(w, up, cs[n], bs[n], cs[n + 1]);
  }

  lemma OneMore(t: int, n: int)
    ensures (n + 1) * t == n * t + t && t * (n + 1) == t * n + t
  {
  }

  /** An account holds what the position earned less what it paid. */
  lemma {:induction false} Account(w: seq<int>, up: seq<bool>, cs: seq<seq<int>>, bs: seq<nat>, i: nat)
    requires Schedule(w, up, cs, bs) && i < |w|
    ensures |Last(cs)| == |w|
    ensures Last(cs)[i] == |bs| * w[i] - Sum(w) * Count(bs, i)
  {
    if bs != [] {
      var n := |bs| - 1;
      Shorter(w, up, cs, bs);
      Account(w, up, cs[..|bs|], bs[..n], i);
      OneMore(w[i], n);
      OneMore(Sum(w), Count(bs[..n], i));
    }
  }

  /** Nothing is created or lost: what the positions earn in one pick the chosen one pays. */
  lemma {:induction false} Balanced(w: seq<int>, up: seq<bool>, cs: seq<seq<int>>, bs: seq<nat>)
    requires Schedule(w, up, cs, bs)
    ensures |Last(cs)| == |w| && Sum(Last(cs)) == 0
  {
    if bs == [] {
      SumOfZeros(cs[0]);
    } else {
      Shorter(w, up, cs, bs);
      Balanced(w, up, cs[..|bs|], bs[..|bs| - 1]);
      PayAndEarn(w, up, Last(cs[..|bs|]), bs[|bs| - 1], Last(cs));
    }
  }

  lemma PayAndEarn(w: seq<int>, up: seq<bool>, c: seq<int>, b: nat, d: seq<int>)
    requires Step(w, up, c, b, d)
    ensures Sum(d) == Sum(c)
  {
    var e := seq(|w|, j requires 0 <= j < |w| => c[j] + w[j]);
    assert d == e[b := d[b]] && d[b] == e[b] - Sum(w);
    hide Sum, Step;
    SumOfPointwise(c, w, e);
    SumOfUpdate(e, b, d[b]);
  }

  /** Every pick chooses exactly one position. */
  lemma {:induction false} PicksAddUp(bs: seq<nat>, n: nat)
    requires forall t :: 0 <= t < |bs| ==> bs[t] < n
    ensures Sum(Counts(bs, n)) == |bs|
  {
    if bs == [] {
      SumOfZeros(Counts(bs, n));
    } else {
      var prefix, b := bs[..|bs| - 1], bs[|bs| - 1];
      PicksAddUp(prefix, n);
      SumOfUpdate(Counts(prefix, n), b, Count(prefix, b) + 1);
      assert Counts(bs, n) == Counts(prefix, n)[b := Count(prefix, b) + 1];
    }
  }

  /** The richest position holds more than nothing before it pays, so no account reaches -Sum(w). */
  lemma {:induction false} AboveMinusTotal(w: seq<int>, up: seq<bool>, cs: seq<seq<int>>, bs: seq<nat>)
    requires Schedule(w, up, cs, bs)
    requires Sum(w) > 0 && forall j :: 0 <= j < |w| ==> 0 <= w[j]
    ensures |Last(cs)| == |w|
    ensures forall j :: 0 <= j < |w| ==> -Sum(w) < Last(cs)[j]
    ensures forall j :: 0 <= j < |w| && !up[j] ==> Last(cs)[j] == 0
  {
    if bs != [] {
      var c, b := Last(cs[..|bs|]), bs[|bs| - 1];
      Shorter(w, up, cs, bs);
      AboveMinusTotal(w, up, cs[..|bs|], bs[..|bs| - 1]);
      Balanced(w, up, cs[..|bs|], bs[..|bs| - 1]);
      RichestIsPositive(w, up, c, b, Last(cs));
    }
  }

  lemma RichestIsPositive(w: seq<int>, up: seq<bool>, c: seq<int>, b: nat, d: seq<int>)
    requires Step(w, up, c, b, d) && Sum(c) == 0 && Sum(w) > 0
    requires forall j :: 0 <= j < |w| && !up[j] ==> c[j] == 0 && w[j] == 0
    ensures c[b] + w[b] > 0
  {
    var e := seq(|w|, j requires 0 <= j < |w| => c[j] + w[j]);
    SumOfPointwise(c, w, e);
    if c[b] + w[b] <= 0 {
      SumOfNonPositive(e);
    }
  }

  lemma MoreTimes(t: int, m: int, n: int)
    requires t > 0 && m < n
    ensures t * m + t <= t * n
  {
    assert t * (n - m - 1) >= 0;
    assert t * (n - m - 1) == t * n - t * m - t;
  }

  lemma Bounded(w: seq<int>, up: seq<bool>, cs: seq<seq<int>>, bs: seq<nat>, i: nat)
    requires Schedule(w, up, cs, bs) && i < |w|
    requires Sum(w) > 0 && forall j :: 0 <= j < |w| ==> 0 <= w[j]
    ensures |Last(cs)| == |w| && Sum(Last(cs)) == 0
    ensures -Sum(w) < Last(cs)[i] <= (|w| - 1) * (Sum(w) - 1)
  {
    Balanced(w, up, cs, bs);
    AboveMinusTotal(w, up, cs, bs);
    TermAtMost(Last(cs), Sum(w) - 1, i);
  }

  lemma InRange(w: seq<int>, up: seq<bool>, cs: seq<seq<int>>, bs: seq<nat>)
    requires Schedule(w, up, cs, bs)
    ensures forall t :: 0 <= t < |bs| ==> bs[t] < |w|
  {
    forall t | 0 <= t < |bs| ensures bs[t] < |w| {
      assert Step(w, up, cs[t], bs[t], cs[t + 1]);
    }
  }

  /** After Sum(w) picks nobody was picked more often than its weight. */
  lemma AtMostWeight(w: seq<int>, up: seq<bool>, cs: seq<seq<int>>, bs: seq<nat>, i: nat)
    requires Schedule(w, up, cs, bs) && |bs| == Sum(w) && i < |w|
    requires Sum(w) > 0 && forall j :: 0 <= j < |w| ==> 0 <= w[j]
    ensures Count(bs, i) <= w[i]
    ensures |Last(cs)| == |w| && (Count(bs, i) == w[i] ==> Last(cs)[i] == 0)
  {
    Account(w, up, cs, bs, i);
    AboveMinusTotal(w, up, cs, bs);
    if Count(bs, i) > w[i] { MoreTimes(Sum(w), w[i], Count(bs, i)); }
  }

  lemma ZeroWeightNeverPicked(w: seq<int>, up: seq<bool>, cs: seq<seq<int>>, bs: seq<nat>, i: nat)
    requires Schedule(w, up, cs, bs) && i < |w| && w[i] == 0
    requires Sum(w) > 0 && forall j :: 0 <= j < |w| ==> 0 <= w[j]
    ensures Count(bs, i) == 0
  {
    Account(w, up, cs, bs, i);
    AboveMinusTotal(w, up, cs, bs);
    if Count(bs, i) > 0 { MoreTimes(Sum(w), 0, Count(bs, i)); }
  }

  /** After Sum(w) picks everyone was picked exactly w times and every account is back at zero. */
  lemma FullRound(w: seq<int>, up: seq<bool>, cs: seq<seq<int>>, bs: seq<nat>)
    requires Schedule(w, up, cs, bs) && |bs| == Sum(w)
    requires Sum(w) > 0 && forall j :: 0 <= j < |w| ==> 0 <= w[j]
    ensures |Last(cs)| == |w|
    ensures forall i :: 0 <= i < |w| ==> Count(bs, i) == w[i] && Last(cs)[i] == 0
  {
    InRange(w, up, cs, bs);
    PicksAddUp(bs, |w|);
    forall i | 0 <= i < |w| ensures Counts(bs, |w|)[i] <= w[i] {
      AtMostWeight(w, up, cs, bs, i);
    }
    EqualSumsForceEquality(Counts(bs, |w|), w);
    Balanced(w, up, cs, bs);
    forall i | 0 <= i < |w| ensures Count(bs, i) == w[i] && Last(cs)[i] == 0 {
      assert Counts(bs, |w|)[i] == Count(bs, i);
      AtMostWeight(w, up, cs, bs, i);
    }
  }

  lemma Longer(w: seq<int>, up: seq<bool>, cs: seq<seq<int>>, bs: seq<nat>, b: nat, d: seq<int>)
    requires Schedule(w, up, cs, bs) && Step(w, up, Last(cs), b, d)
    ensures Schedule(w, up, cs + [d], bs + [b])
  {
    var cs', bs' := cs + [d], bs + [b];
    forall t | 0 <= t < |bs'| ensures Step(w, up, cs'[t], bs'[t], cs'[t + 1]) {
      if t < |bs| { assert Step(w, up, cs[t], bs[t], cs[t + 1]); }
    }
  }

  // ---------------------------------------------------------------- iteration

  function Iterate<T>(f: T -> T, x: T, k: nat): T {
    if k == 0 then x else f(Iterate(f, x, k - 1))
  }

  lemma {:induction false} IteratePeriodic<T>(f: T -> T, x: T, p: nat, k: nat)
    requires Iterate(f, x, p) == x
    ensures Iterate(f, x, p + k) == Iterate(f, x, k)
  {
    if k > 0 {
      IteratePeriodic(f, x, p, k - 1);
      assert p + k - 1 == p + (k - 1);
    }
  }
}
