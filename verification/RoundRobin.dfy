/** The round-robin selector (selector/selector_roundrobin.go). */
module RoundRobin {
  import opened Sums

  class RoundRobinSelector {
    var servers: seq<string>
    var i: nat

    constructor (servers: map<string, string>)
      ensures IsListing(this.servers, servers.Keys)
      ensures i == 0
    {
      var ss := Listing(servers.Keys);
      this.servers, this.i := ss, 0;
    }

    method Select() returns (name: string)
      modifies this`i
      ensures |servers| == 0 ==> name == "" && i == old(i)
      ensures |servers| > 0 ==> name == servers[old(i) % |servers|]
      ensures |servers| > 0 ==> i == Advance(old(i), |servers|) <= |servers|
    {
      if |servers| == 0 {
        return "";
      }
      var k := i % |servers|;
      i := k + 1;
      return servers[k];
    }

    /** The index is kept, also when the new list is shorter; Select reduces it before use. */
    method UpdateServer(servers: map<string, string>)
      modifies this`servers
      ensures IsListing(this.servers, servers.Keys)
    {
      var ss := Listing(servers.Keys);
      this.servers := ss;
    }
  }

  /** ss lists every key exactly once, in some order. */
  ghost predicate IsListing(ss: seq<string>, keys: set<string>) {
    && (forall k :: k in keys <==> k in ss)
    && (forall a, b :: 0 <= a < b < |ss| ==> ss[a] != ss[b])
  }

  /** The keys of a map in its unspecified iteration order. */
  method Listing(keys: set<string>) returns (ss: seq<string>)
    ensures IsListing(ss, keys)
  {
    ss := [];
    var left := keys;
    while left != {}
      invariant left <= keys
      invariant IsListing(ss, keys - left)
      decreases left
    {
      var k :| k in left;
      ss := ss + [k];
      left := left - {k};
    }
    assert keys - {} == keys;
  }

  // ------------------------------------------------------------- whole schedules

  function Advance(i: nat, n: nat): nat
    requires n > 0
  {
    i % n + 1
  }

  /** The index field after t picks. */
  function Index(i: nat, n: nat, t: nat): nat
    requires n > 0
  {
    if t == 0 then i else Advance(Index(i, n, t - 1), n)
  }

  /** The list positions chosen by t consecutive picks. */
  function Picks(i: nat, n: nat, t: nat): (ps: seq<nat>)
    requires n > 0
    ensures |ps| == t
  {
    if t == 0 then [] else Picks(i, n, t - 1) + [Index(i, n, t - 1) % n]
  }

  lemma NonZeroMultiple(d: int, n: int)
    requires n > 0 && d != 0
    ensures d * n >= n || d * n <= -n
  {
    if d >= 1 {
      assert (d - 1) * n >= 0;
    } else {
      assert (-d - 1) * n >= 0;
    }
  }

  lemma Difference(p: int, q: int, n: int)
    ensures (p - q) * n == p * n - q * n
  {
  }

  /** Quotient and remainder are unique. */
  lemma RemainderIs(x: int, q: int, r: int, n: int)
    requires x == q * n + r && 0 <= r < n
    ensures x % n == r
  {
    var p := x / n;
    Difference(p, q, n);
    if p != q { NonZeroMultiple(p - q, n); }
  }

  /** A whole turn does not change the remainder. */
  lemma WholeTurn(x: int, n: int)
    requires n > 0
    ensures (x + n) % n == x % n
  {
    var q, r := x / n, x % n;
    assert x == q * n + r;
    Difference(q, -1, n);
    RemainderIs(x + n, q + 1, r, n);
  }

  lemma Reduced(x: int, n: int)
    requires 0 <= x < n
    ensures x % n == x
  {
    RemainderIs(x, 0, x, n);
  }

  lemma NextRemainder(x: int, n: int)
    requires n > 0
    ensures (x % n + 1) % n == (x + 1) % n
  {
    var q, r := x / n, x % n;
    assert x == q * n + r;
    if r + 1 < n {
      Reduced(r + 1, n);
      RemainderIs(x + 1, q, r + 1, n);
    } else {
      Difference(q, -1, n);
      RemainderIs(x + 1, q + 1, 0, n);
      RemainderIs(n, 1, 0, n);
    }
  }

  lemma {:induction false} IndexIsModular(i: nat, n: nat, t: nat)
    requires n > 0
    ensures Index(i, n, t) % n == (i + t) % n
  {
    if t > 0 {
      IndexIsModular(i, n, t - 1);
      var j := Index(i, n, t - 1);
      NextRemainder(j, n);
      NextRemainder(j % n, n);
      NextRemainder(i + t - 1, n);
    }
  }

  /** How many of the l numbers from a on leave remainder p. */
  function Hits(a: nat, l: nat, n: nat, p: nat): nat
    requires n > 0
  {
    if l == 0 then 0 else Hits(a, l - 1, n, p) + (if (a + l - 1) % n == p then 1 else 0)
  }

  lemma {:induction false} PicksAreHits(i: nat, n: nat, t: nat, p: nat)
    requires n > 0
    ensures Count(Picks(i, n, t), p) == Hits(i, t, n, p)
  {
    if t > 0 {
      PicksAreHits(i, n, t - 1, p);
      IndexIsModular(i, n, t - 1);
      assert Picks(i, n, t)[..t - 1] == Picks(i, n, t - 1);
    }
  }

  lemma {:induction false} HitsSplit(a: nat, l: nat, m: nat, n: nat, p: nat)
    requires n > 0
    ensures Hits(a, l + m, n, p) == Hits(a, l, n, p) + Hits(a + l, m, n, p)
  {
    if m > 0 {
      HitsSplit(a, l, m - 1, n, p);
      assert a + (l + m) - 1 == (a + l) + m - 1;
    }
  }

  lemma {:induction false} HitsBelow(l: nat, n: nat, p: nat)
    requires l <= n && 0 < n
    ensures Hits(0, l, n, p) == if p < l then 1 else 0
  {
    if l > 0 {
      HitsBelow(l - 1, n, p);
      Reduced(l - 1, n);
    }
  }

  /** Any n consecutive numbers hit every remainder once: slide the window to the origin. */
  lemma {:induction false} OneWindow(a: nat, n: nat, p: nat)
    requires p < n
    ensures Hits(a, n, n, p) == 1
  {
    if a == 0 {
      HitsBelow(n, n, p);
    } else {
      OneWindow(a - 1, n, p);
      HitsSplit(a - 1, 1, n, n, p);
      HitsSplit(a - 1, n, 1, n, p);
      assert Hits(a - 1, 1, n, p) == if (a - 1) % n == p then 1 else 0 by {
        assert Hits(a - 1, 0, n, p) == 0;
      }
      assert Hits(a - 1 + n, 1, n, p) == if (a - 1 + n) % n == p then 1 else 0 by {
        assert Hits(a - 1 + n, 0, n, p) == 0;
      }
      WholeTurn(a - 1, n);
    }
  }

  /** k rounds of n picks, as repeated addition. */
  function Rounds(k: nat, n: nat): nat {
    if k == 0 then 0 else Rounds(k - 1, n) + n
  }

  lemma {:induction false} RoundsIsProduct(k: nat, n: nat)
    ensures Rounds(k, n) == k * n
  {
    if k > 0 {
      RoundsIsProduct(k - 1, n);
      assert k * n == (k - 1) * n + n;
    }
  }

  lemma {:induction false} WindowsAdd(a: nat, n: nat, k: nat, p: nat)
    requires p < n
    ensures Hits(a, Rounds(k, n), n, p) == k
  {
    if k > 0 {
      var m := Rounds(k - 1, n);
      WindowsAdd(a, n, k - 1, p);
      HitsSplit(a, m, n, n, p);
      OneWindow(a + m, n, p);
    }
  }

  /** k * n consecutive picks from n servers pick every position exactly k times, from any index. */
  lemma RoundsAreFair(i: nat, n: nat, k: nat, p: nat)
    requires p < n
    ensures Count(Picks(i, n, k * n), p) == k
  {
    RoundsIsProduct(k, n);
    PicksAreHits(i, n, Rounds(k, n), p);
    WindowsAdd(i, n, k, p);
  }

  lemma {:induction false} WholeRounds(t: nat, n: nat) returns (k: nat, r: nat)
    requires n > 0
    ensures t == Rounds(k, n) + r && r < n
  {
    if t < n {
      k, r := 0, t;
    } else {
      k, r := WholeRounds(t - n, n);
      k := k + 1;
    }
  }

  /** At no moment is one position more than one pick ahead of another. */
  lemma NeverTwoAhead(i: nat, n: nat, t: nat, p: nat, q: nat)
    requires p < n && q < n
    ensures Count(Picks(i, n, t), p) <= Count(Picks(i, n, t), q) + 1
  {
    PicksAreHits(i, n, t, p);
    PicksAreHits(i, n, t, q);
    var k, r := WholeRounds(t, n);
    PartialWindow(i, n, k, r, p);
    PartialWindow(i, n, k, r, q);
  }

  lemma PartialWindow(i: nat, n: nat, k: nat, r: nat, p: nat)
    requires p < n && r < n
    ensures k <= Hits(i, Rounds(k, n) + r, n, p) <= k + 1
  {
    var m := Rounds(k, n);
    WindowsAdd(i, n, k, p);
    HitsSplit(i, m, r, n, p);
    OneWindow(i + m, n, p);
    HitsSplit(i + m, r, n - r, n, p);
  }
}
