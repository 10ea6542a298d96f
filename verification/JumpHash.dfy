/**
  Jump consistent hash (selector/hash.go), after Lamping and Veach.

  The program computes the jumps in IEEE 754 double precision. Every value it forms lies between
  1 and 2^62, so rounding is modelled exactly there: 53 significant bits, ties to even.
*/
module JumpHash {
  import opened Integers

  const TWO52: int := 0x10_0000_0000_0000

  // ---------------------------------------------------------- float64 rounding

  /** The nearest integer, ties to even. */
  function Nearest(x: real): int {
    var f := x.Floor;
    var d := x - f as real;
    if d < 0.5 then f
    else if d > 0.5 then f + 1
    else if f % 2 == 0 then f
    else f + 1
  }

  /** Rounding to 53 significant bits; halving and doubling are exact. */
  function Round(x: real): real
    requires x >= 1.0
    decreases x.Floor
  {
    if x < 2.0 then Nearest(x * TWO52 as real) as real / TWO52 as real
    else 2.0 * Round(x / 2.0)
  }

  function Pow2(k: nat): (p: int)
    ensures p >= 1
  {
    if k == 0 then 1 else 2 * Pow2(k - 1)
  }

  lemma NearestMonotone(x: real, y: real)
    requires x <= y
    ensures Nearest(x) <= Nearest(y)
  {
  }

  lemma NearestExact(n: int)
    ensures Nearest(n as real) == n
  {
  }

  /** Within one binade the result stays in the binade or meets its upper end. */
  lemma RoundUnit(x: real)
    requires 1.0 <= x < 2.0
    ensures 1.0 <= Round(x) <= 2.0
  {
    var t := TWO52 as real;
    NearestMonotone(t, x * t);
    NearestMonotone(x * t, 2.0 * t);
    NearestExact(TWO52);
    NearestExact(2 * TWO52);
  }

  lemma {:induction false} RoundAtLeastOne(x: real)
    requires x >= 1.0
    ensures Round(x) >= 1.0
    decreases x.Floor
  {
    if x < 2.0 { RoundUnit(x); } else { RoundAtLeastOne(x / 2.0); }
  }

  lemma {:induction false} RoundMonotone(x: real, y: real)
    requires 1.0 <= x <= y
    ensures Round(x) <= Round(y)
    decreases y.Floor
  {
    if y < 2.0 {
      NearestMonotone(x * TWO52 as real, y * TWO52 as real);
    } else if x < 2.0 {
      RoundUnit(x);
      RoundAtLeastOne(y / 2.0);
    } else {
      RoundMonotone(x / 2.0, y / 2.0);
    }
  }

  lemma {:induction false} RoundPow2(k: nat)
    ensures Round(Pow2(k) as real) == Pow2(k) as real
  {
    if k == 0 {
      NearestExact(TWO52);
    } else {
      RoundPow2(k - 1);
    }
  }

  /** n can be halved h times without leaving the integers. */
  predicate Halves(n: int, h: nat)
    decreases h
  {
    h == 0 || (n % 2 == 0 && Halves(n / 2, h - 1))
  }

  lemma {:induction false} MultipleHalves(n: int, h: nat)
    ensures Halves(n * Pow2(h), h)
  {
    if h > 0 {
      MultipleHalves(n, h - 1);
      assert n * Pow2(h) == 2 * (n * Pow2(h - 1));
    }
  }

  /** Halving into the lowest binade keeps an integer number of units, so nothing is lost. */
  lemma {:induction false} RoundExact(x: real, units: int, h: nat)
    requires 1.0 <= x < 2.0 * Pow2(h) as real
    requires x * TWO52 as real == units as real && Halves(units, h)
    ensures Round(x) == x
    decreases h
  {
    if x < 2.0 {
      NearestExact(units);
    } else {
      RoundExact(x / 2.0, units / 2, h - 1);
    }
  }

  lemma Doubled(x: int, y: int)
    ensures 2 * x * y == 2 * (x * y)
  {
  }

  lemma {:induction false} PowersMultiply(a: nat, b: nat)
    ensures Pow2(a) * Pow2(b) == Pow2(a + b)
  {
    if a > 0 {
      PowersMultiply(a - 1, b);
      Doubled(Pow2(a - 1), Pow2(b));
    }
  }

  lemma Pow52()
    ensures Pow2(52) == TWO52
    ensures Pow2(31) == TWO31
    ensures Pow2(62) == TWO31 * TWO31
  {
    assert Pow2(8) == 256;
    assert Pow2(16) == 65536 by { PowersMultiply(8, 8); }
    assert Pow2(32) == TWO32 by { PowersMultiply(16, 16); }
    assert Pow2(31) == TWO31;
    assert Pow2(4) == 16;
    assert Pow2(20) == 1048576 by { PowersMultiply(16, 4); }
    PowersMultiply(32, 20);
    PowersMultiply(31, 31);
  }

  /** Integers of at most 53 bits are exact. */
  lemma RoundInteger(n: int)
    requires 1 <= n < 2 * TWO52
    ensures Round(n as real) == n as real
  {
    Pow52();
    MultipleHalves(n, 52);
    RoundExact(n as real, n * TWO52, 52);
  }

  // -------------------------------------------------------------------- jumps

  type Key = k: int | 0 <= k < TWO64

  /** key*2862933555777941757 + 1 in uint64. */
  function NextKey(key: Key): Key {
    (key * 2862933555777941757 + 1) % TWO64
  }

  /** (key>>33)+1, a number between 1 and 2^31. */
  function Divisor(key: Key): (r: int)
    ensures 1 <= r <= TWO31
  {
    key / (2 * TWO32) + 1
  }

  /** float64(1<<31) / float64(r), rounded. */
  function Quotient(r: int): (q: real)
    requires 1 <= r <= TWO31
    ensures 1.0 <= q <= TWO31 as real
  {
    QuotientInRange(r);
    Round(TWO31 as real / r as real)
  }

  lemma SmallFactor(q: real, r: real)
    requires q < 1.0 && r > 0.0
    ensures q * r < r
  {
    assert (1.0 - q) * r > 0.0;
  }

  lemma QuotientBounds(t: real, r: real)
    requires 1.0 <= r <= t
    ensures 1.0 <= t / r <= t
  {
    var q := t / r;
    assert q * r == t;
    assert q * (r - 1.0) >= 0.0;
    if q < 1.0 { SmallFactor(q, r); }
  }

  lemma QuotientInRange(r: int)
    requires 1 <= r <= TWO31
    ensures TWO31 as real / r as real >= 1.0
    ensures 1.0 <= Round(TWO31 as real / r as real) <= TWO31 as real
  {
    var q := TWO31 as real / r as real;
    QuotientBounds(TWO31 as real, r as real);
    RoundMonotone(1.0, q);
    RoundMonotone(q, TWO31 as real);
    Pow52();
    RoundPow2(0);
    RoundPow2(31);
  }

  /** float64(c) * q, rounded. */
  function Product(c: int, q: real): (y: real)
    requires 1 <= c <= TWO31 && 1.0 <= q <= TWO31 as real
    ensures c as real <= y <= (TWO31 * TWO31) as real
  {
    var y := c as real * q;
    ProductBounds(c as real, q, TWO31 as real, y);
    RoundBetween(c, y);
    Round(y)
  }

  /** int64(float64(b+1) * quotient): the jump moves forward and stays far inside int64. */
  function Jump(key: Key, b: int): (j: int)
    requires 0 <= b < TWO31
    ensures b + 1 <= j <= TWO31 * TWO31
  {
    Product(b + 1, Quotient(Divisor(key))).Floor
  }

  /** Rounding does not carry a value across an exactly represented bound. */
  lemma RoundBetween(c: int, y: real)
    requires 1 <= c <= TWO31 && c as real <= y <= (TWO31 * TWO31) as real
    ensures c as real <= Round(y) <= (TWO31 * TWO31) as real
  {
    RoundInteger(c);
    RoundMonotone(c as real, y);
    RoundMonotone(y, (TWO31 * TWO31) as real);
    Pow52();
    RoundPow2(62);
  }

  lemma ProductBounds(c: real, q: real, t: real, y: real)
    requires 1.0 <= c <= t && 1.0 <= q <= t && y == c * q
    ensures c <= y <= t * t
  {
    assert c * (q - 1.0) >= 0.0;
    assert (t - c) * q >= 0.0;
    assert t * (t - q) >= 0.0;
  }

  /**
    The walk of a key over the line of buckets: from b, jump until the next landing place would be
    at or beyond n; b is then the answer.
  */
  function Walk(key: Key, b: int, n: int): (r: int)
    requires 0 <= b < n <= TWO31
    ensures b <= r < n
    decreases n - b
  {
    var next := NextKey(key);
    var j := Jump(next, b);
    if j >= n then b else Walk(next, j, n)
  }

  predicate Int32(x: int) {
    -TWO31 <= x < TWO31
  }

  function Buckets(buckets: int): int {
    if buckets <= 0 then 1 else buckets
  }

  // ------------------------------------------------------------------- where it jumps

  const TWO33: int := 0x2_0000_0000
  const TWO51: int := 0x8_0000_0000_0000
  const TWO53: int := 0x20_0000_0000_0000

  lemma NearestIsNear(x: real)
    ensures -0.5 <= Nearest(x) as real - x <= 0.5
  {
  }

  /** The relative error of rounding is at most 2^-53. */
  lemma {:induction false} RoundingError(x: real)
    requires x >= 1.0
    ensures -x <= (Round(x) - x) * TWO53 as real <= x
    decreases x.Floor
  {
    if x < 2.0 {
      var n := Nearest(x * TWO52 as real) as real;
      NearestIsNear(x * TWO52 as real);
      assert Round(x) * TWO52 as real == n;
      assert (Round(x) - x) * TWO53 as real == 2.0 * (n - x * TWO52 as real);
    } else {
      RoundingError(x / 2.0);
      assert Round(x) - x == 2.0 * (Round(x / 2.0) - x / 2.0);
    }
  }

  /** Two relative errors of at most 1/e each make one of less than 4/e. */
  lemma TwoErrors(y: real, p: real, z: real, e: real)
    requires e >= 4.0 && y > 0.0
    requires -y <= (p - y) * e <= y && -p <= (z - p) * e <= p
    ensures y * (e - 4.0) <= z * e <= y * (e + 4.0)
  {
    assert p * e <= y * e + y && p * e >= y * e - y;
    assert z * e <= p * e + p && z * e >= p * e - p;
    assert p <= 2.0 * y by { if p > 2.0 * y { Scaled(p - y, y, e); } }
  }

  lemma Scaled(d: real, y: real, e: real)
    requires d > y > 0.0 && e >= 1.0
    ensures d * e > y
  {
    assert d * (e - 1.0) >= 0.0;
  }

  /** An error of a factor carries over to the product. */
  lemma ErrorTimes(c: real, q: real, r: real, e: real)
    requires c > 0.0 && -q <= (r - q) * e <= q
    ensures -(c * q) <= (c * r - c * q) * e <= c * q
  {
    var d := (r - q) * e;
    assert (c * r - c * q) * e == c * d;
    assert c * (q - d) >= 0.0 && c * (q + d) >= 0.0;
  }

  /**
    j is where the exact jump y = (b+1) * 2^31 / r would land, cut to an integer, up to a relative
    error of 2^-51; r is the number of the block of 2^33 keys that key lies in.
  */
  ghost predicate Near(key: int, b: int, j: int) {
    exists r: int :: (r - 1) * TWO33 <= key < r * TWO33 && Lands(r, b, j)
  }

  predicate Lands(r: int, b: int, j: int) {
    && 1 <= r <= TWO31
    && j as real * TWO51 as real <= Exact(r, b) * (TWO51 + 1) as real
    && (j + 1) as real * TWO51 as real > Exact(r, b) * (TWO51 - 1) as real
  }

  function Ratio(r: int): real
    requires r >= 1
  {
    TWO31 as real / r as real
  }

  function Exact(r: int, b: int): real
    requires r >= 1
  {
    (b + 1) as real * Ratio(r)
  }

  lemma QuarterScale(y: real, z: real)
    requires y * (TWO53 as real - 4.0) <= z * TWO53 as real <= y * (TWO53 as real + 4.0)
    ensures y * (TWO51 - 1) as real <= z * TWO51 as real <= y * (TWO51 + 1) as real
  {
    assert TWO53 as real == 4.0 * TWO51 as real;
    assert y * (TWO53 as real - 4.0) == 4.0 * (y * (TWO51 - 1) as real);
    assert y * (TWO53 as real + 4.0) == 4.0 * (y * (TWO51 + 1) as real);
    assert z * TWO53 as real == 4.0 * (z * TWO51 as real);
  }

  lemma CutOff(z: real, j: int, lo: real, hi: real, e: real)
    requires e > 0.0 && j == z.Floor && lo <= z * e <= hi
    ensures j as real * e <= hi && (j + 1) as real * e > lo
  {
    assert (z - j as real) * e >= 0.0;
    assert ((j + 1) as real - z) * e > 0.0;
  }

  /** A rounded quotient, multiplied and rounded again. */
  lemma ProductNear(c: real, q: real, rq: real, y: real, p: real, z: real, e: real)
    requires c >= 1.0 && q >= 1.0 && e >= 4.0 && y == c * q && p == c * rq
    requires -q <= (rq - q) * e <= q && -p <= (z - p) * e <= p
    ensures y * (e - 4.0) <= z * e <= y * (e + 4.0)
  {
    ErrorTimes(c, q, rq, e);
    assert c * (q - 1.0) >= 0.0;
    TwoErrors(y, p, z, e);
  }

  lemma QuotientError(r: int)
    requires 1 <= r <= TWO31
    ensures Ratio(r) >= 1.0 && -Ratio(r) <= (Quotient(r) - Ratio(r)) * TWO53 as real <= Ratio(r)
  {
    QuotientInRange(r);
    assert Quotient(r) == Round(Ratio(r));
    hide Round, Ratio, Quotient;
    RoundingError(Ratio(r));
  }

  lemma ProductIsRound(c: int, q: real, p: real)
    requires 1 <= c <= TWO31 && 1.0 <= q <= TWO31 as real && p == c as real * q
    ensures p >= 1.0 && Product(c, q) == Round(p)
  {
    ProductBounds(c as real, q, TWO31 as real, p);
    hide Round;
  }

  lemma ProductError(c: int, q: real, p: real)
    requires 1 <= c <= TWO31 && 1.0 <= q <= TWO31 as real && p == c as real * q
    ensures -p <= (Product(c, q) - p) * TWO53 as real <= p
  {
    hide Product, Round;
    ProductIsRound(c, q, p);
    RoundingError(p);
  }

  lemma LandsBy(r: int, b: int, j: int, y: real, z: real)
    requires 1 <= r <= TWO31 && y == Exact(r, b) && j == z.Floor
    requires y * (TWO53 as real - 4.0) <= z * TWO53 as real <= y * (TWO53 as real + 4.0)
    ensures Lands(r, b, j)
  {
    hide Exact;
    QuarterScale(y, z);
    CutOff(z, j, y * (TWO51 - 1) as real, y * (TWO51 + 1) as real, TWO51 as real);
  }

  /** The jump in double precision lands next to the exact one. */
  lemma JumpLands(key: Key, b: int)
    requires 0 <= b < TWO31
    ensures Lands(Divisor(key), b, Jump(key, b))
  {
    hide Lands;
    var y, z := JumpStages(Divisor(key), b);
    LandsBy(Divisor(key), b, Jump(key, b), y, z);
  }

  /** The exact jump and the doubly rounded one. */
  lemma JumpStages(r: int, b: int) returns (y: real, z: real)
    requires 1 <= r <= TWO31 && 0 <= b < TWO31
    ensures y == Exact(r, b) && z == Product(b + 1, Quotient(r))
    ensures y * (TWO53 as real - 4.0) <= z * TWO53 as real <= y * (TWO53 as real + 4.0)
  {
    hide Quotient, Product, Ratio;
    var rq := Quotient(r);
    y, z := Exact(r, b), Product(b + 1, rq);
    Stages((b + 1) as real, b + 1, r, rq, y, (b + 1) as real * rq, z);
  }

  lemma Stages(cr: real, c: int, r: int, rq: real, y: real, p: real, z: real)
    requires 1 <= c <= TWO31 && 1 <= r <= TWO31 && cr == c as real && rq == Quotient(r)
    requires y == cr * Ratio(r) && p == cr * rq && z == Product(c, rq)
    ensures y * (TWO53 as real - 4.0) <= z * TWO53 as real <= y * (TWO53 as real + 4.0)
  {
    hide Quotient, Product, Ratio;
    QuotientError(r);
    ProductError(c, rq, p);
    ProductNear(cr, Ratio(r), rq, y, p, z, TWO53 as real);
  }

  /** The block of 2^33 keys that key lies in is the divisor. */
  lemma BlockOf(key: Key, r: int)
    requires (r - 1) * TWO33 <= key < r * TWO33
    ensures r == Divisor(key)
  {
  }

  lemma DivisorBlock(key: Key)
    ensures (Divisor(key) - 1) * TWO33 <= key < Divisor(key) * TWO33
  {
  }

  lemma JumpIsNear(key: Key, b: int)
    requires 0 <= b < TWO31
    ensures Near(key, b, Jump(key, b))
  {
    DivisorBlock(key);
    JumpLands(key, b);
    hide Lands, Jump, Divisor;
  }

  lemma BelowNext(j: int, n: int, e: real)
    requires e > 0.0 && j as real * e < n as real * e
    ensures j < n
  {
    var d := n as real - j as real;
    assert d * e > 0.0;
    assert d <= 0.0 ==> d * e <= 0.0;
  }

  /** Away from an integer the jump is exactly the exact one cut off. */
  lemma JumpIsExact(key: Key, b: int, r: int, n: int)
    requires 0 <= b < TWO31 && (r - 1) * TWO33 <= key < r * TWO33 && 1 <= r
    requires n as real * TWO51 as real <= Exact(r, b) * (TWO51 - 1) as real
    requires Exact(r, b) * (TWO51 + 1) as real < (n + 1) as real * TWO51 as real
    ensures Jump(key, b) == n
  {
    BlockOf(key, r);
    JumpLands(key, b);
    hide Jump, Exact;
    BelowNext(Jump(key, b), n + 1, TWO51 as real);
    BelowNext(n, Jump(key, b) + 1, TWO51 as real);
  }

  // -------------------------------------------------------------------- the whole walk

  /** The next key is 2862933555777941757 times this one plus 1, modulo 2^64. */
  predicate Follows(k: int, next: int) {
    0 <= next < TWO64 && (k * 2862933555777941757 + 1 - next) % TWO64 == 0
  }

  lemma NextFollows(k: Key)
    ensures Follows(k, NextKey(k))
  {
  }

  lemma RemainderIs(x: int, r: int)
    requires 0 <= r < TWO64 && (x - r) % TWO64 == 0
    ensures x % TWO64 == r
  {
    var q := (x - r) / TWO64;
    assert x == q * TWO64 + r;
  }

  lemma OnlyOneFollows(k: Key, next: Key)
    requires Follows(k, next)
    ensures next == NextKey(k)
  {
    RemainderIs(k * 2862933555777941757 + 1, next);
  }

  /** Keys and buckets of a walk from bucket b: each bucket is where the next key jumps to. */
  ghost predicate Visits(ks: seq<int>, bs: seq<int>, n: int) {
    && |ks| == |bs| >= 1
    && (forall i :: 0 <= i < |bs| ==> 0 <= bs[i] < n)
    && (forall i :: 0 < i < |bs| ==> Follows(ks[i - 1], ks[i]) && Near(ks[i], bs[i - 1], bs[i]))
  }

  /** The key after k would jump from b to n or beyond. */
  ghost predicate Overshoots(k: int, b: int, n: int) {
    exists next, j :: Follows(k, next) && Near(next, b, j) && j >= n
  }

  /** A walk from b that ends in bucket r because the next jump overshoots. */
  ghost predicate Reached(key: int, b: int, n: int, r: int) {
    exists ks, bs :: Visits(ks, bs, n) && ks[0] == key && bs[0] == b
                     && bs[|bs| - 1] == r && Overshoots(ks[|ks| - 1], r, n)
  }

  lemma WalkStops(key: Key, b: int, n: int)
    requires 0 <= b < n <= TWO31 && Jump(NextKey(key), b) >= n
    ensures Reached(key, b, n, b)
  {
    NextFollows(key);
    JumpIsNear(NextKey(key), b);
    hide Follows, Near, Jump, NextKey;
    assert Overshoots(key, b, n);
    assert Visits([key], [b], n);
    hide Visits, Overshoots;
  }

  lemma ReachedMore(key: int, b: int, next: int, j: int, n: int, r: int)
    requires 0 <= b < n && Follows(key, next) && Near(next, b, j) && Reached(next, j, n, r)
    ensures Reached(key, b, n, r)
  {
    hide Follows, Near, Overshoots;
    var ks, bs :| Visits(ks, bs, n) && ks[0] == next && bs[0] == j
                  && bs[|bs| - 1] == r && Overshoots(ks[|ks| - 1], r, n);
    var ks', bs' := [key] + ks, [b] + bs;
    VisitsMore(ks, bs, n, key, b);
    assert |bs'| == |bs| + 1 && |ks'| == |bs'| && |bs| >= 1;
    hide Visits;
    assert ks'[|ks'| - 1] == ks[|ks| - 1] && bs'[|bs'| - 1] == bs[|bs| - 1] && ks'[0] == key && bs'[0] == b;
  }

  lemma WalkGoesOn(key: Key, b: int, n: int, r: int)
    requires 0 <= b < n <= TWO31 && Jump(NextKey(key), b) < n
    requires Reached(NextKey(key), Jump(NextKey(key), b), n, r)
    ensures Reached(key, b, n, r)
  {
    hide Follows, Near, Jump, NextKey, Reached;
    NextFollows(key);
    JumpIsNear(NextKey(key), b);
    ReachedMore(key, b, NextKey(key), Jump(NextKey(key), b), n, r);
  }

  lemma VisitsMore(ks: seq<int>, bs: seq<int>, n: int, key: int, b: int)
    requires Visits(ks, bs, n) && 0 <= b < n && Follows(key, ks[0]) && Near(ks[0], b, bs[0])
    ensures Visits([key] + ks, [b] + bs, n)
  {
    hide Follows, Near;
    var ks', bs' := [key] + ks, [b] + bs;
    forall i | 0 < i < |bs'| ensures Follows(ks'[i - 1], ks'[i]) && Near(ks'[i], bs'[i - 1], bs'[i]) {
      if i > 1 { assert Follows(ks[i - 2], ks[i - 1]) && Near(ks[i - 1], bs[i - 2], bs[i - 1]); }
    }
  }

  /** The walk is the one the algorithm prescribes, key by key and jump by jump. */
  lemma {:induction false} WalkIsReached(key: Key, b: int, n: int)
    requires 0 <= b < n <= TWO31
    ensures Reached(key, b, n, Walk(key, b, n))
    decreases n - b
  {
    hide Reached;
    var next := NextKey(key);
    var j := Jump(next, b);
    if j >= n {
      WalkStops(key, b, n);
    } else {
      WalkIsReached(next, j, n);
      WalkGoesOn(key, b, n, Walk(key, b, n));
    }
  }

  /** Which side of n a jump from 0 comes to lie on. */
  lemma SideOf(r: int, j: int, n: int)
    requires Lands(r, 0, j)
    ensures Exact(r, 0) * (TWO51 - 1) as real >= n as real * TWO51 as real ==> j >= n
    ensures Exact(r, 0) * (TWO51 + 1) as real < n as real * TWO51 as real ==> j < n
  {
    hide Exact;
    var e := TWO51 as real;
    if n as real * e < (j + 1) as real * e { BelowNext(n, j + 1, e); }
    if j as real * e < n as real * e { BelowNext(j, n, e); }
  }

  lemma WalkUnfolds(key: Key, b: int, n: int)
    requires 0 <= b < n <= TWO31
    ensures var next := NextKey(key);
            var j := Jump(next, b);
            && (j >= n ==> Walk(key, b, n) == b)
            && (j < n ==> Walk(key, b, n) >= j > b)
  {
    hide NextKey, Jump;
  }

  /**
    The first jump decides: the bucket is 0 when the exact first jump passes all buckets by more
    than the rounding error, and is not 0 when it stays below them by more than that.
  */
  lemma FirstBucket(seed: Key, n: int, next: Key, r: int)
    requires 1 <= n <= TWO31 && Follows(seed, next) && 1 <= r && (r - 1) * TWO33 <= next < r * TWO33
    ensures Exact(r, 0) * (TWO51 - 1) as real >= n as real * TWO51 as real ==> Walk(seed, 0, n) == 0
    ensures Exact(r, 0) * (TWO51 + 1) as real < n as real * TWO51 as real ==> Walk(seed, 0, n) != 0
  {
    hide Exact, Divisor, NextKey, Follows, Lands, Jump, Walk;
    OnlyOneFollows(seed, next);
    BlockOf(next, r);
    JumpLands(next, 0);
    SideOf(r, Jump(next, 0), n);
    WalkUnfolds(seed, 0, n);
  }

  /** For example key 0, whose first jump is the longest of all: bucket 0 of any number. */
  lemma HashOfZero(seed: Key, n: int)
    requires seed == 0 && 1 <= n < TWO31
    ensures Walk(seed, 0, n) == 0
  {
    hide Walk;
    var next: Key, r := 1, 1;
    assert Follows(seed, next);
    assert Exact(r, 0) == TWO31 as real;
    hide Exact, Follows;
    FirstBucket(seed, n, next, r);
  }

  method Hash(seed: Key, requested: int) returns (bucket: int)
    requires Int32(requested)
    ensures bucket == Walk(seed, 0, Buckets(requested))
    ensures if requested <= 0 then bucket == 0 else 0 <= bucket < requested
    ensures Reached(seed, 0, if requested <= 0 then 1 else requested, bucket)
  {
    hide Reached;
    var buckets := requested;
    if buckets <= 0 {
      buckets := 1;
    }
    var key := seed;
    var b, j := 0, 0;
    while j < buckets
      invariant 0 <= b < buckets && 0 <= j <= TWO31 * TWO31
      invariant j < buckets ==> Walk(seed, 0, buckets) == Walk(key, j, buckets)
      invariant j >= buckets ==> Walk(seed, 0, buckets) == b
      decreases buckets - j
    {
      b := j;
      key := NextKey(key);
      j := Jump(key, b);
    }
    bucket := b;
    WalkIsReached(seed, 0, buckets);
  }

  // ----------------------------------------------------------- minimal disruption

  /** Where the walk ends does not depend on buckets beyond its end. */
  lemma {:induction false} WalkIsStable(key: Key, b: int, m: int, n: int)
    requires 0 <= b < m <= n <= TWO31
    ensures Walk(key, b, n) < m ==> Walk(key, b, m) == Walk(key, b, n)
    ensures Walk(key, b, m) <= Walk(key, b, n)
    ensures Walk(key, b, n) == Walk(key, b, m) || Walk(key, b, n) >= m
    decreases n - b
  {
    var next := NextKey(key);
    var j := Jump(next, b);
    if j < m {
      WalkIsStable(next, j, m, n);
    }
  }

  /**
    Minimal disruption. Taking buckets away keeps every key whose bucket remains; adding buckets
    moves a key only into one of the new ones. In particular one more bucket keeps the key where it
    is or moves it to the new last bucket.
  */
  lemma MinimalDisruption(key: Key, m: int, n: int)
    requires 1 <= m <= n <= TWO31
    ensures Walk(key, 0, n) < m <==> Walk(key, 0, m) == Walk(key, 0, n)
    ensures Walk(key, 0, n) != Walk(key, 0, m) ==> m <= Walk(key, 0, n) < n
    ensures n == m + 1 ==> Walk(key, 0, n) == Walk(key, 0, m) || Walk(key, 0, n) == m
  {
    WalkIsStable(key, 0, m, n);
  }

  // ------------------------------------------------------- the selector's use of it

  /** int32(x): keep the low 32 bits and read them as two's complement. */
  function ToInt32(x: int): (r: int)
    ensures Int32(r) && (x - r) % TWO32 == 0
  {
    var y := x % TWO32;
    if y < TWO31 then y else y - TWO32
  }

  function KeyString(options: seq<string>): string {
    if options == [] then "" else KeyString(options[..|options| - 1]) + "/" + options[|options| - 1]
  }

  /** The first option comes first, and each has a slash before it. */
  lemma {:induction false} KeyStringInOrder(first: string, rest: seq<string>)
    ensures KeyString([]) == "" && KeyString([first] + rest) == "/" + first + KeyString(rest)
  {
    if rest == [] {
      assert [first] + rest == [first] && [first][..0] == [];
    } else {
      var n := |rest| - 1;
      KeyStringInOrder(first, rest[..n]);
      assert ([first] + rest)[..n + 1] == [first] + rest[..n];
    }
  }

  /**
    hashString is HashString and the options are already rendered by toString. For every length a
    slice can have, also one that int32 truncates, the answer indexes that slice.
  */
  method JumpConsistentHash(hashString: string -> Key, len: int, options: seq<string>) returns (i: int)
    requires 0 <= len
    ensures i == Walk(hashString(KeyString(options)), 0, Buckets(ToInt32(len)))
    ensures 0 <= i && (len > 0 ==> i < len)
  {
    var keyString := "";
    for k := 0 to |options|
      invariant keyString == KeyString(options[..k])
    {
      keyString := keyString + "/" + options[k];
      assert options[..k + 1][..k] == options[..k];
    }
    assert options[..|options|] == options;
    i := Hash(hashString(keyString), ToInt32(len));
  }
}
