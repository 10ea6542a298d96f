/** Metadata on the wire: encodeMetadata and decodeMetadata of protocol/message.go. */
module Metadata {
  import opened Bytes
  import opened Integers

  type Meta = map<Bytes, Bytes>
  type Pair = (Bytes, Bytes)

  // ------------------------------------------------------------------- records

  function Field(b: Bytes): (f: Bytes)
    ensures |f| == 4 + |b|
  {
    PutUint32(U32(|b|)) + b
  }

  function Record(p: Pair): Bytes {
    Field(p.0) + Field(p.1)
  }

  function EachRecord(ps: seq<Pair>): (bs: seq<Bytes>)
    ensures |bs| == |ps|
  {
    seq(|ps|, i requires 0 <= i < |ps| => Record(ps[i]))
  }

  /** The length of the key, the key, the length of the value, the value. */
  lemma RecordLayout(p: Pair)
    requires |p.0| < TWO32 && |p.1| < TWO32
    ensures var r, v := Record(p), 4 + |p.0|;
            && |r| == v + 4 + |p.1|
            && r[..4] == PutUint32(|p.0|) && r[4..v] == p.0 && r[v..v + 4] == PutUint32(|p.1|) && r[v + 4..] == p.1
  {
    hide PutUint32;
  }

  /** Whole key/value records, one after the other. */
  function Records(ps: seq<Pair>): Bytes {
    Concat(EachRecord(ps))
  }

  lemma RecordsAppend(ps: seq<Pair>, p: Pair)
    ensures Records(ps + [p]) == Records(ps) + Record(p)
  {
    assert EachRecord(ps + [p]) == EachRecord(ps) + [Record(p)];
    ConcatAppend(EachRecord(ps), Record(p));
  }

  lemma RecordsFirst(ps: seq<Pair>)
    requires ps != []
    ensures Records(ps) == Record(ps[0]) + Records(ps[1..])
  {
    assert EachRecord(ps)[1..] == EachRecord(ps[1..]);
  }

  /** Storing the pairs one after the other: the last value of a repeated key wins. */
  function Store(m: Meta, ps: seq<Pair>): Meta
    decreases ps
  {
    if ps == [] then m else Store(m[ps[0].0 := ps[0].1], ps[1..])
  }

  lemma {:induction false} StoreAppend(m: Meta, ps: seq<Pair>, p: Pair)
    ensures Store(m, ps + [p]) == Store(m, ps)[p.0 := p.1]
    decreases ps
  {
    if ps == [] {
      assert [p][1..] == [];
    } else {
      StoreAppend(m[ps[0].0 := ps[0].1], ps[1..], p);
      assert (ps + [p])[1..] == ps[1..] + [p];
    }
  }

  /** i is the last position at which k is a key. */
  predicate LastAt(ps: seq<Pair>, k: Bytes, i: nat) {
    i < |ps| && ps[i].0 == k && forall j :: i < j < |ps| ==> ps[j].0 != k
  }

  /** The keys stored are those that occur, and each has the value it occurs with last. */
  lemma {:induction false} LastWins(ps: seq<Pair>, k: Bytes)
    ensures k in Store(map[], ps) <==> exists i: nat :: LastAt(ps, k, i)
    ensures forall i: nat :: LastAt(ps, k, i) ==> k in Store(map[], ps) && Store(map[], ps)[k] == ps[i].1
    decreases |ps|
  {
    if ps != [] {
      var n := |ps| - 1;
      var front := ps[..n];
      LastWins(front, k);
      StoreAppend(map[], front, ps[n]);
      assert ps == front + [ps[n]];
      if ps[n].0 == k {
        assert LastAt(ps, k, n);
      } else {
        assert forall i: nat :: LastAt(ps, k, i) <==> LastAt(front, k, i);
      }
    }
  }

  /** ps lists the map in some iteration order. */
  ghost predicate Enumerates(ps: seq<Pair>, m: Meta) {
    Store(map[], ps) == m && |ps| == |m|
  }

  /** The map iteration order is unspecified; the encoding is that of one of them. */
  method EncodeMetadata(m: Meta) returns (data: Bytes)
    ensures exists ps :: Enumerates(ps, m) && data == Records(ps)
  {
    data := [];
    ghost var ps: seq<Pair> := [];
    var left := m.Keys;
    while left != {}
      invariant left <= m.Keys
      invariant Store(map[], ps) == m - left && |ps| == |m.Keys| - |left|
      invariant data == Records(ps)
      decreases left
    {
      var k :| k in left;
      var v := m[k];
      var buf := data + PutUint32(U32(|k|)) + k;
      buf := buf + PutUint32(U32(|v|)) + v;
      WriteRecord(data, k, v);
      RecordsAppend(ps, (k, v));
      StoreAppend(map[], ps, (k, v));
      data := buf;
      ps := ps + [(k, v)];
      left := left - {k};
    }
    assert m - {} == m;
    assert Enumerates(ps, m);
  }

  lemma WriteRecord(data: Bytes, k: Bytes, v: Bytes)
    ensures data + PutUint32(U32(|k|)) + k + PutUint32(U32(|v|)) + v == data + Record((k, v))
  {
  }

  // -------------------------------------------------------------------- parsing

  /** What decodeMetadata ends with; Fault is a slice bounds panic. */
  datatype Outcome = Parsed(meta: Meta) | Missing(meta: Meta) | Fault

  /** Go accepts data[a:b] when b lies within the capacity, not the length, of data. */
  predicate Sliceable(data: Bytes, a: int, b: int) {
    0 <= a <= b <= |data|
  }

  /**
    Where the length-prefixed string at n ends, in uint32 arithmetic: -1 when that passes limit,
    and with the second component set when a slice expression would panic.
  */
  function FieldEnd(data: Bytes, n: nat, limit: nat): (r: (int, bool))
    requires n < TWO32
    ensures -1 <= r.0 < TWO32
    ensures r.0 >= 0 && !r.1 ==> n + 4 <= r.0 <= limit && r.0 <= |data|
  {
    if !Sliceable(data, n, U32(n + 4)) then (0, true)
    else
      var end := U32(U32(n + 4) + Uint32(data[n..n + 4]));
      if end > limit then (-1, false)
      else if !Sliceable(data, U32(n + 4), end) then (0, true)
      else (end, false)
  }

  /**
    decodeMetadata from position n on. data reaches to the capacity of the slice it is given, and
    l-4 wraps around for l below 4.
  */
  function Parse(l: nat, data: Bytes, n: nat, m: Meta): Outcome
    requires l < TWO32 && n < TWO32
    decreases l - n
  {
    if n >= l then Parsed(m)
    else
      var (k1, kFault) := FieldEnd(data, n, U32(l - 4));
      if kFault then Fault
      else if k1 < 0 then Missing(m)
      else
        var (v1, vFault) := FieldEnd(data, k1, l);
        if vFault then Fault
        else if v1 < 0 then Missing(m)
        else Parse(l, data, v1, m[data[n + 4..k1] := data[k1 + 4..v1]])
  }

  method DecodeMetadata(l: nat, data: Bytes) returns (r: Outcome)
    requires l < TWO32
    ensures r == Parse(l, data, 0, map[])
  {
    var m: Meta := map[];
    var n := 0;
    while n < l
      invariant 0 <= n < TWO32
      invariant Parse(l, data, 0, map[]) == Parse(l, data, n, m)
      decreases l - n
    {
      var kEnd, vEnd, fault;
      kEnd, fault := Bounds(data, n, U32(l - 4));
      if fault { return Fault; }
      if kEnd < 0 { return Missing(m); }
      vEnd, fault := Bounds(data, kEnd, l);
      if fault { return Fault; }
      if vEnd < 0 { return Missing(m); }
      m := m[data[n + 4..kEnd] := data[kEnd + 4..vEnd]];
      n := vEnd;
    }
    return Parsed(m);
  }

  /** One length-prefixed string at n: where it ends, or -1 when it passes limit. */
  method Bounds(data: Bytes, n: nat, limit: nat) returns (end: int, fault: bool)
    requires n < TWO32 && limit < TWO32
    ensures (end, fault) == FieldEnd(data, n, limit)
  {
    if !Sliceable(data, n, U32(n + 4)) {
      return 0, true;
    }
    var sl := Uint32(data[n..n + 4]);
    var start := U32(n + 4);
    if U32(start + sl) > limit {
      return -1, false;
    }
    if !Sliceable(data, start, U32(start + sl)) {
      return 0, true;
    }
    return U32(start + sl), false;
  }

  // ------------------------------------------------------------------ acceptance

  /** A string the parser delimits is a whole field, and the other way round. */
  lemma FieldEndIsField(data: Bytes, n: nat, limit: nat)
    requires n < TWO32
    ensures var (e, fault) := FieldEnd(data, n, limit);
            !fault && e >= 0 ==> data[n..e] == Field(data[n + 4..e])
  {
    hide PutUint32, Uint32;
    var (e, fault) := FieldEnd(data, n, limit);
    if !fault && e >= 0 {
      PutUint32RoundTrip(data[n..n + 4]);
      assert Uint32(data[n..n + 4]) == e - (n + 4);
      SplitSlice(data, n, n + 4, e);
    }
  }

  lemma FieldHasEnd(data: Bytes, n: nat, limit: nat, b: Bytes)
    requires limit < TWO32 && n + 4 + |b| <= limit && n + 4 + |b| <= |data|
    requires data[n..n + 4 + |b|] == Field(b)
    ensures FieldEnd(data, n, limit) == (n + 4 + |b|, false)
    ensures data[n + 4..n + 4 + |b|] == b
  {
    hide PutUint32, Uint32;
    SliceParts(data, n, n + 4 + |b|, PutUint32(|b|), b);
    Uint32RoundTrip(|b|);
  }

  /** When wrap-around strikes the slices fault, so an accepted record is a whole one. */
  lemma AcceptedRecord(l: nat, data: Bytes, n: nat, m: Meta) returns (p: Pair, v1: nat)
    requires l < TWO32 && n < l && Parse(l, data, n, m).Parsed?
    ensures n < v1 <= l && v1 <= |data|
    ensures data[n..v1] == Record(p)
    ensures Parse(l, data, n, m) == Parse(l, data, v1, m[p.0 := p.1])
  {
    hide PutUint32, Uint32, FieldEnd;
    var k1 := FieldEnd(data, n, U32(l - 4)).0;
    v1 := FieldEnd(data, k1, l).0;
    p := (data[n + 4..k1], data[k1 + 4..v1]);
    FieldEndIsField(data, n, U32(l - 4));
    FieldEndIsField(data, k1, l);
    SplitSlice(data, n, k1, v1);
  }

  lemma {:induction false} ParseSound(l: nat, data: Bytes, n: nat, m: Meta) returns (ps: seq<Pair>)
    requires l < TWO32 && n <= l && n <= |data| && Parse(l, data, n, m).Parsed?
    ensures l <= |data| && data[n..l] == Records(ps)
    ensures Parse(l, data, n, m) == Parsed(Store(m, ps))
    decreases l - n
  {
    if n == l {
      ps := [];
    } else {
      var p, v1 := AcceptedRecord(l, data, n, m);
      var qs := ParseSound(l, data, v1, m[p.0 := p.1]);
      ps := [p] + qs;
      RecordsFirst(ps);
      SplitSlice(data, n, v1, l);
    }
  }

  lemma WholeRecord(l: nat, data: Bytes, n: nat, m: Meta, p: Pair, e: nat)
    requires n + 8 + |p.0| + |p.1| == e <= l <= |data| && l < TWO32
    requires data[n..e] == Record(p)
    ensures Parse(l, data, n, m) == Parse(l, data, e, m[p.0 := p.1])
  {
    hide PutUint32, Uint32, FieldEnd;
    var k1 := n + 4 + |p.0|;
    SliceParts(data, n, e, Field(p.0), Field(p.1));
    FieldHasEnd(data, n, U32(l - 4), p.0);
    FieldHasEnd(data, k1, l, p.1);
  }

  lemma {:induction false} ParseComplete(l: nat, data: Bytes, n: nat, m: Meta, ps: seq<Pair>)
    requires n <= l <= |data| && l < TWO32 && data[n..l] == Records(ps)
    ensures Parse(l, data, n, m) == Parsed(Store(m, ps))
    decreases ps
  {
    if ps == [] {
      assert |data[n..l]| == 0;
    } else {
      hide PutUint32, Records;
      var p, rest := ps[0], Records(ps[1..]);
      RecordsFirst(ps);
      var e := n + |Record(p)|;
      SliceParts(data, n, l, Record(p), rest);
      WholeRecord(l, data, n, m, p, e);
      ParseComplete(l, data, e, m[p.0 := p.1], ps[1..]);
    }
  }

  /**
    Acceptance. For every declared length and every backing array, decodeMetadata succeeds exactly
    when the first l bytes are whole key/value records, and it then returns the map they store.
  */
  lemma AcceptsExactlyRecords(l: nat, data: Bytes)
    requires l < TWO32
    ensures Parse(l, data, 0, map[]).Parsed? <==> l <= |data| && exists ps :: data[..l] == Records(ps)
    ensures forall ps :: l <= |data| && data[..l] == Records(ps) ==>
              Parse(l, data, 0, map[]) == Parsed(Store(map[], ps))
  {
    if Parse(l, data, 0, map[]).Parsed? {
      var ps := ParseSound(l, data, 0, map[]);
      assert data[..l] == data[0..l];
    }
    forall ps | l <= |data| && data[..l] == Records(ps)
      ensures Parse(l, data, 0, map[]) == Parsed(Store(map[], ps))
    {
      assert data[0..l] == data[..l];
      ParseComplete(l, data, 0, map[], ps);
    }
  }

  // -------------------------------------------------------------------- refusal

  /** Where a string that starts with its length at n would end, modulo 2^32. */
  function EndOf(data: Bytes, n: nat): nat
    requires n + 4 <= |data|
  {
    (n + 4 + Uint32(data[n..n + 4])) % TWO32
  }

  /** The outcome of decodeMetadata from n on when the record there is not a whole one. */
  predicate StopsAt(l: nat, data: Bytes, n: nat, m: Meta, r: Outcome)
    requires l < TWO32 && n < l
  {
    if n + 4 > |data| || n + 4 >= TWO32 then r == Fault
    else
      var k := EndOf(data, n);
      if k > (l - 4) % TWO32 then r == Missing(m)
      else if k < n + 4 || k > |data| || k + 4 > |data| || k + 4 >= TWO32 then r == Fault
      else
        var v := EndOf(data, k);
        if v > l then r == Missing(m)
        else (v < k + 4 || v > |data|) && r == Fault
  }

  /**
    Refusal. When the first l bytes are not whole records, decodeMetadata reads the whole records
    before the first bad one and then either reports missing keys or values, returning what it has
    read, or panics: when a length lies beyond the data or its sum wraps around to a position
    inside the limit.
  */
  lemma {:induction false} RefusedAt(l: nat, data: Bytes, n: nat, m: Meta) returns (ps: seq<Pair>, e: nat)
    requires l < TWO32 && n < l && n <= |data| && !Parse(l, data, n, m).Parsed?
    ensures n <= e < l && e <= |data| && data[n..e] == Records(ps)
    ensures StopsAt(l, data, e, Store(m, ps), Parse(l, data, n, m))
    decreases l - n
  {
    var (k1, kFault) := FieldEnd(data, n, U32(l - 4));
    if kFault || k1 < 0 {
      ps, e := [], n;
      StopsInKey(l, data, n, m);
    } else {
      var (v1, vFault) := FieldEnd(data, k1, l);
      if vFault || v1 < 0 {
        ps, e := [], n;
        StopsInValue(l, data, n, m);
      } else {
        var p := (data[n + 4..k1], data[k1 + 4..v1]);
        WholeFields(l, data, n, k1, v1);
        var qs;
        qs, e := RefusedAt(l, data, v1, m[p.0 := p.1]);
        ps := [p] + qs;
        RecordsFirst(ps);
        SplitSlice(data, n, v1, e);
        hide Records, FieldEnd, StopsAt, Parse;
        assert ps[1..] == qs;
      }
    }
  }

  lemma StopsInKey(l: nat, data: Bytes, n: nat, m: Meta)
    requires l < TWO32 && n < l
    requires var (k1, fault) := FieldEnd(data, n, U32(l - 4)); fault || k1 < 0
    ensures StopsAt(l, data, n, m, Parse(l, data, n, m))
  {
    hide Uint32;
  }

  lemma StopsInValue(l: nat, data: Bytes, n: nat, m: Meta)
    requires l < TWO32 && n < l
    requires var (k1, fault) := FieldEnd(data, n, U32(l - 4));
             && !fault && k1 >= 0
             && var (v1, vFault) := FieldEnd(data, k1, l); vFault || v1 < 0
    ensures StopsAt(l, data, n, m, Parse(l, data, n, m))
  {
    hide Uint32;
  }

  lemma WholeFields(l: nat, data: Bytes, n: nat, k1: int, v1: int)
    requires l < TWO32 && n < l && FieldEnd(data, n, U32(l - 4)) == (k1, false) && k1 >= 0
    requires FieldEnd(data, k1, l) == (v1, false) && v1 >= 0
    ensures n < v1 <= l && v1 <= |data| && n + 4 <= k1 && k1 + 4 <= v1
    ensures data[n..v1] == Record((data[n + 4..k1], data[k1 + 4..v1]))
  {
    hide PutUint32, Uint32;
    FieldEndIsField(data, n, U32(l - 4));
    FieldEndIsField(data, k1, l);
    SplitSlice(data, n, k1, v1);
    hide FieldEnd;
  }
}
