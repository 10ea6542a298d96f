/** Bytes as numbers. */
module ByteValues {
  lemma ByteRoundTrip(n: int)
    requires 0 <= n < 256
    ensures (n as bv8) as int == n
  {
  }

  lemma ByteBack(c: bv8)
    ensures 0 <= c as int < 256 && (c as int) as bv8 == c
  {
  }

  /** A last digit splits off. */
  lemma LastDigit(p: int, c: int)
    requires 0 <= c < 256
    ensures (p * 256 + c) / 256 == p && (p * 256 + c) % 256 == c
  {
  }
}

/** Byte strings and big-endian integers (encoding/binary). Go strings are byte strings too. */
module Bytes {
  import opened ByteValues
  import opened Integers

  type Bytes = seq<bv8>

  function Pow256(w: nat): (p: int)
    ensures p > 0
  {
    if w == 0 then 1 else 256 * Pow256(w - 1)
  }

  /** The low w bytes of n, most significant first. */
  function BigEndian(n: nat, w: nat): (b: Bytes)
    ensures |b| == w
  {
    if w == 0 then [] else BigEndian(n / 256, w - 1) + [(n % 256) as bv8]
  }

  function FromBigEndian(b: Bytes): (n: nat)
    ensures n < Pow256(|b|)
  {
    if b == [] then 0
    else FromBigEndian(b[..|b| - 1]) * 256 + b[|b| - 1] as nat
  }

  lemma {:induction false} BigEndianRoundTrip(n: nat, w: nat)
    requires n < Pow256(w)
    ensures FromBigEndian(BigEndian(n, w)) == n
  {
    if w > 0 {
      BigEndianRoundTrip(n / 256, w - 1);
      ByteRoundTrip(n % 256);
      assert BigEndian(n, w)[..w - 1] == BigEndian(n / 256, w - 1);
    }
  }

  lemma {:induction false} FromBigEndianRoundTrip(b: Bytes)
    ensures BigEndian(FromBigEndian(b), |b|) == b
  {
    if b != [] {
      var p, c := b[..|b| - 1], b[|b| - 1];
      FromBigEndianRoundTrip(p);
      ByteBack(c);
      LastDigit(FromBigEndian(p), c as int);
      assert b == p + [c];
    }
  }

  lemma Widths()
    ensures Pow256(4) == TWO32 && Pow256(8) == TWO64
  {
    assert Pow256(2) == 65536;
    assert Pow256(4) == TWO32;
    assert Pow256(6) == 0x1_0000_0000_0000;
  }

  /** binary.BigEndian.Uint32 on four bytes. */
  function Uint32(b: Bytes): (n: nat)
    requires |b| == 4
    ensures n < TWO32
  {
    Widths();
    FromBigEndian(b)
  }

  function PutUint32(n: nat): (b: Bytes)
    requires n < TWO32
    ensures |b| == 4
  {
    BigEndian(n, 4)
  }

  function Uint64(b: Bytes): (n: nat)
    requires |b| == 8
    ensures n < TWO64
  {
    Widths();
    FromBigEndian(b)
  }

  function PutUint64(n: nat): (b: Bytes)
    requires n < TWO64
    ensures |b| == 8
  {
    BigEndian(n, 8)
  }

  lemma LastByteSplits(b: Bytes)
    requires |b| > 0
    ensures FromBigEndian(b) == FromBigEndian(b[..|b| - 1]) * 256 + b[|b| - 1] as int
  {
  }

  /** Four bytes, most significant first. */
  lemma Uint32Is(b: Bytes)
    requires |b| == 4
    ensures Uint32(b) == b[0] as int * 0x100_0000 + b[1] as int * 0x1_0000 + b[2] as int * 0x100 + b[3] as int
  {
    LastByteSplits(b);
    LastByteSplits(b[..3]);
    LastByteSplits(b[..2]);
    LastByteSplits(b[..1]);
    assert b[..3][..2] == b[..2] && b[..2][..1] == b[..1] && b[..1][..0] == [];
    assert FromBigEndian([]) == 0;
    assert b[..3][2] == b[2] && b[..2][1] == b[1] && b[..1][0] == b[0];
    hide FromBigEndian;
  }

  /** Eight bytes are the first four, shifted, and the last four. */
  lemma Uint64Is(b: Bytes)
    requires |b| == 8
    ensures Uint64(b) == Uint32(b[..4]) * TWO32 + Uint32(b[4..])
  {
    LastByteSplits(b);
    LastByteSplits(b[..7]);
    LastByteSplits(b[..6]);
    LastByteSplits(b[..5]);
    assert b[..7][..6] == b[..6] && b[..6][..5] == b[..5] && b[..5][..4] == b[..4];
    assert b[..7][6] == b[6] && b[..6][5] == b[5] && b[..5][4] == b[4];
    Uint32Is(b[4..]);
    assert b[4..][0] == b[4] && b[4..][1] == b[5] && b[4..][2] == b[6] && b[4..][3] == b[7];
    hide FromBigEndian;
  }

  lemma Uint32RoundTrip(n: nat)
    requires n < TWO32
    ensures Uint32(PutUint32(n)) == n
  {
    Widths();
    BigEndianRoundTrip(n, 4);
  }

  lemma PutUint32RoundTrip(b: Bytes)
    requires |b| == 4
    ensures PutUint32(Uint32(b)) == b
  {
    FromBigEndianRoundTrip(b);
  }

  lemma Uint64RoundTrip(n: nat)
    requires n < TWO64
    ensures Uint64(PutUint64(n)) == n
  {
    Widths();
    BigEndianRoundTrip(n, 8);
  }

  // ------------------------------------------------------------- concatenation

  function Concat(bs: seq<Bytes>): Bytes {
    if bs == [] then [] else bs[0] + Concat(bs[1..])
  }

  lemma {:induction false} ConcatAppend(bs: seq<Bytes>, b: Bytes)
    ensures Concat(bs + [b]) == Concat(bs) + b
  {
    if bs == [] {
      assert [b][1..] == [];
    } else {
      ConcatAppend(bs[1..], b);
      assert (bs + [b])[1..] == bs[1..] + [b];
    }
  }

  lemma SliceOfSlice(s: Bytes, a: nat, l: nat, i: nat, j: nat)
    requires a <= l <= |s| && i <= j <= l - a
    ensures s[a..l][i..j] == s[a + i..a + j]
  {
    var x, y := s[a..l][i..j], s[a + i..a + j];
    forall k | 0 <= k < j - i ensures x[k] == y[k] {
      assert x[k] == s[a..l][i + k];
    }
    assert x == y;
  }

  /** The two parts of a slice that is known as a concatenation. */
  lemma SliceParts(s: Bytes, a: nat, l: nat, x: Bytes, y: Bytes)
    requires a <= l <= |s| && s[a..l] == x + y
    ensures a + |x| <= l && s[a..a + |x|] == x && s[a + |x|..l] == y
  {
    SliceOfSlice(s, a, l, 0, |x|);
    SliceOfSlice(s, a, l, |x|, l - a);
    assert (x + y)[0..|x|] == x;
    assert (x + y)[|x|..l - a] == y;
  }

  lemma SplitSlice(s: Bytes, a: nat, m: nat, l: nat)
    requires a <= m <= l <= |s|
    ensures s[a..l] == s[a..m] + s[m..l]
  {
  }
}
