/** The bit-packed 12-byte header of protocol/message.go. */
module Header {
  import opened Bytes
  import opened Integers

  const MAGIC: bv8 := 0x08

  // MessageType, CompressType and MessageStatusType values
  const REQUEST: bv8 := 0
  const RESPONSE: bv8 := 1
  const GZIP: bv8 := 1
  const NORMAL: bv8 := 0
  const ERROR: bv8 := 1

  type Header = h: Bytes | |h| == 12 witness [0, 0, 0, 0, 0, 0, 0, 0, 0, 0, 0, 0]

  function Version(h: Header): bv8 { h[1] }

  function MessageType(h: Header): bv8 { (h[2] & 0x80) >> 7 }

  predicate IsHeartbeat(h: Header) { h[2] & 0x40 == 0x40 }

  predicate IsOneway(h: Header) { h[2] & 0x20 == 0x20 }

  function CompressType(h: Header): bv8 { (h[2] & 0x1C) >> 2 }

  function StatusType(h: Header): bv8 { h[2] & 0x03 }

  function SerializeType(h: Header): bv8 { (h[3] & 0xF0) >> 4 }

  function Seq(h: Header): nat { Uint64(h[4..12]) }

  // The setters; four of them only OR bits in.

  function SetVersion(h: Header, v: bv8): Header { h[1 := v] }

  function SetMessageType(h: Header, mt: bv8): Header { h[2 := h[2] | (mt << 7)] }

  function SetHeartbeat(h: Header, hb: bool): Header {
    h[2 := if hb then h[2] | 0x40 else h[2] & !0x40]
  }

  function SetOneway(h: Header, oneway: bool): Header {
    h[2 := if oneway then h[2] | 0x20 else h[2] & !0x20]
  }

  function SetCompressType(h: Header, ct: bv8): Header { h[2 := h[2] | ((ct << 2) & 0x1C)] }

  function SetStatusType(h: Header, st: bv8): Header { h[2 := h[2] | (st & 0x03)] }

  function SetSerializeType(h: Header, st: bv8): Header { h[3 := h[3] | (st << 4)] }

  function SetSeq(h: Header, seq_: nat): Header
    requires seq_ < TWO64
  {
    h[..4] + PutUint64(seq_)
  }

  /** Everything a header says. */
  datatype Fields = Fields(version: bv8, kind: bv8, heartbeat: bool, oneway: bool,
                           compress: bv8, status: bv8, serialize: bv8, seqNo: nat)

  function Read(h: Header): Fields {
    Fields(Version(h), MessageType(h), IsHeartbeat(h), IsOneway(h),
           CompressType(h), StatusType(h), SerializeType(h), Seq(h))
  }

  /**
    The layout of a header: byte 1 is the version, byte 2 holds type, heartbeat and one-way flag,
    compression and status from its highest bit down, the upper half of byte 3 the codec, and
    bytes 4 to 11 the number, most significant first.
  */
  lemma HeaderLayout(h: Header)
    ensures h[1] == Version(h)
    ensures h[2] == (MessageType(h) << 7) | (if IsHeartbeat(h) then 0x40 else 0) | (if IsOneway(h) then 0x20 else 0)
                    | (CompressType(h) << 2) | StatusType(h)
    ensures MessageType(h) <= 1 && CompressType(h) <= 7 && StatusType(h) <= 3 && SerializeType(h) <= 15
    ensures h[3] & 0xF0 == SerializeType(h) << 4
    ensures Seq(h) == Uint32(h[4..8]) * TWO32 + Uint32(h[8..12])
  {
    Uint64Is(h[4..12]);
    assert h[4..12][..4] == h[4..8] && h[4..12][4..] == h[8..12];
    hide Uint32;
    ByteTwo(h);
  }

  lemma ByteTwo(h: Header)
    ensures h[2] == (MessageType(h) << 7) | (if IsHeartbeat(h) then 0x40 else 0) | (if IsOneway(h) then 0x20 else 0)
                    | (CompressType(h) << 2) | StatusType(h)
    ensures MessageType(h) <= 1 && CompressType(h) <= 7 && StatusType(h) <= 3
    ensures SerializeType(h) <= 15 && h[3] & 0xF0 == SerializeType(h) << 4
  {
  }

  /** Only bytes 4 to 11 carry the sequence number. */
  lemma SameSeq(h: Header, i: nat, b: bv8)
    requires i < 4
    ensures Seq(h[i := b]) == Seq(h)
  {
    assert h[i := b][4..12] == h[4..12];
  }

  // What each setter does to each field: its own field is replaced, or for the OR-only setters
  // merged with the old value cut to its width, and no other field changes.

  lemma SetVersionReads(h: Header, v: bv8)
    ensures Read(SetVersion(h, v)) == Read(h).(version := v)
  {
    hide Seq;
    SameSeq(h, 1, v);
  }

  lemma SetMessageTypeReads(h: Header, v: bv8)
    ensures Read(SetMessageType(h, v)) == Read(h).(kind := Read(h).kind | (v & 1))
  {
    hide Seq;
    SameSeq(h, 2, h[2] | (v << 7));
  }

  lemma SetHeartbeatReads(h: Header, flag: bool)
    ensures Read(SetHeartbeat(h, flag)) == Read(h).(heartbeat := flag)
  {
    hide Seq;
    if flag { SameSeq(h, 2, h[2] | 0x40); } else { SameSeq(h, 2, h[2] & !0x40); }
  }

  lemma SetOnewayReads(h: Header, flag: bool)
    ensures Read(SetOneway(h, flag)) == Read(h).(oneway := flag)
  {
    hide Seq;
    if flag { SameSeq(h, 2, h[2] | 0x20); } else { SameSeq(h, 2, h[2] & !0x20); }
  }

  lemma SetCompressTypeReads(h: Header, v: bv8)
    ensures Read(SetCompressType(h, v)) == Read(h).(compress := Read(h).compress | (v & 7))
  {
    hide Seq;
    SameSeq(h, 2, h[2] | ((v << 2) & 0x1C));
  }

  lemma SetStatusTypeReads(h: Header, v: bv8)
    ensures Read(SetStatusType(h, v)) == Read(h).(status := Read(h).status | (v & 3))
  {
    hide Seq;
    SameSeq(h, 2, h[2] | (v & 0x03));
  }

  lemma SetSerializeTypeReads(h: Header, v: bv8)
    ensures Read(SetSerializeType(h, v)) == Read(h).(serialize := Read(h).serialize | (v & 15))
  {
    hide Seq;
    SameSeq(h, 3, h[3] | (v << 4));
  }

  lemma SetSeqReads(h: Header, n: nat)
    requires n < TWO64
    ensures Read(SetSeq(h, n)) == Read(h).(seqNo := n)
  {
    hide Uint64, PutUint64;
    Uint64RoundTrip(n);
    assert SetSeq(h, n)[4..12] == PutUint64(n);
  }

  /** A header as every message from the pool has it: only the first byte may be set. */
  predicate Zeroed(h: Header) {
    forall i :: 1 <= i < 12 ==> h[i] == 0
  }

  lemma ZeroedReadsZero(h: Header)
    requires Zeroed(h)
    ensures Read(h) == Fields(0, 0, false, false, 0, 0, 0, 0)
  {
    assert h[4..12] == PutUint64(0);
    Uint64RoundTrip(0);
  }

  /** Merging into a field of the given mask stores v exactly when v fits and covers the old value. */
  lemma MergeExactIff(old_: bv8, mask: bv8, v: bv8)
    requires old_ & mask == old_
    ensures old_ | (v & mask) == v <==> v & mask == v && old_ | v == v
  {
  }

  lemma MessageTypeExactIff(h: Header, v: bv8)
    ensures MessageType(SetMessageType(h, v)) == v <==> v & 1 == v && MessageType(h) | v == v
  {
    FieldsFit(h);
    hide MessageType, SetMessageType;
    SetMessageTypeReads(h, v);
    MergeExactIff(MessageType(h), 1, v);
  }

  lemma CompressTypeExactIff(h: Header, v: bv8)
    ensures CompressType(SetCompressType(h, v)) == v <==> v & 7 == v && CompressType(h) | v == v
  {
    FieldsFit(h);
    hide CompressType, SetCompressType;
    SetCompressTypeReads(h, v);
    MergeExactIff(CompressType(h), 7, v);
  }

  lemma StatusTypeExactIff(h: Header, v: bv8)
    ensures StatusType(SetStatusType(h, v)) == v <==> v & 3 == v && StatusType(h) | v == v
  {
    FieldsFit(h);
    hide StatusType, SetStatusType;
    SetStatusTypeReads(h, v);
    MergeExactIff(StatusType(h), 3, v);
  }

  lemma SerializeTypeExactIff(h: Header, v: bv8)
    ensures SerializeType(SetSerializeType(h, v)) == v <==> v & 15 == v && SerializeType(h) | v == v
  {
    FieldsFit(h);
    hide SerializeType, SetSerializeType;
    SetSerializeTypeReads(h, v);
    MergeExactIff(SerializeType(h), 15, v);
  }

  /** An OR-only setter stores v exactly when v fits its field and covers what was there before. */
  lemma OrSetterExactIff(h: Header, v: bv8)
    ensures MessageType(SetMessageType(h, v)) == v <==> v & 1 == v && MessageType(h) | v == v
    ensures CompressType(SetCompressType(h, v)) == v <==> v & 7 == v && CompressType(h) | v == v
    ensures StatusType(SetStatusType(h, v)) == v <==> v & 3 == v && StatusType(h) | v == v
    ensures SerializeType(SetSerializeType(h, v)) == v <==> v & 15 == v && SerializeType(h) | v == v
  {
    hide MessageType, SetMessageType, CompressType, SetCompressType;
    hide StatusType, SetStatusType, SerializeType, SetSerializeType;
    MessageTypeExactIff(h, v);
    CompressTypeExactIff(h, v);
    StatusTypeExactIff(h, v);
    SerializeTypeExactIff(h, v);
  }

  /** Types cannot be changed back: a response on which Request is set stays a response. */
  lemma OrSetterStoresWrongType(h: Header)
    requires MessageType(h) == RESPONSE
    ensures MessageType(SetMessageType(h, REQUEST)) == RESPONSE != REQUEST
  {
  }

  /** And merged values can be neither the old nor the new one: compression 1, then 2, reads 3. */
  lemma OrSetterMixesValues()
    ensures exists h: Header :: CompressType(h) == 1 && CompressType(SetCompressType(h, 2)) == 3
  {
    var h: Header := [MAGIC, 0, 0x04, 0, 0, 0, 0, 0, 0, 0, 0, 0];
    assert CompressType(h) == 1 && CompressType(SetCompressType(h, 2)) == 3;
  }

  lemma FieldsFit(h: Header)
    ensures MessageType(h) & 1 == MessageType(h)
    ensures CompressType(h) & 7 == CompressType(h)
    ensures StatusType(h) & 3 == StatusType(h)
    ensures SerializeType(h) & 15 == SerializeType(h)
  {
  }
}
