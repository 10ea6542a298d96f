/** The shared pool of messages (protocol/pool.go) and Message.Copy, which draws on it. */
module Pool {
  import opened Wrappers
  import opened Bytes
  import opened Integers
  import H = Header
  import opened Metadata
  import W = Wire
  import opened Messages

  class MessagePool {
    var free: set<Message>

    /** Every message in the pool was reset, and no two of them share a header. */
    ghost predicate Valid()
      reads this, free, set m | m in free :: m.header
    {
      && (forall m :: m in free ==> m.Valid() && Clean(m.Value()))
      && (forall a, b :: a in free && b in free && a != b ==> a.header != b.header)
    }

    ghost function Footprint(): set<object>
      reads this, free
    {
      {this} + free + set m | m in free :: m.header
    }

    /** m is held outside the pool and its header is no pooled message's. */
    ghost predicate Outside(m: Message)
      reads this, free, m
    {
      m !in free && forall x :: x in free ==> x.header != m.header
    }

    constructor ()
      ensures Valid() && free == {}
    {
      free := {};
    }

    /** sync.Pool gives any message it holds, or a new one. */
    method GetMsgs() returns (m: Message)
      requires Valid()
      modifies this
      ensures Valid() && free <= old(free)
      ensures m.Valid() && Clean(m.Value()) && Outside(m)
      ensures (m in old(free) && old(allocated(m.header))) || (fresh(m) && fresh(m.header))
      ensures m in old(free) ==> m.header == old(m.header)
    {
      if * {
        m := new Message();
      } else if free == {} {
        m := new Message();
      } else {
        m :| m in free;
        free := free - {m};
      }
    }

    method FreeMsg(m: Message)
      requires Valid() && m.Valid() && Outside(m)
      modifies this, m, m.header
      ensures Valid() && free == old(free) + {m}
      ensures m.header == old(m.header)
    {
      m.Reset();
      free := free + {m};
    }

    /** Message.Copy: header, path and method, but neither metadata nor payload. */
    method Copy(m: Message) returns (c: Message)
      requires Valid() && m.Valid() && Outside(m)
      modifies Footprint()
      ensures Valid() && free <= old(free)
      ensures c.Valid() && c.Value() == Copied(old(m.Value()))
      ensures Outside(c) && fresh(c.header) && (c in old(free) || fresh(c))
      ensures Outside(m) && c != m && m.Valid() && m.header == old(m.header)
      ensures m.Value() == old(m.Value())
    {
      hide H.Zeroed;
      var header := CopyOf(m.header);
      c := GetMsgs();
      c.header := header;
      c.servicePath := m.servicePath;
      c.serviceMethod := m.serviceMethod;
    }
  }

  method CopyOf(header: array<bv8>) returns (r: array<bv8>)
    requires header.Length == 12
    ensures fresh(r) && r.Length == 12 && r[..] == header[..]
  {
    var bytes := header[..];
    r := new bv8[12](i requires 0 <= i < 12 => bytes[i]);
  }

  function Copied(m: Msg): Msg {
    W.Msg(m.header, m.servicePath, m.serviceMethod, None, [])
  }

  // ------------------------------------------------------- the request send() encodes

  /** A Go value that only codecs look into. */
  type Value = nat

  /** A call as Go() is given it. */
  datatype Call = Call(servicePath: Bytes, serviceMethod: Bytes, metadata: Option<Meta>, args: Value)

  /** The client's options, with the configured codec's Encode and gzip, both of which may fail. */
  datatype Options = Options(
    serialize: bv8, gzip: bool, encode: Value -> Option<Bytes>, zip: Bytes -> Option<Bytes>)

  predicate IsPing(c: Call) {
    c.servicePath == [] && c.serviceMethod == []
  }

  /** The payload for some arguments and whether it is compressed, unless encoding fails. */
  function Packed(o: Options, args: Value): Option<(Bytes, bool)> {
    match o.encode(args)
    case None => None
    case Some(data) =>
      if |data| > 1024 && o.gzip then
        match o.zip(data)
        case None => None
        case Some(z) => Some((z, true))
      else Some((data, false))
  }

  /** send gets as far as writing a request. */
  predicate Encodable(o: Options, c: Call) {
    IsPing(c) || Packed(o, c.args).Some?
  }

  /** The message that send builds from a pooled one. */
  function RequestOf(base: Msg, seqNo: nat, c: Call, o: Options): Msg
    requires seqNo < TWO64 && Encodable(o, c)
  {
    var h := H.SetSeq(H.SetMessageType(base.header, H.REQUEST), seqNo);
    if IsPing(c) then base.(header := H.SetHeartbeat(h, true))
    else
      var h1 := H.SetSerializeType(h, o.serialize);
      var (payload, zipped) := Packed(o, c.args).value;
      base.(header := if zipped then H.SetCompressType(h1, H.GZIP) else h1,
            metadata := if c.metadata != None then c.metadata else base.metadata,
            servicePath := c.servicePath, serviceMethod := c.serviceMethod, payload := payload)
  }

  /** m says that it is the request of call c under number seqNo, and carries all that c carries. */
  predicate IsRequest(c: Call, o: Options, seqNo: nat, m: Msg) {
    && m.servicePath == c.servicePath && m.serviceMethod == c.serviceMethod
    && if c.servicePath == [] && c.serviceMethod == [] then
         && H.Read(m.header) == H.Fields(0, H.REQUEST, true, false, 0, H.NORMAL, 0, seqNo)
         && m.metadata == None && m.payload == []
       else
         && m.metadata == c.metadata && o.encode(c.args).Some?
         && var data := o.encode(c.args).value;
            if |data| > 1024 && o.gzip then
              && o.zip(data) == Some(m.payload)
              && H.Read(m.header) == H.Fields(0, H.REQUEST, false, false, H.GZIP, H.NORMAL, o.serialize, seqNo)
            else
              && m.payload == data
              && H.Read(m.header) == H.Fields(0, H.REQUEST, false, false, 0, H.NORMAL, o.serialize, seqNo)
  }

  /** A request can be built for heartbeats, and for arguments that encode and, if need be, compress. */
  lemma EncodableMeans(o: Options, c: Call)
    ensures Encodable(o, c) <==>
              || (c.servicePath == [] && c.serviceMethod == [])
              || (o.encode(c.args).Some?
                  && (|o.encode(c.args).value| > 1024 && o.gzip ==> o.zip(o.encode(c.args).value).Some?))
  {
  }

  /** The bytes of the header that send encodes. */
  lemma RequestBytes(base: Msg, seqNo: nat, c: Call, o: Options)
    requires Clean(base) && seqNo < TWO64 && o.serialize & 15 == o.serialize && Encodable(o, c)
    ensures var h, ping := RequestOf(base, seqNo, c, o).header, c.servicePath == [] && c.serviceMethod == [];
            && h[0] == base.header[0] && h[1] == 0 && h[4..12] == PutUint64(seqNo)
            && h[2] == (if ping then 0x40
                        else if |o.encode(c.args).value| > 1024 && o.gzip then 0x04 else 0)
            && h[3] == if ping then 0 else o.serialize << 4
  {
    hide PutUint64;
    var h0 := H.SetSeq(H.SetMessageType(base.header, H.REQUEST), seqNo);
    assert h0[2] == 0 && h0[3] == 0 && h0[4..12] == PutUint64(seqNo);
    ZeroOr(o.serialize);
  }

  lemma ZeroOr(v: bv8)
    ensures 0 | v == v && (0 as bv8) | ((H.GZIP << 2) & 0x1C) == 0x04 && (0 as bv8) | 0x40 == 0x40
  {
  }

  /**
    Because the pool only hands out reset messages, the OR-only setters of send are exact: the
    header reads back as a request with precisely the flags, codec, compression and number set.
  */
  lemma RequestReadsBack(base: Msg, seqNo: nat, c: Call, o: Options)
    requires Clean(base) && seqNo < TWO64 && o.serialize & 15 == o.serialize && Encodable(o, c)
    ensures IsRequest(c, o, seqNo, RequestOf(base, seqNo, c, o))
  {
    hide H.Read, H.SetMessageType, H.SetSeq, H.SetHeartbeat, H.SetSerializeType, H.SetCompressType;
    H.ZeroedReadsZero(base.header);
    H.SetMessageTypeReads(base.header, H.REQUEST);
    var h0 := H.SetMessageType(base.header, H.REQUEST);
    H.SetSeqReads(h0, seqNo);
    var h := H.SetSeq(h0, seqNo);
    H.SetHeartbeatReads(h, true);
    H.SetSerializeTypeReads(h, o.serialize);
    H.SetCompressTypeReads(H.SetSerializeType(h, o.serialize), H.GZIP);
  }

  /** Lines 382-413 of send; on failure the message is left behind half filled. */
  method FillRequest(req: Message, seqNo: nat, c: Call, o: Options) returns (ok: bool)
    requires req.Valid() && seqNo < TWO64
    modifies req, req.header
    ensures req.Valid() && req.header == old(req.header)
    ensures ok <==> Encodable(o, c)
    ensures ok <==>
              || (c.servicePath == [] && c.serviceMethod == [])
              || (o.encode(c.args).Some?
                  && (|o.encode(c.args).value| > 1024 && o.gzip ==> o.zip(o.encode(c.args).value).Some?))
    ensures ok ==> req.Value() == RequestOf(old(req.Value()), seqNo, c, o)
  {
    hide H.SetSeq, H.SetMessageType, H.SetHeartbeat, H.SetSerializeType, H.SetCompressType;
    req.SetMessageType(H.REQUEST);
    req.SetSeq(seqNo);
    if c.servicePath == [] && c.serviceMethod == [] {
      req.SetHeartbeat(true);
    } else {
      req.SetSerializeType(o.serialize);
      if c.metadata != None {
        req.metadata := c.metadata;
      }
      req.servicePath := c.servicePath;
      req.serviceMethod := c.serviceMethod;
      var data := o.encode(c.args);
      if data == None {
        return false;
      }
      if |data.value| > 1024 && o.gzip {
        data := o.zip(data.value);
        if data == None {
          return false;
        }
        req.SetCompressType(H.GZIP);
      }
      req.payload := data.value;
    }
    return true;
  }

  /** Lines 381-428 of send up to the write: the bytes for a call, unless encoding fails. */
  method SendRequest(pool: MessagePool, seqNo: nat, c: Call, o: Options)
    returns (data: Option<Bytes>)
    requires pool.Valid() && seqNo < TWO64
    modifies pool.Footprint()
    ensures pool.Valid()
    ensures data.Some? <==> Encodable(o, c)
    ensures data.Some? ==>
              exists base :: Clean(base) && W.IsEncoding(RequestOf(base, seqNo, c, o), data.value)
  {
    hide W.IsEncoding, RequestOf, Encodable;
    var req := pool.GetMsgs();
    ghost var base := req.Value();
    var ok := FillRequest(req, seqNo, c, o);
    if !ok {
      return None;
    }
    var frame := req.Encode();
    data := Some(frame[..]);
    assert W.IsEncoding(RequestOf(base, seqNo, c, o), data.value);
    pool.FreeMsg(req);
  }
}
