/** Mutable messages, the stream they are read from and the pool they are reused through. */
module Messages {
  import opened Wrappers
  import opened Bytes
  import opened Integers
  import H = Header
  import opened Metadata
  import W = Wire

  type Msg = W.Msg

  /** Nothing is left from an earlier use; only the first header byte may be set. */
  predicate Clean(m: Msg) {
    && H.Zeroed(m.header)
    && m.servicePath == [] && m.serviceMethod == []
    && m.metadata == None && m.payload == []
  }

  function ZeroHeader(h: H.Header): (r: H.Header)
    ensures H.Zeroed(r)
  {
    [h[0]] + [0, 0, 0, 0, 0, 0, 0, 0, 0, 0, 0]
  }

  function Cleared(m: Msg): (r: Msg)
    ensures Clean(r)
  {
    W.Msg(ZeroHeader(m.header), [], [], None, [])
  }

  /** copy(dst[at:], src) */
  method CopyInto(dst: array<bv8>, at: nat, src: Bytes)
    requires at + |src| <= dst.Length
    modifies dst
    ensures dst[..at] == old(dst[..at])
    ensures dst[at..at + |src|] == src
    ensures dst[at + |src|..] == old(dst[at + |src|..])
  {
    for i := 0 to |src|
      invariant dst[..at] == old(dst[..at])
      invariant dst[at..at + i] == src[..i]
      invariant dst[at + |src|..] == old(dst[at + |src|..])
    {
      dst[at + i] := src[i];
      assert dst[at..at + i + 1] == dst[at..at + i] + [src[i]];
    }
  }

  /** The buffered connection: the bytes that will still arrive before its end. */
  class Reader {
    var rest: Bytes

    constructor (stream: Bytes)
      ensures rest == stream
    {
      rest := stream;
    }

    /** io.ReadFull for n bytes: all of them, or what there is with EOF or ErrUnexpectedEOF. */
    method ReadFull(n: nat) returns (buf: Bytes, err: W.Outcome)
      modifies this
      ensures n <= old(|rest|) ==> buf == old(rest)[..n] && rest == old(rest)[n..] && err == W.Ok
      ensures n > old(|rest|) ==>
                buf == old(rest) && rest == [] && err == if buf == [] then W.Eof else W.UnexpectedEof
    {
      if n <= |rest| {
        buf, rest := rest[..n], rest[n..];
        err := W.Ok;
      } else {
        buf, rest := rest, [];
        err := if buf == [] then W.Eof else W.UnexpectedEof;
      }
    }
  }

  class Message {
    var header: array<bv8>
    var servicePath: Bytes
    var serviceMethod: Bytes
    var metadata: Option<Meta>
    var payload: Bytes

    ghost predicate Valid()
      reads this
    {
      header.Length == 12
    }

    ghost function Value(): Msg
      reads this, header
      requires Valid()
    {
      W.Msg(header[..], servicePath, serviceMethod, metadata, payload)
    }

    /** NewMessage, and the New function of the pool. */
    constructor ()
      ensures Valid() && fresh(header) && Clean(Value())
      ensures header[0] == H.MAGIC == 0x08
    {
      header := new bv8[12](i => if i == 0 then H.MAGIC else 0);
      servicePath, serviceMethod, metadata, payload := [], [], None, [];
    }

    method SetMessageType(mt: bv8)
      requires Valid()
      modifies header
      ensures Value() == old(Value()).(header := H.SetMessageType(old(header[..]), mt))
    {
      header[2] := header[2] | (mt << 7);
      assert header[..] == H.SetMessageType(old(header[..]), mt);
    }

    method SetHeartbeat(hb: bool)
      requires Valid()
      modifies header
      ensures Value() == old(Value()).(header := H.SetHeartbeat(old(header[..]), hb))
    {
      if hb {
        header[2] := header[2] | 0x40;
      } else {
        header[2] := header[2] & !0x40;
      }
      assert header[..] == H.SetHeartbeat(old(header[..]), hb);
    }

    method SetCompressType(ct: bv8)
      requires Valid()
      modifies header
      ensures Value() == old(Value()).(header := H.SetCompressType(old(header[..]), ct))
    {
      header[2] := header[2] | ((ct << 2) & 0x1C);
      assert header[..] == H.SetCompressType(old(header[..]), ct);
    }

    method SetStatusType(st: bv8)
      requires Valid()
      modifies header
      ensures Value() == old(Value()).(header := H.SetStatusType(old(header[..]), st))
    {
      header[2] := header[2] | (st & 0x03);
      assert header[..] == H.SetStatusType(old(header[..]), st);
    }

    method SetSerializeType(st: bv8)
      requires Valid()
      modifies header
      ensures Value() == old(Value()).(header := H.SetSerializeType(old(header[..]), st))
    {
      header[3] := header[3] | (st << 4);
      assert header[..] == H.SetSerializeType(old(header[..]), st);
    }

    method SetSeq(n: nat)
      requires Valid() && n < TWO64
      modifies header
      ensures Value() == old(Value()).(header := H.SetSeq(old(header[..]), n))
    {
      hide PutUint64;
      CopyInto(header, 4, PutUint64(n));
      assert header[..] == header[..4] + header[4..12] + header[12..];
      assert header[..] == H.SetSeq(old(header[..]), n);
    }

    /** The first header byte survives a reset. */
    method Reset()
      requires Valid()
      modifies this, header
      ensures Valid() && header == old(header)
      ensures Value() == Cleared(old(Value()))
      ensures header[0] == old(header[0]) && forall i :: 1 <= i < 12 ==> header[i] == 0
      ensures servicePath == serviceMethod == payload == [] && metadata == None
    {
      CopyInto(header, 1, [0, 0, 0, 0, 0, 0, 0, 0, 0, 0, 0]);
      assert header[..] == header[..1] + header[1..12] + header[12..];
      metadata, payload := None, [];
      servicePath, serviceMethod := [], [];
    }

    method Encode() returns (data: array<bv8>)
      requires Valid()
      ensures fresh(data) && W.IsEncoding(Value(), data[..])
    {
      hide PutUint32, Records, Field, W.Body, W.Frame;
      var meta := EncodeMetadata(W.MetaOf(metadata));
      data := LayOut(header[..], servicePath, serviceMethod, meta, payload);
      ghost var ps :| Enumerates(ps, W.MetaOf(metadata)) && meta == Records(ps);
      assert data[..] == W.FrameOf(Value(), ps);
    }

    method Decode(r: Reader, max: int) returns (outcome: W.Outcome)
      requires Valid()
      modifies this, header, r
      ensures Valid() && header == old(header)
      ensures W.Decoded(outcome, Value(), r.rest) == W.Decode(max, old(Value()), old(r.rest))
    {
      hide Uint32, Parse;
      ghost var m0, input := Value(), r.rest;
      var buf;
      buf, outcome := r.ReadFull(12);
      CopyInto(header, 0, buf);
      assert header[..] == header[..0] + header[0..|buf|] + header[|buf|..];
      assert header[..] == buf + m0.header[|buf|..];
      if outcome != W.Ok {
        return;
      }
      assert Value() == m0.(header := input[..12]);
      buf, outcome := r.ReadFull(4);
      if outcome != W.Ok {
        return;
      }
      var l := Uint32(buf);
      if max > 0 && l > max {
        return W.TooLong;
      }
      var data;
      data, outcome := r.ReadFull(l);
      if outcome != W.Ok {
        return;
      }
      outcome := DecodeBody(data);
    }

    /** Decode after the frame was read; the slice expressions come first. */
    method DecodeBody(data: Bytes) returns (outcome: W.Outcome)
      requires Valid()
      modifies this
      ensures Valid() && header == old(header)
      ensures (outcome, Value()) == W.DecodeBody(old(Value()), data)
    {
      hide Uint32, Parse;
      if |data| < 4 {
        return W.Panic;
      }
      var l := Uint32(data[0..4]);
      var n := 4;
      var nEnd := n + l;
      if nEnd > |data| {
        return W.Panic;
      }
      servicePath := data[n..nEnd];
      n := nEnd;

      if n + 4 > |data| {
        return W.Panic;
      }
      l := Uint32(data[n..n + 4]);
      nEnd := n + 4 + l;
      if nEnd > |data| {
        return W.Panic;
      }
      serviceMethod := data[n + 4..nEnd];
      outcome := DecodeTail(data, nEnd);
    }

    method DecodeTail(data: Bytes, start: nat) returns (outcome: W.Outcome)
      requires Valid()
      modifies this
      ensures Valid() && header == old(header)
      ensures (outcome, Value()) == W.DecodeTail(old(Value()), data, start)
    {
      hide Uint32, Parse;
      var n := start;
      if n + 4 > |data| {
        return W.Panic;
      }
      var l := Uint32(data[n..n + 4]);
      n := n + 4;
      var nEnd := n + l;
      if l > 0 {
        if nEnd > |data| {
          return W.Panic;
        }
        var r := DecodeMetadata(l, data[n..]);
        match r {
          case Fault => return W.Panic;
          case Missing(m) =>
            metadata := Some(m);
            return W.MetaMissing;
          case Parsed(m) => metadata := Some(m);
        }
      }
      n := nEnd;
      if n + 4 > |data| {
        return W.Panic;
      }
      payload := data[n + 4..];
      return W.Ok;
    }
  }

  /** Encode from line 283 on: the whole frame is laid out by offset in one buffer. */
  method LayOut(header: H.Header, servicePath: Bytes, serviceMethod: Bytes, meta: Bytes, payload: Bytes)
    returns (data: array<bv8>)
    ensures fresh(data) && data[..] == W.Frame(header, W.Body(servicePath, serviceMethod, meta, payload))
  {
    hide PutUint32, Field, W.Body, W.Frame;
    var spl, sml := |servicePath|, |serviceMethod|;
    var allL := (4 + spl) + (4 + sml) + (4 + |meta|) + (4 + |payload|);
    var metaStart := 12 + 4 + (4 + spl) + (4 + sml);
    var payLoadStart := metaStart + (4 + |meta|);
    data := new bv8[12 + 4 + allL](_ => 0);
    CopyInto(data, 0, header);
    assert data[..12] == data[0..12];
    Put(data, 12, PutUint32(U32(allL)), header);
    ghost var done := header + PutUint32(U32(allL));
    PutField(data, 16, servicePath, done);
    done := done + Field(servicePath);
    PutField(data, 20 + spl, serviceMethod, done);
    done := done + Field(serviceMethod);
    PutField(data, metaStart, meta, done);
    done := done + Field(meta);
    PutField(data, payLoadStart, payload, done);
    assert data[..] == data[..data.Length];
    Layout(header, servicePath, serviceMethod, meta, payload);
  }

  /** copy to position at of a buffer that holds done before it. */
  method Put(data: array<bv8>, at: nat, b: Bytes, ghost done: Bytes)
    requires at + |b| <= data.Length && data[..at] == done
    modifies data
    ensures data[..at + |b|] == done + b
  {
    CopyInto(data, at, b);
    Extend(data[..], done, at, b);
    assert data[..][..at + |b|] == data[..at + |b|];
  }

  /** PutUint32 of the length and copy of the contents behind it. */
  method PutField(data: array<bv8>, at: nat, b: Bytes, ghost done: Bytes)
    requires at + 4 + |b| <= data.Length && data[..at] == done
    modifies data
    ensures data[..at + 4 + |b|] == done + Field(b)
  {
    hide PutUint32;
    var n := PutUint32(U32(|b|));
    Put(data, at, n, done);
    Put(data, at + 4, b, done + n);
    assert done + n + b == done + Field(b);
  }

  /** What lies before position at, followed by what was just written there. */
  lemma Extend(data: Bytes, before: Bytes, at: nat, src: Bytes)
    requires |before| == at && at + |src| <= |data|
    requires data[..at] == before && data[at..at + |src|] == src
    ensures data[..at + |src|] == before + src
  {
    assert data[..at + |src|] == data[..at] + data[at..at + |src|];
  }

  lemma Layout(h: H.Header, path: Bytes, meth: Bytes, meta: Bytes, payload: Bytes)
    ensures var allL := (4 + |path|) + (4 + |meth|) + (4 + |meta|) + (4 + |payload|);
            h + PutUint32(U32(allL)) + Field(path) + Field(meth) + Field(meta) + Field(payload)
            == W.Frame(h, W.Body(path, meth, meta, payload))
  {
    hide PutUint32;
    assert |W.Body(path, meth, meta, payload)|
        == (4 + |path|) + (4 + |meth|) + (4 + |meta|) + (4 + |payload|);
  }
}
