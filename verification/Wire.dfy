/** Messages and their wire format (protocol/message.go). */
module Wire {
  import opened Wrappers
  import opened Bytes
  import opened Integers
  import opened Header
  import opened Metadata

  /** The value of a message: what the program keeps in the fields of a Message. */
  datatype Msg = Msg(header: Header, servicePath: Bytes, serviceMethod: Bytes,
                     metadata: Option<Meta>, payload: Bytes)

  /** A nil map and an empty map are written alike. */
  function MetaOf(metadata: Option<Meta>): Meta {
    if metadata.None? then map[] else metadata.value
  }

  // --------------------------------------------------------------------- frames

  function Body(path: Bytes, meth: Bytes, meta: Bytes, payload: Bytes): Bytes {
    Field(path) + Field(meth) + Field(meta) + Field(payload)
  }

  function Frame(h: Header, body: Bytes): Bytes {
    h + PutUint32(U32(|body|)) + body
  }

  /** f is m on the wire, for one of the iteration orders of its metadata. */
  ghost predicate IsEncoding(m: Msg, f: Bytes) {
    exists ps :: Enumerates(ps, MetaOf(m.metadata)) && f == FrameOf(m, ps)
  }

  function FrameOf(m: Msg, ps: seq<Pair>): Bytes {
    Frame(m.header, Body(m.servicePath, m.serviceMethod, Records(ps), m.payload))
  }

  // -------------------------------------------------------------------- decoding

  datatype Outcome = Ok | Eof | UnexpectedEof | TooLong | MetaMissing | Panic

  /** The outcome of Decode, the message it leaves behind and the unread rest of the stream. */
  datatype Decoded = Decoded(outcome: Outcome, msg: Msg, rest: Bytes)

  /** io.ReadFull on a stream that ends after too few bytes. */
  function Short(got: Bytes): Outcome {
    if got == [] then Eof else UnexpectedEof
  }

  /** A length-prefixed string at n and the position behind it; None is a slice bounds panic. */
  function TakeField(data: Bytes, n: nat): (r: Option<(Bytes, nat)>)
    ensures r.Some? ==> n + 4 <= r.value.1 <= |data|
  {
    if n + 4 > |data| then None
    else
      var e := n + 4 + Uint32(data[n..n + 4]);
      if e > |data| then None else Some((data[n + 4..e], e))
  }

  /** Decode from the metadata on. The stored metadata is left alone when there is none to read. */
  function DecodeTail(m: Msg, data: Bytes, n: nat): (Outcome, Msg) {
    if n + 4 > |data| then (Panic, m)
    else
      var l := Uint32(data[n..n + 4]);
      var e := n + 4 + l;
      if l == 0 then DecodePayload(m, data, e)
      else if e > |data| then (Panic, m)
      else
        match Parse(l, data[n + 4..], 0, map[])
        case Fault => (Panic, m)
        case Missing(meta) => (MetaMissing, m.(metadata := Some(meta)))
        case Parsed(meta) => DecodePayload(m.(metadata := Some(meta)), data, e)
  }

  /** The payload is what follows its length; the length itself is not looked at. */
  function DecodePayload(m: Msg, data: Bytes, n: nat): (Outcome, Msg) {
    if n + 4 > |data| then (Panic, m) else (Ok, m.(payload := data[n + 4..]))
  }

  function DecodeBody(m: Msg, data: Bytes): (Outcome, Msg) {
    match TakeField(data, 0)
    case None => (Panic, m)
    case Some((path, n1)) =>
      var m1 := m.(servicePath := path);
      match TakeField(data, n1)
      case None => (Panic, m1)
      case Some((meth, n2)) => DecodeTail(m1.(serviceMethod := meth), data, n2)
  }

  /** Message.Decode with MaxMessageLength max, into a message that holds m. */
  function Decode(max: int, m: Msg, input: Bytes): (r: Decoded)
    ensures r.outcome.Ok? ==> |r.rest| + 16 <= |input|
  {
    if |input| < 12 then Decoded(Short(input), m.(header := input + m.header[|input|..]), [])
    else
      var m1, rest := m.(header := input[..12]), input[12..];
      if |rest| < 4 then Decoded(Short(rest), m1, [])
      else
        var l, data := Uint32(rest[..4]), rest[4..];
        if max > 0 && l > max then Decoded(TooLong, m1, data)
        else if |data| < l then Decoded(Short(data), m1, [])
        else
          var (outcome, m2) := DecodeBody(m1, data[..l]);
          Decoded(outcome, m2, data[l..])
  }

  /** Where everything lies in a frame. */
  lemma FrameLayout(m: Msg, ps: seq<Pair>)
    requires Sized(FrameOf(m, ps))
    ensures var f, meta := FrameOf(m, ps), Records(ps);
            var a := 20 + |m.servicePath|;
            var b := a + 4 + |m.serviceMethod|;
            var c := b + 4 + |meta|;
            && |f| == c + 4 + |m.payload|
            && f[..12] == m.header && f[12..16] == PutUint32(|f| - 16)
            && f[16..20] == PutUint32(|m.servicePath|) && f[20..a] == m.servicePath
            && f[a..a + 4] == PutUint32(|m.serviceMethod|) && f[a + 4..b] == m.serviceMethod
            && f[b..b + 4] == PutUint32(|meta|) && f[b + 4..c] == meta
            && f[c..c + 4] == PutUint32(|m.payload|) && f[c + 4..] == m.payload
  {
    hide PutUint32, Records, Body, Frame;
    var body := Body(m.servicePath, m.serviceMethod, Records(ps), m.payload);
    FrameHead(m.header, body);
    BodyLayout(FrameOf(m, ps), m.servicePath, m.serviceMethod, Records(ps), m.payload);
  }

  lemma FrameHead(h: Header, body: Bytes)
    ensures var f := Frame(h, body);
            |f| == 16 + |body| && f[..12] == h && f[12..16] == PutUint32(U32(|body|)) && f[16..] == body
  {
    hide PutUint32;
  }

  lemma BodyLayout(f: Bytes, path: Bytes, meth: Bytes, meta: Bytes, payload: Bytes)
    requires 16 <= |f| < 16 + TWO32 && f[16..] == Body(path, meth, meta, payload)
    ensures var a := 20 + |path|;
            var b := a + 4 + |meth|;
            var c := b + 4 + |meta|;
            && |f| == c + 4 + |payload|
            && f[16..20] == PutUint32(|path|) && f[20..a] == path
            && f[a..a + 4] == PutUint32(|meth|) && f[a + 4..b] == meth
            && f[b..b + 4] == PutUint32(|meta|) && f[b + 4..c] == meta
            && f[c..c + 4] == PutUint32(|payload|) && f[c + 4..] == payload
  {
    hide PutUint32;
    var r3 := Field(payload) + [];
    var r2 := Field(meta) + r3;
    var r1 := Field(meth) + r2;
    assert |f[16..]| == |f| - 16;
    assert Body(path, meth, meta, payload) == Field(path) + r1;
    hide Field, Body;
    FieldAt(f, 16, path, r1);
    var a := 20 + |path|;
    FieldAt(f, a, meth, r2);
    var b := a + 4 + |meth|;
    FieldAt(f, b, meta, r3);
    var c := b + 4 + |meta|;
    FieldAt(f, c, payload, []);
    assert f[c + 4..c + 4 + |payload|] == f[c + 4..];
  }

  lemma FieldAt(f: Bytes, at: nat, b: Bytes, rest: Bytes)
    requires at <= |f| && f[at..] == Field(b) + rest && |b| < TWO32
    ensures at + 4 + |b| <= |f|
    ensures f[at..at + 4] == PutUint32(|b|) && f[at + 4..at + 4 + |b|] == b && f[at + 4 + |b|..] == rest
  {
    hide PutUint32;
    assert f[at..] == f[at..|f|];
    SliceParts(f, at, |f|, Field(b), rest);
    SliceParts(f, at, at + 4 + |b|, PutUint32(|b|), b);
  }

  // ------------------------------------------------------------------ round trip

  /** The message a receiver sees whose message object still held the metadata `kept`. */
  function Seen(m: Msg, kept: Option<Meta>): Msg {
    m.(metadata := if MetaOf(m.metadata) == map[] then kept else Some(MetaOf(m.metadata)))
  }

  /** The length of the body fits a uint32. */
  predicate Sized(f: Bytes) {
    |f| - 16 < TWO32
  }

  /** And the receiver's maximum, if one is set. */
  predicate Fits(max: int, f: Bytes) {
    Sized(f) && (max <= 0 || |f| - 16 <= max)
  }

  lemma FieldTaken(data: Bytes, n: nat, b: Bytes)
    requires |b| < TWO32 && n + 4 + |b| <= |data| && data[n..n + 4 + |b|] == Field(b)
    ensures TakeField(data, n) == Some((b, n + 4 + |b|))
    ensures Uint32(data[n..n + 4]) == |b|
  {
    hide PutUint32, Uint32;
    SliceParts(data, n, n + 4 + |b|, PutUint32(|b|), b);
    Uint32RoundTrip(|b|);
  }

  /** The pieces of a tail, where Decode looks for them. */
  lemma TailPieces(data: Bytes, n: nat, meta: Bytes, payload: Bytes)
    requires n <= |data| < TWO32 && data[n..] == Field(meta) + Field(payload)
    ensures var e := n + 4 + |meta|;
            && e + 4 <= |data| && Uint32(data[n..n + 4]) == |meta|
            && data[n + 4..] == meta + Field(payload) && data[e + 4..] == payload
  {
    hide PutUint32, Uint32;
    var e := n + 4 + |meta|;
    assert data[n..|data|] == data[n..];
    SliceParts(data, n, |data|, Field(meta), Field(payload));
    FieldTaken(data, n, meta);
    SliceParts(data, e, |data|, PutUint32(|payload|), payload);
    assert data[e + 4..] == data[e + 4..|data|];
    assert Field(meta) + Field(payload) == PutUint32(|meta|) + (meta + Field(payload));
    SliceParts(data, n, |data|, PutUint32(|meta|), meta + Field(payload));
    assert data[n + 4..] == data[n + 4..|data|];
  }

  lemma TailDecodes(m: Msg, data: Bytes, n: nat, ps: seq<Pair>, payload: Bytes)
    requires n <= |data| < TWO32 && data[n..] == Field(Records(ps)) + Field(payload)
    ensures DecodeTail(m, data, n) ==
            (Ok, m.(metadata := if Records(ps) == [] then m.metadata else Some(Store(map[], ps)),
                    payload := payload))
  {
    hide PutUint32, Uint32, Records, Parse, Field;
    var meta := Records(ps);
    TailPieces(data, n, meta, payload);
    if meta != [] {
      var tail := meta + Field(payload);
      assert tail[0..|meta|] == meta;
      ParseComplete(|meta|, tail, 0, map[], ps);
    }
  }

  /** Path and method lie where Decode looks for them. */
  lemma BodyStarts(path: Bytes, meth: Bytes, meta: Bytes, payload: Bytes)
    requires |Body(path, meth, meta, payload)| < TWO32
    ensures var data, n := Body(path, meth, meta, payload), 8 + |path| + |meth|;
            && n <= |data| && data[n..] == Field(meta) + Field(payload)
            && TakeField(data, 0) == Some((path, 4 + |path|)) && TakeField(data, 4 + |path|) == Some((meth, n))
  {
    BodyHolds(path, meth, meta, payload);
    hide PutUint32, Uint32, TakeField;
    var data := Body(path, meth, meta, payload);
    var r2 := Field(meta) + Field(payload);
    var r1 := Field(meth) + r2;
    assert data == Field(path) + r1;
    assert data[0..|data|] == data;
    hide Body, Field;
    SliceParts(data, 0, |data|, Field(path), r1);
    FieldTaken(data, 0, path);
    var n1 := 4 + |path|;
    SliceParts(data, n1, |data|, Field(meth), r2);
    FieldTaken(data, n1, meth);
    var n2 := n1 + 4 + |meth|;
    assert data[n2..] == data[n2..|data|];
  }

  /** Path and method are read; the metadata field may hold anything. */
  lemma BodyReachesTail(m: Msg, path: Bytes, meth: Bytes, meta: Bytes, payload: Bytes)
    requires |Body(path, meth, meta, payload)| < TWO32
    ensures var data, n := Body(path, meth, meta, payload), 8 + |path| + |meth|;
            && n <= |data| && data[n..] == Field(meta) + Field(payload)
            && DecodeBody(m, data) == DecodeTail(m.(servicePath := path, serviceMethod := meth), data, n)
  {
    hide Body, Field, DecodeTail, TakeField;
    BodyStarts(path, meth, meta, payload);
  }

  /** What the metadata field of an otherwise well-formed body decides. */
  lemma TailDecides(m: Msg, data: Bytes, n: nat, meta: Bytes, payload: Bytes)
    requires n <= |data| < TWO32 && data[n..] == Field(meta) + Field(payload) && meta != []
    ensures var parsed, d := Parse(|meta|, meta + Field(payload), 0, map[]), DecodeTail(m, data, n);
            && (parsed.Parsed? ==> d == (Ok, m.(metadata := Some(parsed.meta), payload := payload)))
            && (parsed.Missing? ==> d == (MetaMissing, m.(metadata := Some(parsed.meta))))
            && (parsed.Fault? ==> d == (Panic, m))
  {
    hide PutUint32, Uint32, Parse, Field, DecodeTail;
    TailPieces(data, n, meta, payload);
    TailByParse(m, data, n, |meta|, meta + Field(payload), payload);
  }

  lemma TailByParse(m: Msg, data: Bytes, n: nat, l: nat, tail: Bytes, payload: Bytes)
    requires 0 < l < TWO32 && n + 4 + l + 4 <= |data| && Uint32(data[n..n + 4]) == l
    requires data[n + 4..] == tail && data[n + 4 + l + 4..] == payload
    ensures var parsed, d := Parse(l, tail, 0, map[]), DecodeTail(m, data, n);
            && (parsed.Parsed? ==> d == (Ok, m.(metadata := Some(parsed.meta), payload := payload)))
            && (parsed.Missing? ==> d == (MetaMissing, m.(metadata := Some(parsed.meta))))
            && (parsed.Fault? ==> d == (Panic, m))
  {
    hide Uint32, Parse;
  }

  /**
    A body whose metadata field holds arbitrary bytes decodes exactly when these are whole records;
    otherwise path and method are read, and the error is the one decodeMetadata stops with.
  */
  lemma MetadataDecides(m: Msg, path: Bytes, meth: Bytes, meta: Bytes, payload: Bytes)
    requires |Body(path, meth, meta, payload)| < TWO32 && meta != []
    ensures var d := DecodeBody(m, Body(path, meth, meta, payload));
            && (d.0 == Ok <==> exists ps :: meta == Records(ps))
            && d.0 in {Ok, MetaMissing, Panic}
            && d.1.servicePath == path && d.1.serviceMethod == meth
  {
    hide PutUint32, Uint32, Parse, Records, DecodeBody, DecodeTail, Field;
    var data, n := Body(path, meth, meta, payload), 8 + |path| + |meth|;
    var tail := meta + Field(payload);
    BodyReachesTail(m, path, meth, meta, payload);
    BodyHolds(path, meth, meta, payload);
    TailDecides(m.(servicePath := path, serviceMethod := meth), data, n, meta, payload);
    AcceptsExactlyRecords(|meta|, tail);
    assert tail[..|meta|] == meta;
  }

  lemma BodyHolds(path: Bytes, meth: Bytes, meta: Bytes, payload: Bytes)
    ensures |Body(path, meth, meta, payload)| == 16 + |path| + |meth| + |meta| + |payload|
  {
    hide PutUint32;
  }

  lemma BodyDecodes(m: Msg, path: Bytes, meth: Bytes, ps: seq<Pair>, payload: Bytes)
    requires |Body(path, meth, Records(ps), payload)| < TWO32
    ensures DecodeBody(m, Body(path, meth, Records(ps), payload)) ==
            (Ok, m.(servicePath := path, serviceMethod := meth, payload := payload,
                    metadata := if Records(ps) == [] then m.metadata else Some(Store(map[], ps))))
  {
    hide PutUint32, Uint32, Records, DecodeTail, DecodeBody, Body;
    BodyReachesTail(m, path, meth, Records(ps), payload);
    var data := Body(path, meth, Records(ps), payload);
    TailDecodes(m.(servicePath := path, serviceMethod := meth), data, 8 + |path| + |meth|, ps, payload);
  }

  lemma RecordsEmpty(ps: seq<Pair>)
    ensures Records(ps) == [] <==> ps == []
  {
    if ps != [] { RecordsFirst(ps); }
  }

  lemma EmptyOrder(ps: seq<Pair>, m: Meta)
    requires Enumerates(ps, m)
    ensures Records(ps) == [] <==> m == map[]
  {
    RecordsEmpty(ps);
  }

  /** The header and the length split off; what remains depends on the declared length only. */
  lemma FrameSplits(h: Header, body: Bytes, tail: Bytes)
    ensures var input := Frame(h, body) + tail;
            && |input| >= 16
            && input[..12] == h
            && input[12..][..4] == PutUint32(U32(|body|))
            && input[12..][4..] == body + tail
  {
    hide PutUint32;
    var input := Frame(h, body) + tail;
    assert input == h + (PutUint32(U32(|body|)) + (body + tail));
  }

  /**
    Round trip. Whatever follows on the stream, whatever iteration order encodeMetadata met and
    whatever the receiving message held before: Decode consumes exactly the frame and succeeds if
    and only if the frame fits, and it then gives back the message, except that a message without
    metadata leaves the receiver's old metadata in place. A frame beyond the receiver's maximum
    is refused as too long.
  */
  lemma RoundTrip(max: int, m: Msg, f: Bytes, prev: Msg, tail: Bytes)
    requires IsEncoding(m, f)
    ensures Fits(max, f) ==> Decode(max, prev, f + tail) == Decoded(Ok, Seen(m, prev.metadata), tail)
    ensures var d := Decode(max, prev, f + tail); d.outcome == Ok && d.rest == tail <==> Fits(max, f)
    ensures Sized(f) ==> (Decode(max, prev, f + tail).outcome == TooLong <==> max > 0 && |f| - 16 > max)
  {
    hide PutUint32, Uint32, Records, DecodeBody;
    var ps :| Enumerates(ps, MetaOf(m.metadata)) && f == FrameOf(m, ps);
    var body := Body(m.servicePath, m.serviceMethod, Records(ps), m.payload);
    FrameSplits(m.header, body, tail);
    Uint32RoundTrip(U32(|body|));
    EmptyOrder(ps, MetaOf(m.metadata));
    if Fits(max, f) {
      assert (body + tail)[..|body|] == body && (body + tail)[|body|..] == tail;
      BodyDecodes(prev.(header := m.header), m.servicePath, m.serviceMethod, ps, m.payload);
    }
  }

  /** The round trip part by part. */
  lemma PartsComeBack(max: int, m: Msg, f: Bytes, prev: Msg, tail: Bytes)
    requires IsEncoding(m, f) && Fits(max, f)
    ensures var d := Decode(max, prev, f + tail).msg;
            && d.header == m.header && d.servicePath == m.servicePath && d.serviceMethod == m.serviceMethod
            && d.payload == m.payload
            && (MetaOf(m.metadata) != map[] ==> d.metadata == Some(MetaOf(m.metadata)))
            && (MetaOf(m.metadata) == map[] ==> d.metadata == prev.metadata)
  {
    RoundTrip(max, m, f, prev, tail);
    hide Decode, IsEncoding;
  }

  /**
    A frame that breaks off: Decode reads what there is and reports an unexpected end, except where
    the break lies exactly before the length or before the body, which it cannot tell from a
    regular end of the stream.
  */
  lemma TruncatedFrame(max: int, m: Msg, f: Bytes, prev: Msg, k: nat)
    requires IsEncoding(m, f) && Fits(max, f) && k < |f|
    ensures var d := Decode(max, prev, f[..k]);
            && d.rest == []
            && d.outcome == if k == 0 || k == 12 || k == 16 then Eof else UnexpectedEof
  {
    hide PutUint32, Uint32, Records, DecodeBody;
    var ps :| Enumerates(ps, MetaOf(m.metadata)) && f == FrameOf(m, ps);
    var body := Body(m.servicePath, m.serviceMethod, Records(ps), m.payload);
    FrameSplits(m.header, body, []);
    assert f + [] == f;
    Uint32RoundTrip(|body|);
    if k >= 16 {
      assert f[..k][12..][..4] == f[12..][..4];
      assert |f[..k][12..][4..]| == k - 16 < |body|;
    }
  }
}
