/** What the server does with one request (server/server.go:248-288 and 333-404). */
module Server {
  import opened Wrappers
  import opened Bytes
  import H = Header
  import opened Metadata
  import W = Wire
  import opened Messages
  import opened Pool

  /** How handling ends once service, method and codec were found. */
  datatype Execution =
    | BadArguments(error: Bytes)   // codec.Decode failed
    | CallFailed(error: Bytes)     // the method returned an error or panicked
    | BadReply(error: Bytes)       // codec.Encode failed
    | Replied(data: Bytes)

  /** What running a method does: how handling ends, and the metadata left in the context. */
  datatype Effect = Effect(x: Execution, extra: Meta)

  /**
    The registered services with their methods, the texts of the three lookup errors, and the
    metadata key under which an error text travels. Codec and method are opaque: execute gives
    the effect of handling a request, which may differ from one run of the method to the next.
  */
  datatype Registry = Registry(
    services: map<Bytes, set<Bytes>>,
    noService: Bytes -> Bytes, noMethod: Bytes -> Bytes, noCodec: bv8 -> Bytes,
    errorKey: Bytes,
    execute: (Msg, nat) -> Effect)

  /** core.Codecs: JSON, ProtoBuffer and MsgPack. */
  predicate HasCodec(serialize: bv8) {
    serialize <= 2
  }

  /** The error of handleRequest, if any, in the order in which it looks. */
  function ErrorOf(g: Registry, req: Msg, x: Execution): Option<Bytes> {
    if req.servicePath !in g.services then Some(g.noService(req.servicePath))
    else if req.serviceMethod !in g.services[req.servicePath] then Some(g.noMethod(req.serviceMethod))
    else if !HasCodec(H.SerializeType(req.header)) then Some(g.noCodec(H.SerializeType(req.header)))
    else if x.Replied? then None
    else Some(x.error)
  }

  /** The service, the method and the codec exist, and running the method gives a reply. */
  predicate Succeeds(g: Registry, req: Msg, x: Execution) {
    && req.servicePath in g.services && req.serviceMethod in g.services[req.servicePath]
    && H.SerializeType(req.header) in {0, 1, 2} && x.Replied?
  }

  function Handled(g: Registry, req: Msg, x: Execution): Msg {
    var res := Copied(req).(header := H.SetMessageType(req.header, H.RESPONSE));
    match ErrorOf(g, req, x)
    case Some(e) => res.(header := H.SetStatusType(res.header, H.ERROR), metadata := Some(map[g.errorKey := e]))
    case None => if x.Replied? then res.(payload := x.data) else res
  }

  /** Metadata the method left in its context is added to the response. */
  function WithMeta(res: Msg, extra: Meta): Msg {
    if extra == map[] then res
    else if res.metadata == None then res.(metadata := Some(extra))
    else res.(metadata := Some(res.metadata.value + extra))
  }

  function Echo(req: Msg): Msg {
    req.(header := H.SetMessageType(req.header, H.RESPONSE))
  }

  /** The message written for a request, if one is. */
  function Answer(g: Registry, req: Msg, x: Execution, extra: Meta): Option<Msg> {
    if H.IsHeartbeat(req.header) then Some(Echo(req))
    else if H.IsOneway(req.header) then None
    else Some(WithMeta(Handled(g, req, x), extra))
  }

  /** The message written for a request by the goroutine numbered run, if one is. */
  function Served(g: Registry, req: Msg, run: nat): Option<Msg> {
    var e := g.execute(req, run);
    Answer(g, req, e.x, e.extra)
  }

  /**
    An answer is a response, carries the number, flags and codec of its request, and its status is
    that of the request with the error bit added exactly when handling failed: when the service,
    the method or the codec does not exist or running the method gives no reply. A request of
    normal status is therefore answered with error status if and only if handling failed.
  */
  lemma AnswerHeader(g: Registry, req: Msg, x: Execution, extra: Meta)
    requires Answer(g, req, x, extra).Some?
    ensures var r, q := H.Read(Answer(g, req, x, extra).value.header), H.Read(req.header);
            && r == q.(kind := H.RESPONSE, status := r.status)
            && (q.heartbeat ==> r.status == q.status)
            && (!q.heartbeat ==>
                  r.status == if Succeeds(g, req, x) then q.status else q.status | H.ERROR)
            && (!q.heartbeat && q.status == H.NORMAL ==> (r.status == H.ERROR <==> !Succeeds(g, req, x)))
  {
    AnswerSetters(g, req, x, extra);
    hide Answer, Succeeds, H.SetMessageType, H.SetStatusType;
    H.SetMessageTypeReads(req.header, H.RESPONSE);
    H.SetStatusTypeReads(H.SetMessageType(req.header, H.RESPONSE), H.ERROR);
    H.FieldsFit(req.header);
    assert H.MessageType(req.header) | (H.RESPONSE & 1) == H.RESPONSE by {
      OneBit(H.MessageType(req.header));
    }
  }

  lemma OneBit(k: bv8)
    requires k & 1 == k
    ensures k | 1 == 1
  {
  }

  /** Which error handling ends with, in the order of the checks. */
  lemma ErrorCases(g: Registry, req: Msg, x: Execution)
    ensures var path, meth, codec := req.servicePath, req.serviceMethod, H.SerializeType(req.header);
            && (Succeeds(g, req, x) <==> ErrorOf(g, req, x) == None)
            && (path !in g.services ==> ErrorOf(g, req, x) == Some(g.noService(path)))
            && (path in g.services ==>
                  && (meth !in g.services[path] ==> ErrorOf(g, req, x) == Some(g.noMethod(meth)))
                  && (meth in g.services[path] ==>
                        && (codec !in {0, 1, 2} ==> ErrorOf(g, req, x) == Some(g.noCodec(codec)))
                        && (codec in {0, 1, 2} && !x.Replied? ==> ErrorOf(g, req, x) == Some(x.error))))
  {
  }

  /** What an answer carries besides its header. */
  lemma AnswerContents(g: Registry, req: Msg, x: Execution, extra: Meta)
    requires Answer(g, req, x, extra).Some?
    ensures var r := Answer(g, req, x, extra).value;
            && r.servicePath == req.servicePath && r.serviceMethod == req.serviceMethod
            && (H.IsHeartbeat(req.header) ==> r.metadata == req.metadata && r.payload == req.payload)
            && (!H.IsHeartbeat(req.header) && Succeeds(g, req, x) ==>
                  && r.payload == x.data
                  && r.metadata == if extra == map[] then None else Some(extra))
            && (!H.IsHeartbeat(req.header) && !Succeeds(g, req, x) ==>
                  && r.payload == [] && ErrorOf(g, req, x).Some?
                  && r.metadata == Some(map[g.errorKey := ErrorOf(g, req, x).value] + extra))
  {
    var m: Meta := map[g.errorKey := if ErrorOf(g, req, x).Some? then ErrorOf(g, req, x).value else []];
    assert m + map[] == m;
    hide H.SetMessageType, H.SetStatusType;
  }

  lemma AnswerSetters(g: Registry, req: Msg, x: Execution, extra: Meta)
    requires Answer(g, req, x, extra).Some?
    ensures var h := H.SetMessageType(req.header, H.RESPONSE);
            Answer(g, req, x, extra).value.header
            == if H.IsHeartbeat(req.header) || Succeeds(g, req, x) then h else H.SetStatusType(h, H.ERROR)
  {
    hide H.SetMessageType, H.SetStatusType;
  }

  /** The bytes of an answer's header: those of the request with the response and the error bit. */
  lemma AnswerBytes(g: Registry, req: Msg, x: Execution, extra: Meta)
    requires Answer(g, req, x, extra).Some?
    ensures var r, q := Answer(g, req, x, extra).value.header, req.header;
            && r[2] == q[2] | 0x80 | (if H.IsHeartbeat(q) || Succeeds(g, req, x) then 0 else 0x01)
            && forall i :: 0 <= i < 12 && i != 2 ==> r[i] == q[i]
  {
    AnswerSetters(g, req, x, extra);
    ResponseBits(req.header[2]);
    hide Answer, Succeeds, H.IsHeartbeat;
  }

  lemma ResponseBits(b: bv8)
    ensures b | (H.RESPONSE << 7) == b | 0x80 && b | 0x80 | 0 == b | 0x80
    ensures b | 0x80 | (H.ERROR & 0x03) == b | 0x80 | 0x01
  {
  }

  /** The error text reaches the caller unless the method's own metadata uses the reserved key. */
  lemma ErrorTextTravels(g: Registry, req: Msg, x: Execution, extra: Meta)
    requires !H.IsHeartbeat(req.header) && !H.IsOneway(req.header) && ErrorOf(g, req, x).Some?
    ensures var r := Answer(g, req, x, extra).value;
            && r.metadata.Some? && g.errorKey in r.metadata.value
            && (r.metadata.value[g.errorKey] == ErrorOf(g, req, x).value
                <==> g.errorKey !in extra || extra[g.errorKey] == ErrorOf(g, req, x).value)
  {
  }

  // ------------------------------------------------------------- the handler goroutine

  method HandleRequest(pool: MessagePool, g: Registry, req: Message, x: Execution)
    returns (res: Message, err: Option<Bytes>)
    requires pool.Valid() && req.Valid() && pool.Outside(req)
    modifies pool.Footprint()
    ensures pool.Valid() && pool.free <= old(pool.free)
    ensures res.Valid() && res.Value() == Handled(g, old(req.Value()), x)
    ensures err == ErrorOf(g, old(req.Value()), x)
    // the checks in their order
    ensures old(req.servicePath) !in g.services ==> err == Some(g.noService(old(req.servicePath)))
    ensures old(req.servicePath) in g.services && old(req.serviceMethod) !in g.services[old(req.servicePath)] ==>
              err == Some(g.noMethod(old(req.serviceMethod)))
    ensures old(req.servicePath) in g.services && old(req.serviceMethod) in g.services[old(req.servicePath)] ==>
              var codec := H.SerializeType(old(req.header[..]));
              && (codec !in {0, 1, 2} ==> err == Some(g.noCodec(codec)))
              && (codec in {0, 1, 2} && !x.Replied? ==> err == Some(x.error))
              && (codec in {0, 1, 2} && x.Replied? ==>
                    && err == None && res.payload == x.data && res.metadata == None
                    && H.StatusType(res.header[..]) == H.StatusType(old(req.header[..])))
    ensures pool.Outside(res) && fresh(res.header) && (res in old(pool.free) || fresh(res))
    ensures pool.Outside(req) && res != req && req.Valid() && req.header == old(req.header)
    ensures req.Value() == old(req.Value())
  {
    hide Handled;
    res := pool.Copy(req);
    err := Fill(g, res, x);
    assert Handled(g, Copied(old(req.Value())), x) == Handled(g, old(req.Value()), x) by {
      HandledByCopy(g, old(req.Value()), x);
    }
    ErrorCases(g, old(req.Value()), x);
    if Succeeds(g, old(req.Value()), x) { HandledWell(g, old(req.Value()), x); }
    hide ErrorOf;
  }

  /** A call that succeeds keeps the status of its request and carries the reply. */
  lemma HandledWell(g: Registry, req: Msg, x: Execution)
    requires Succeeds(g, req, x)
    ensures var r := Handled(g, req, x);
            r.payload == x.data && r.metadata == None && H.StatusType(r.header) == H.StatusType(req.header)
  {
    H.SetMessageTypeReads(req.header, H.RESPONSE);
    assert H.Read(Handled(g, req, x).header).status == H.Read(req.header).status;
  }

  /** Handling looks at nothing of the request but what Copy keeps, and the payload the codec read. */
  lemma HandledByCopy(g: Registry, req: Msg, x: Execution)
    ensures Handled(g, Copied(req), x) == Handled(g, req, x)
    ensures ErrorOf(g, Copied(req), x) == ErrorOf(g, req, x)
  {
  }

  /** handleRequest from line 336 on, on the copied response. */
  method Fill(g: Registry, res: Message, x: Execution) returns (err: Option<Bytes>)
    requires res.Valid() && Copied(res.Value()) == res.Value()
    modifies res, res.header
    ensures res.Valid() && res.header == old(res.header)
    ensures res.Value() == Handled(g, old(res.Value()), x)
    ensures err == ErrorOf(g, old(res.Value()), x)
    ensures err == None <==> Succeeds(g, old(res.Value()), x)
  {
    hide H.SetMessageType, H.SetStatusType;
    var serialize := H.SerializeType(res.header[..]);
    res.SetMessageType(H.RESPONSE);
    if res.servicePath !in g.services {
      err := Some(g.noService(res.servicePath));
    } else if res.serviceMethod !in g.services[res.servicePath] {
      err := Some(g.noMethod(res.serviceMethod));
    } else if !HasCodec(serialize) {
      err := Some(g.noCodec(serialize));
    } else if x.Replied? {
      err := None;
      res.payload := x.data;
    } else {
      err := Some(x.error);
    }
    if err != None {
      HandleError(res, g.errorKey, err.value);
    }
  }

  method HandleError(res: Message, key: Bytes, text: Bytes)
    requires res.Valid()
    modifies res, res.header
    ensures res.Valid() && res.header == old(res.header)
    ensures res.Value() == old(res.Value()).(
              header := H.SetStatusType(old(res.header[..]), H.ERROR),
              metadata := Some(W.MetaOf(old(res.metadata))[key := text]))
  {
    res.SetStatusType(H.ERROR);
    if res.metadata == None {
      res.metadata := Some(map[]);
    }
    res.metadata := Some(res.metadata.value[key := text]);
  }

  /**
    The whole goroutine started for one request: what it writes to the connection, if anything.
    The message of a heartbeat is not given back to the pool.
  */
  method Serve(pool: MessagePool, g: Registry, req: Message, x: Execution, extra: Meta)
    returns (written: Option<Bytes>)
    requires pool.Valid() && req.Valid() && pool.Outside(req)
    modifies pool.Footprint(), req, req.header
    ensures pool.Valid()
    ensures req in pool.free <==> !H.IsHeartbeat(old(req.header[..]))
    ensures written.Some? <==> Answer(g, old(req.Value()), x, extra).Some?
    ensures written.Some? ==> W.IsEncoding(Answer(g, old(req.Value()), x, extra).value, written.value)
  {
    hide W.IsEncoding, Handled, H.SetMessageType;
    if H.IsHeartbeat(req.header[..]) {
      req.SetMessageType(H.RESPONSE);
      var data := req.Encode();
      return Some(data[..]);
    }
    written := ServeCall(pool, g, req, x, extra);
  }

  /** The goroutine past the heartbeat, lines 256-287. */
  method ServeCall(pool: MessagePool, g: Registry, req: Message, x: Execution, extra: Meta)
    returns (written: Option<Bytes>)
    requires pool.Valid() && req.Valid() && pool.Outside(req) && !H.IsHeartbeat(req.header[..])
    modifies pool.Footprint(), req, req.header
    ensures pool.Valid() && req in pool.free
    ensures written.Some? <==> Answer(g, old(req.Value()), x, extra).Some?
    ensures written.Some? ==> W.IsEncoding(Answer(g, old(req.Value()), x, extra).value, written.value)
  {
    hide W.IsEncoding, Handled, H.IsOneway, H.IsHeartbeat;
    var res, err := HandleRequest(pool, g, req, x);
    written := None;
    if !H.IsOneway(req.header[..]) {
      AddMeta(res, extra);
      var data := res.Encode();
      written := Some(data[..]);
    }
    Release(pool, req, res);
  }

  method Release(pool: MessagePool, req: Message, res: Message)
    requires pool.Valid() && req.Valid() && res.Valid()
    requires pool.Outside(req) && pool.Outside(res) && req != res && req.header != res.header
    modifies pool, req, req.header, res, res.header
    ensures pool.Valid() && pool.free == old(pool.free) + {req, res}
  {
    pool.FreeMsg(req);
    pool.FreeMsg(res);
  }

  method AddMeta(res: Message, extra: Meta)
    requires res.Valid()
    modifies res
    ensures res.Valid() && res.header == old(res.header)
    ensures res.Value() == WithMeta(old(res.Value()), extra)
  {
    if extra != map[] {
      if res.metadata == None {
        res.metadata := Some(extra);
      } else {
        res.metadata := Some(res.metadata.value + extra);
      }
    }
  }
}
