/** Every reply reaches the call it answers: the byte streams and the server in every run. */
module RpcReplies {
  import opened Bytes
  import opened Integers
  import opened Rpc
  import opened RpcCalls
  import opened Wrappers

  import H = Header
  import Messages
  import Pool
  import Server
  import Serving
  import Stream
  import Wire

  type Msg = Wire.Msg

  // ------------------------------------------------------------ what is on its way

  /** m is the request of call k under its number, with all that the call carries. */
  predicate IsRequestOf(g: Config, k: CallState, m: Msg) {
    k.seqNo.Some? && Pool.IsRequest(k.call, g.options, k.seqNo.value, m)
  }

  predicate WasSent(s: State, c: CallId) {
    c < |s.client.calls| && s.client.calls[c].request.Some?
  }

  predicate Asked(s: State, c: CallId, m: Msg) {
    c < |s.client.calls| && s.client.calls[c].request == Some(m)
  }

  /** The goroutine numbered j works on the request of the call whose frame was read j-th. */
  predicate Received(s: State, j: nat) {
    && j < |s.senders| && j < |s.work.read| && WasSent(s, s.senders[j])
    && s.work.read[j] == Wire.Seen(s.client.calls[s.senders[j]].request.value, None)
  }

  /** a is what the goroutine numbered run writes for the request it works on. */
  predicate Answers(g: Config, s: State, run: nat, a: Msg) {
    run < |s.work.read| && Server.Served(g.registry, s.work.read[run], run) == Some(a)
  }

  /** r is that message as the client's reader decodes it. */
  predicate Replies(g: Config, s: State, run: nat, r: Msg) {
    && run < |s.work.read|
    && var a := Server.Served(g.registry, s.work.read[run], run);
       a.Some? && r == Wire.Seen(a.value, None)
  }

  /** The reply of goroutine run, delivered to the call whose request it worked on. */
  predicate Matches(g: Config, s: State, c: CallId, run: nat, r: Msg) {
    run < |s.senders| && s.senders[run] == c && Replies(g, s, run, r)
  }

  function BytesOf(log: seq<Frame>): (bs: seq<Bytes>)
    ensures |bs| == |log|
  {
    seq(|log|, i requires 0 <= i < |log| => log[i].bytes)
  }

  /** A stream is exactly the frames under way. */
  ghost predicate Carries(stream: Bytes, log: seq<Frame>) {
    && stream == Concat(BytesOf(log))
    && forall i :: 0 <= i < |log| ==> OnWire(log[i].msg, log[i].bytes)
  }

  predicate Requests(g: Config, s: State) {
    forall c :: 0 <= c < |s.client.calls| ==>
      var k := s.client.calls[c];
      && (k.seqNo.Some? ==> Server.HasCodec(g.options.serialize))
      && (k.request.Some? ==> IsRequestOf(g, k, k.request.value))
  }

  ghost predicate Upward(s: State) {
    && Carries(s.up, s.upLog)
    && (forall i :: 0 <= i < |s.upLog| ==> Asked(s, s.upLog[i].tag, s.upLog[i].msg))
    && |s.senders| == |s.work.read|
    && (forall j :: 0 <= j < |s.senders| ==> Received(s, j))
  }

  ghost predicate Downward(g: Config, s: State) {
    && Carries(s.down, s.downLog)
    && (forall i :: 0 <= i < |s.downLog| ==> Answers(g, s, s.downLog[i].tag, s.downLog[i].msg))
    && (s.reader.Holding? ==> Matches(g, s, s.reader.call, s.reader.run, s.reader.reply))
    && (!s.reader.Holding? ==> s.res.metadata == None)
    && (forall i :: 0 <= i < |s.completed| ==>
          Matches(g, s, s.completed[i].call, s.completed[i].run, s.completed[i].reply))
  }

  ghost predicate Wires(g: Config, s: State) {
    Requests(g, s) && Upward(s) && Downward(g, s)
  }

  // --------------------------------------------------------------- what every event keeps

  /** Requests once written, and requests once read, stay as they are. */
  predicate Keeps(s: State, t: State) {
    && |s.client.calls| <= |t.client.calls|
    && (forall c :: 0 <= c < |s.client.calls| && s.client.calls[c].request.Some? ==>
          var k, l := s.client.calls[c], t.client.calls[c];
          l.request == k.request && l.seqNo == k.seqNo && l.call == k.call)
    && s.senders <= t.senders && s.work.read <= t.work.read
  }

  /** Of the server's books only these two lists matter here; they only grow. */
  lemma ServerKeeps(g: Config, s: State, e: Event)
    requires Enabled(g, s, e)
    ensures s.senders <= Apply(g, s, e).senders && s.work.read <= Apply(g, s, e).work.read
  {
    hide Wire.Decode, OnWire, Server.Served, DoneAll;
  }

  lemma EveryEventKeeps(g: Config, s: State, e: Event)
    requires Core(s) && Enabled(g, s, e) && Apply(g, s, e).issued <= TWO64
    ensures Keeps(s, Apply(g, s, e))
  {
    if e.Issue? {
      IssueLaws(g, s, e, 0);
      var n := |s.client.calls|;
      assert forall c :: 0 <= c < n ==> Apply(g, s, e).client.calls[..n][c] == s.client.calls[c];
    } else if e.Register? {
      assert Apply(g, s, e) == Registering(s, e.c);
    } else {
      EventLaws(g, s, e, 0);
      assert forall c :: 0 <= c < |s.client.calls| ==> Grown(s.client.calls[c], Apply(g, s, e).client.calls[c]);
    }
    hide Enabled, Apply;
    ServerKeeps(g, s, e);
  }

  lemma KeptAsked(s: State, t: State, c: CallId, m: Msg)
    requires Keeps(s, t) && Asked(s, c, m)
    ensures Asked(t, c, m)
  {
  }

  lemma KeptReceived(s: State, t: State, j: nat)
    requires Keeps(s, t) && Received(s, j)
    ensures Received(t, j)
  {
    assert t.senders[j] == s.senders[j] && t.work.read[j] == s.work.read[j];
  }

  lemma KeptMatches(g: Config, s: State, t: State, c: CallId, run: nat, r: Msg)
    requires Keeps(s, t)
    ensures Answers(g, s, run, r) ==> Answers(g, t, run, r)
    ensures Matches(g, s, c, run, r) ==> Matches(g, t, c, run, r)
  {
    hide Server.Served;
    assert run < |s.work.read| ==> t.work.read[run] == s.work.read[run];
    assert run < |s.senders| ==> t.senders[run] == s.senders[run];
  }

  lemma AllKept(g: Config, s: State, t: State)
    requires Keeps(s, t)
    ensures forall run: nat, r :: Answers(g, s, run, r) ==> Answers(g, t, run, r)
    ensures forall c: CallId, run: nat, r :: Matches(g, s, c, run, r) ==> Matches(g, t, c, run, r)
  {
    hide Answers, Matches;
    forall run: nat, r ensures Answers(g, s, run, r) ==> Answers(g, t, run, r) {
      KeptMatches(g, s, t, 0, run, r);
    }
    forall c: CallId, run: nat, r ensures Matches(g, s, c, run, r) ==> Matches(g, t, c, run, r) {
      KeptMatches(g, s, t, c, run, r);
    }
  }

  lemma KeptUpward(s: State, t: State)
    requires Upward(s) && Keeps(s, t) && t.up == s.up && t.upLog == s.upLog
    requires t.senders == s.senders && t.work.read == s.work.read
    ensures Upward(t)
  {
    hide Carries, Asked, Received;
    forall i | 0 <= i < |s.upLog| ensures Asked(t, s.upLog[i].tag, s.upLog[i].msg) {
      KeptAsked(s, t, s.upLog[i].tag, s.upLog[i].msg);
    }
    forall j | 0 <= j < |s.senders| ensures Received(t, j) { KeptReceived(s, t, j); }
  }

  lemma KeptDownward(g: Config, s: State, t: State)
    requires Downward(g, s) && Keeps(s, t) && t.down == s.down && t.downLog == s.downLog
    requires t.completed == s.completed && t.res == s.res
    requires t.reader == s.reader || (!s.reader.Holding? && !t.reader.Holding?)
    ensures Downward(g, t)
  {
    hide Carries, Answers, Matches;
    AllKept(g, s, t);
  }

  // ------------------------------------------------------------------ the streams

  lemma CarriesMore(stream: Bytes, log: seq<Frame>, f: Frame)
    requires Carries(stream, log) && OnWire(f.msg, f.bytes)
    ensures Carries(stream + f.bytes, log + [f])
  {
    hide OnWire;
    ConcatAppend(BytesOf(log), f.bytes);
    assert BytesOf(log + [f]) == BytesOf(log) + [f.bytes];
  }

  /** A stream splits into its first frame and the others. */
  lemma CarriesRest(stream: Bytes, log: seq<Frame>) returns (tail: Bytes)
    requires Carries(stream, log) && log != []
    ensures stream == log[0].bytes + tail && Carries(tail, log[1..]) && OnWire(log[0].msg, log[0].bytes)
  {
    hide OnWire;
    tail := Concat(BytesOf(log[1..]));
    assert BytesOf(log)[1..] == BytesOf(log[1..]);
  }

  /**
    Decoding a stream into a message without metadata yields its first frame, refuses it as too
    long, or finds the stream empty.
  */
  lemma DecodesFirst(max: int, stream: Bytes, log: seq<Frame>, prev: Msg)
    requires Carries(stream, log) && prev.metadata == None
    ensures var d := Wire.Decode(max, prev, stream);
            && (log == [] ==> d.outcome == Wire.Eof)
            && (log != [] && !Wire.Fits(max, log[0].bytes) ==> d.outcome == Wire.TooLong)
            && (log != [] && Wire.Fits(max, log[0].bytes) ==>
                  && d.outcome == Wire.Ok && d.msg == Wire.Seen(log[0].msg, None)
                  && Carries(d.rest, log[1..]))
  {
    hide Wire.Decode, Wire.IsEncoding, Wire.Seen;
    if log == [] {
      Stream.NothingLeft(max, prev);
    } else {
      hide Carries;
      var tail := CarriesRest(stream, log);
      Wire.RoundTrip(max, log[0].msg, log[0].bytes, prev, tail);
    }
  }

  // ---------------------------------------------------------------- event by event

  /** No request is recorded and no number given. */
  predicate SameRequests(s: State, t: State) {
    && |t.client.calls| == |s.client.calls|
    && forall c :: 0 <= c < |s.client.calls| ==>
         var k, l := s.client.calls[c], t.client.calls[c];
         l.request == k.request && l.seqNo == k.seqNo && l.call == k.call
  }

  lemma OneRecordSameRequests(s: State, t: State, b: CallId)
    requires b < |s.client.calls| == |t.client.calls|
    requires t.client.calls == s.client.calls[b := t.client.calls[b]]
    requires var k, l := s.client.calls[b], t.client.calls[b];
             l.request == k.request && l.seqNo == k.seqNo && l.call == k.call
    ensures SameRequests(s, t)
  {
  }

  lemma SendersSameRequests(g: Config, s: State, e: Event)
    requires e.Reject? || e.EncodeFail? || e.WriteNothing? || e.SelfSignal? || e.Collect?
             || e.TakeBack? || e.Signal?
    requires Enabled(g, s, e)
    ensures SameRequests(s, Apply(g, s, e))
  {
    hide SameRequests;
    OneRecordSameRequests(s, Apply(g, s, e), e.c);
  }

  lemma OthersSameRequests(g: Config, s: State, e: Event)
    requires e.Close? || e.Sweep? || e.Cancel? || e.MarkShutdown? || e.Evict? || e.ReaderFail? || e.ReaderSignal?
    requires Enabled(g, s, e)
    ensures SameRequests(s, Apply(g, s, e))
  {
  }

  lemma RequestsFollow(g: Config, s: State, t: State)
    requires Requests(g, s) && SameRequests(s, t)
    ensures Requests(g, t)
  {
    hide Server.HasCodec, Pool.IsRequest;
  }

  lemma NewcomersHaveNoRequest(g: Config, s: State, e: Event)
    requires Requests(g, s) && Core(s) && Enabled(g, s, e) && (e.Issue? || e.Register?)
    ensures Requests(g, Apply(g, s, e))
  {
    if e.Issue? {
      assert Apply(g, s, e) == Issued(s, e.call);
    } else {
      assert Server.HasCodec(g.options.serialize) && Apply(g, s, e) == Registering(s, e.c);
    }
    hide Enabled, Apply, Server.HasCodec, Pool.IsRequest;
  }

  lemma RequestsKept(g: Config, s: State, e: Event)
    requires Requests(g, s) && Core(s) && Enabled(g, s, e)
    requires !e.Write? && !e.ServerRead? && !e.ServerAnswer? && !e.ReaderTake?
    ensures Requests(g, Apply(g, s, e))
  {
    hide Enabled, Apply, Core, Requests, SameRequests;
    match e {
      case Issue(_) => NewcomersHaveNoRequest(g, s, e);
      case Register(_) => NewcomersHaveNoRequest(g, s, e);
      case Close => OthersSameRequests(g, s, e);
      case Sweep => OthersSameRequests(g, s, e);
      case Cancel(_) => OthersSameRequests(g, s, e);
      case MarkShutdown => OthersSameRequests(g, s, e);
      case Evict => OthersSameRequests(g, s, e);
      case ReaderFail => OthersSameRequests(g, s, e);
      case ReaderSignal => OthersSameRequests(g, s, e);
      case _ => SendersSameRequests(g, s, e);
    }
    if !e.Issue? && !e.Register? { RequestsFollow(g, s, Apply(g, s, e)); }
  }

  /** The message send writes for a registered call is the request of that call under its number. */
  lemma WrittenIsRequest(g: Config, s: State, c: CallId, base: Msg)
    requires Encodes(g, s, c) && Messages.Clean(base) && Server.HasCodec(g.options.serialize)
    requires s.client.calls[c].seqNo.Some? && s.client.calls[c].seqNo.value < TWO64
    ensures IsRequestOf(g, s.client.calls[c], RequestFor(g, s, c, base))
  {
    var k := s.client.calls[c];
    assert k.seqNo.value % TWO64 == k.seqNo.value;
    Pool.RequestReadsBack(base, k.seqNo.value, k.call, g.options);
    hide Pool.RequestOf, Messages.Clean, Pool.IsRequest;
  }

  lemma UpwardMore(s: State, t: State, f: Frame)
    requires Upward(s) && Keeps(s, t) && t.senders == s.senders && t.work == s.work
    requires t.up == s.up + f.bytes && t.upLog == s.upLog + [f]
    requires Asked(t, f.tag, f.msg) && OnWire(f.msg, f.bytes)
    ensures Upward(t)
  {
    CarriesMore(s.up, s.upLog, f);
    hide Carries, OnWire, Received;
    forall i | 0 <= i < |t.upLog| ensures Asked(t, t.upLog[i].tag, t.upLog[i].msg) {
      if i < |s.upLog| { KeptAsked(s, t, s.upLog[i].tag, s.upLog[i].msg); }
    }
    forall j | 0 <= j < |s.senders| ensures Received(t, j) { KeptReceived(s, t, j); }
  }

  lemma WriteKeepsWires(g: Config, s: State, e: Event)
    requires e.Write? && Core(s) && Wires(g, s) && InPhase(s, e.c, Registered)
    requires Encodes(g, s, e.c) && Messages.Clean(e.base) && OnWire(RequestFor(g, s, e.c, e.base), e.bytes)
    ensures Wires(g, WriteStep(g, s, e))
  {
    hide OnWire, RequestFor, Server.HasCodec, Upward, Downward, Encodes, Pool.IsRequest;
    var t, m := WriteStep(g, s, e), RequestFor(g, s, e.c, e.base);
    WrittenIsRequest(g, s, e.c, e.base);
    hide Core;
    UpwardMore(s, t, Frame(e.c, m, e.bytes));
    KeptDownward(g, s, t);
  }

  lemma UpwardLess(s: State, t: State)
    requires Upward(s) && t.client == s.client && s.upLog != []
    requires Carries(t.up, t.upLog) && t.upLog == s.upLog[1..]
    requires t.senders == s.senders + [s.upLog[0].tag]
    requires t.work.read == s.work.read + [Wire.Seen(s.upLog[0].msg, None)]
    ensures Upward(t)
  {
    hide Carries;
    assert Asked(s, s.upLog[0].tag, s.upLog[0].msg);
    forall j | 0 <= j < |t.senders| ensures Received(t, j) {
      if j < |s.senders| { assert Received(s, j); }
    }
  }

  lemma ServerReadKeepsWires(g: Config, s: State, base: Msg)
    requires Wires(g, s) && Messages.Clean(base) && Wire.Decode(g.serverMax, base, s.up).outcome == Wire.Ok
    ensures Wires(g, ReadStep(g, s, base))
  {
    hide Wire.Decode, Carries, Downward, Requests, Wire.Fits, Wire.Seen;
    DecodesFirst(g.serverMax, s.up, s.upLog, base);
    UpwardLess(s, ReadStep(g, s, base));
    KeptDownward(g, s, ReadStep(g, s, base));
    SameClientRequests(g, s, ReadStep(g, s, base));
  }

  lemma SameClientRequests(g: Config, s: State, t: State)
    requires Requests(g, s) && t.client.calls == s.client.calls
    ensures Requests(g, t)
  {
  }

  lemma DownwardMore(g: Config, s: State, t: State, f: Frame)
    requires Downward(g, s) && Keeps(s, t) && t.reader == s.reader
    requires t.res == s.res && t.completed == s.completed
    requires t.down == s.down + f.bytes && t.downLog == s.downLog + [f]
    requires Answers(g, t, f.tag, f.msg) && OnWire(f.msg, f.bytes)
    ensures Downward(g, t)
  {
    hide Carries, OnWire, Answers, Matches;
    CarriesMore(s.down, s.downLog, f);
    AllKept(g, s, t);
  }

  lemma ServerAnswerKeepsWires(g: Config, s: State, e: Event)
    requires e.ServerAnswer? && Wires(g, s) && e.i < |s.work.open| && s.work.open[e.i] < |s.work.read|
    requires AnswerOf(g, s, e.i).Some? ==> OnWire(AnswerOf(g, s, e.i).value, e.bytes)
    ensures Wires(g, AnswerStep(g, s, e))
  {
    hide Server.Served, Downward, OnWire, Carries, Upward, Requests;
    var t, a := AnswerStep(g, s, e), AnswerOf(g, s, e.i);
    KeptUpward(s, t);
    SameClientRequests(g, s, t);
    if a.Some? && !e.lost {
      DownwardMore(g, s, t, Frame(s.work.open[e.i], a.value, e.bytes));
    } else {
      KeptDownward(g, s, t);
    }
  }

  /** The number of a reply is the number of the call whose request was answered. */
  lemma ReplyNumber(g: Config, s: State, run: nat)
    requires Requests(g, s) && Received(s, run) && Server.Served(g.registry, s.work.read[run], run).Some?
    ensures var a := Server.Served(g.registry, s.work.read[run], run).value;
            && s.client.calls[s.senders[run]].seqNo == Some(H.Seq(a.header))
            && H.MessageType(a.header) == H.RESPONSE
  {
    Serving.ServedNumber(g.registry, s.work.read[run], run);
    var k := s.client.calls[s.senders[run]];
    assert IsRequestOf(g, k, k.request.value);
    hide Server.Served;
  }

  /** The number of a reply finds the call it answers and no other. */
  lemma TakeFindsItsCall(g: Config, s: State, goOn: bool)
    requires Core(s) && Wires(g, s) && s.reader == Reading
    requires Wire.Decode(g.clientMax, s.res, s.down).outcome == Wire.Ok
    ensures var d, t := Wire.Decode(g.clientMax, s.res, s.down), TakeStep(g, s, goOn);
            && s.downLog != [] && d.msg == Wire.Seen(s.downLog[0].msg, None)
            && Carries(d.rest, s.downLog[1..])
            && !Stream.IsPush(d.msg.header)
            && s.downLog[0].tag < |s.senders|
            && (t.reader != Reading ==>
                  t.reader == Holding(s.senders[s.downLog[0].tag], s.downLog[0].tag, d.msg, goOn))
  {
    hide Wire.Decode, Carries, Server.Served, Requests, Wire.Fits;
    DecodesFirst(g.clientMax, s.down, s.downLog, s.res);
    var run, a := s.downLog[0].tag, s.downLog[0].msg;
    assert Answers(g, s, run, a);
    assert Received(s, run);
    ReplyNumber(g, s, run);
    assert Wire.Seen(a, None).header == a.header;
    hide Wire.Seen, H.Seq;
  }

  lemma ReaderTakeKeepsWires(g: Config, s: State, goOn: bool)
    requires Core(s) && Wires(g, s) && s.reader == Reading
    requires Wire.Decode(g.clientMax, s.res, s.down).outcome == Wire.Ok
    ensures Wires(g, TakeStep(g, s, goOn))
  {
    hide Wire.Decode, Carries, Server.Served, Stream.IsPush, Core, Requests, Wire.Seen;
    TakeFindsItsCall(g, s, goOn);
    var t := TakeStep(g, s, goOn);
    KeptUpward(s, t);
    SameClientRequests(g, s, t);
    hide Upward;
    var run, a := s.downLog[0].tag, s.downLog[0].msg;
    assert Answers(g, s, run, a);
    assert Matches(g, s, s.senders[run], run, Wire.Seen(a, None));
    AllKept(g, s, t);
    hide Answers, Matches;
  }

  lemma ReaderSignalKeepsDownward(g: Config, s: State, t: State)
    requires Downward(g, s) && s.reader.Holding? && Keeps(s, t) && t.down == s.down && t.downLog == s.downLog
    requires t.completed == s.completed + [Completion(s.reader.call, s.reader.run, s.reader.reply)]
    requires !t.reader.Holding? && t.res.metadata == None
    ensures Downward(g, t)
  {
    hide Carries, Answers, Matches;
    AllKept(g, s, t);
  }

  /** The events that touch neither stream. */
  predicate OffWire(e: Event) {
    !e.Write? && !e.ServerRead? && !e.ServerAnswer? && !e.ReaderTake?
  }

  lemma OffWireSame(g: Config, s: State, e: Event)
    requires Enabled(g, s, e) && OffWire(e)
    ensures var t := Apply(g, s, e);
            && t.up == s.up && t.upLog == s.upLog && t.down == s.down && t.downLog == s.downLog
            && t.senders == s.senders && t.work == s.work && t.taken == s.taken
            && (!e.ReaderSignal? ==>
                  && t.completed == s.completed && t.res == s.res
                  && (t.reader == s.reader || (!s.reader.Holding? && !t.reader.Holding?)))
            && (e.ReaderSignal? ==>
                  && s.reader.Holding? && !t.reader.Holding? && t.res.metadata == None
                  && t.completed == s.completed + [Completion(s.reader.call, s.reader.run, s.reader.reply)])
  {
    hide DoneAll, DoneAt;
  }

  lemma OtherEventsKeepWires(g: Config, s: State, e: Event)
    requires Core(s) && Wires(g, s) && Enabled(g, s, e) && Apply(g, s, e).issued <= TWO64 && OffWire(e)
    ensures Wires(g, Apply(g, s, e))
  {
    hide Upward, Downward, Core, Requests, Keeps, Enabled, Apply;
    var t := Apply(g, s, e);
    OffWireSame(g, s, e);
    EveryEventKeeps(g, s, e);
    RequestsKept(g, s, e);
    KeptUpward(s, t);
    if e.ReaderSignal? {
      ReaderSignalKeepsDownward(g, s, t);
    } else {
      KeptDownward(g, s, t);
    }
  }

  /** What the events on the wires need, and what they do. */
  lemma OnWireMeans(g: Config, s: State, e: Event)
    requires Enabled(g, s, e)
    ensures e.Write? ==>
              && InPhase(s, e.c, Registered) && Encodes(g, s, e.c) && Messages.Clean(e.base)
              && OnWire(RequestFor(g, s, e.c, e.base), e.bytes) && Apply(g, s, e) == WriteStep(g, s, e)
    ensures e.ServerRead? ==>
              && Messages.Clean(e.base) && Wire.Decode(g.serverMax, e.base, s.up).outcome == Wire.Ok
              && Apply(g, s, e) == ReadStep(g, s, e.base)
    ensures e.ServerAnswer? ==>
              && e.i < |s.work.open| && s.work.open[e.i] < |s.work.read|
              && (AnswerOf(g, s, e.i).Some? ==> OnWire(AnswerOf(g, s, e.i).value, e.bytes))
              && Apply(g, s, e) == AnswerStep(g, s, e)
    ensures e.ReaderTake? ==>
              && s.reader == Reading && Wire.Decode(g.clientMax, s.res, s.down).outcome == Wire.Ok
              && Apply(g, s, e) == TakeStep(g, s, e.goOn)
  {
    hide OnWire, RequestFor, Wire.Decode, AnswerOf, WriteStep, ReadStep, AnswerStep, TakeStep, HasBody;
  }

  lemma WiresKept(g: Config, s: State, e: Event)
    requires Core(s) && Wires(g, s) && Enabled(g, s, e) && Apply(g, s, e).issued <= TWO64
    ensures Wires(g, Apply(g, s, e))
  {
    hide Wires, Core, TakeStep, WriteStep, AnswerStep, ReadStep, Wire.Decode, OnWire, AnswerOf, Enabled, Apply,
         InPhase, Encodes, Messages.Clean;
    OnWireMeans(g, s, e);
    match e {
      case Write(_, _, _, _) => WriteKeepsWires(g, s, e);
      case ServerRead(base) => ServerReadKeepsWires(g, s, base);
      case ServerAnswer(_, _, _) => ServerAnswerKeepsWires(g, s, e);
      case ReaderTake(goOn) => ReaderTakeKeepsWires(g, s, goOn);
      case _ => OtherEventsKeepWires(g, s, e);
    }
  }

  // ------------------------------------------------------------- one execution per call

  /** The calls whose frames were written, in the order of the stream: read ones, then waiting ones. */
  function Order(s: State): (cs: seq<nat>)
    ensures |cs| == |s.senders| + |s.upLog|
  {
    s.senders + seq(|s.upLog|, i requires 0 <= i < |s.upLog| => s.upLog[i].tag)
  }

  /** No call was written twice. */
  predicate OneFrame(s: State) {
    && (forall i, j :: 0 <= i < j < |Order(s)| ==> Order(s)[i] != Order(s)[j])
    && (forall i :: 0 <= i < |Order(s)| ==> WasSent(s, Order(s)[i]))
  }

  lemma ReadKeepsOrder(g: Config, s: State, base: Msg)
    requires Wires(g, s) && Messages.Clean(base) && Wire.Decode(g.serverMax, base, s.up).outcome == Wire.Ok
    ensures Order(ReadStep(g, s, base)) == Order(s)
  {
    hide Wire.Decode, Carries, Requests, Downward, Wire.Fits, Wire.Seen, Asked, Received;
    DecodesFirst(g.serverMax, s.up, s.upLog, base);
  }

  lemma WriteExtendsOrder(g: Config, s: State, e: Event)
    requires e.Write? && Core(s) && InPhase(s, e.c, Registered) && Encodes(g, s, e.c)
    ensures var t := WriteStep(g, s, e);
            Order(t) == Order(s) + [e.c] && !WasSent(s, e.c) && WasSent(t, e.c)
  {
    hide RequestFor, Pool.Encodable;
  }

  /** A write puts a call at the end of the order, a read of the server moves nothing. */
  lemma OrderChanges(g: Config, s: State, e: Event)
    requires Core(s) && Wires(g, s) && Enabled(g, s, e)
    ensures var t := Apply(g, s, e);
            || Order(t) == Order(s)
            || (e.Write? && Order(t) == Order(s) + [e.c] && !WasSent(s, e.c) && WasSent(t, e.c))
  {
    hide Enabled, Apply, Core, Wires, ReadStep, WriteStep, Wire.Decode, OnWire, AnswerOf, RequestFor, InPhase,
         Stream.IsPush, Messages.Clean, Encodes;
    OnWireMeans(g, s, e);
    if OffWire(e) { OffWireSame(g, s, e); }
    if e.ServerRead? { ReadKeepsOrder(g, s, e.base); }
    if e.Write? { WriteExtendsOrder(g, s, e); }
  }

  lemma OneFrameKept(g: Config, s: State, e: Event)
    requires Core(s) && Wires(g, s) && OneFrame(s) && Enabled(g, s, e) && Apply(g, s, e).issued <= TWO64
    ensures OneFrame(Apply(g, s, e))
  {
    hide Enabled, Apply, Core, Wires, Order;
    OrderChanges(g, s, e);
    EveryEventKeeps(g, s, e);
  }

  // ------------------------------------------------------- written is under way or taken

  /** The goroutines that wrote an answer, in the order in which they did. */
  function Wrote(ended: seq<Serving.Ending>): seq<nat> {
    if ended == [] then []
    else
      var e := ended[|ended| - 1];
      Wrote(ended[..|ended| - 1]) + if e.answer.Some? && !e.lost then [e.run] else []
  }

  function Tags(log: seq<Frame>): (ts: seq<nat>)
    ensures |ts| == |log|
  {
    seq(|log|, i requires 0 <= i < |log| => log[i].tag)
  }

  /** What was written and not lost is what the reader has read, then what is under way, in this order. */
  predicate Delivered(s: State) {
    Wrote(s.work.ended) == s.taken + Tags(s.downLog)
  }

  lemma AnswerDelivered(g: Config, s: State, e: Event)
    requires e.ServerAnswer? && Delivered(s) && e.i < |s.work.open| && s.work.open[e.i] < |s.work.read|
    ensures Delivered(AnswerStep(g, s, e))
  {
    hide Server.Served;
    var t := AnswerStep(g, s, e);
    assert t.work.ended[..|s.work.ended|] == s.work.ended;
    if t.downLog != s.downLog {
      assert Tags(t.downLog) == Tags(s.downLog) + [s.work.open[e.i]];
    } else {
      assert Wrote(s.work.ended) + [] == Wrote(s.work.ended);
    }
  }

  lemma TakeDelivered(g: Config, s: State, goOn: bool)
    requires Delivered(s) && s.downLog != []
    ensures Delivered(TakeStep(g, s, goOn))
  {
    hide Wire.Decode, Stream.IsPush;
    assert Tags(s.downLog) == [s.downLog[0].tag] + Tags(s.downLog[1..]);
  }

  lemma DeliveredKept(g: Config, s: State, e: Event)
    requires Core(s) && Wires(g, s) && Delivered(s) && Enabled(g, s, e)
    ensures Delivered(Apply(g, s, e))
  {
    OnWireMeans(g, s, e);
    if e.ReaderTake? {
      TakeFindsItsCall(g, s, e.goOn);
      TakeDelivered(g, s, e.goOn);
    }
    if e.ServerAnswer? { AnswerDelivered(g, s, e); }
    if OffWire(e) { OffWireSame(g, s, e); }
    hide Enabled, Apply, Core, Wires, TakeStep, AnswerStep, Wire.Decode, OnWire, AnswerOf, RequestFor, InPhase,
         Messages.Clean, Encodes, Wrote, Tags;
  }

  // --------------------------------------------------------------- at most one reply

  predicate ReaderHolds(s: State, c: CallId) {
    s.reader.Holding? && s.reader.call == c
  }

  /** A call that a reply has completed or is completing is out of the pending map for good. */
  predicate OneReply(s: State) {
    && (forall i :: 0 <= i < |s.completed| ==> !Pending(s, s.completed[i].call) && !ReaderHolds(s, s.completed[i].call))
    && (forall i, j :: 0 <= i < j < |s.completed| ==> s.completed[i].call != s.completed[j].call)
    && (s.reader.Holding? ==> !Pending(s, s.reader.call))
  }

  /** A reply the reader takes was for a pending call. */
  lemma TakeChanges(g: Config, s: State, goOn: bool)
    requires Core(s) && s.reader == Reading
    ensures var t := TakeStep(g, s, goOn);
            && t.completed == s.completed
            && (t.reader == Reading
                || (t.reader.Holding? && Pending(s, t.reader.call) && !Pending(t, t.reader.call)))
  {
    hide Wire.Decode, Stream.IsPush;
  }

  /** How the reader and the list of completions change. */
  lemma ReaderChanges(g: Config, s: State, e: Event)
    requires Core(s) && Enabled(g, s, e)
    ensures var t := Apply(g, s, e);
            || (t.completed == s.completed && t.reader == s.reader)
            || (t.completed == s.completed && !s.reader.Holding? && !t.reader.Holding?)
            || (t.completed == s.completed && s.reader == Reading && t.reader.Holding?
                && Pending(s, t.reader.call) && !Pending(t, t.reader.call))
            || (s.reader.Holding? && !t.reader.Holding?
                && t.completed == s.completed + [Completion(s.reader.call, s.reader.run, s.reader.reply)])
  {
    hide Enabled, Apply, Core, Pending, TakeStep, Wire.Decode, OnWire, AnswerOf, RequestFor;
    OnWireMeans(g, s, e);
    if OffWire(e) { OffWireSame(g, s, e); }
    if e.ReaderTake? { TakeChanges(g, s, e.goOn); }
  }

  lemma RepliesAreToSentCalls(g: Config, s: State)
    requires Upward(s) && Downward(g, s)
    ensures forall i :: 0 <= i < |s.completed| ==> WasSent(s, s.completed[i].call)
    ensures s.reader.Holding? ==> WasSent(s, s.reader.call)
  {
    hide Carries, Server.Served;
    forall i | 0 <= i < |s.completed| ensures WasSent(s, s.completed[i].call) {
      assert Matches(g, s, s.completed[i].call, s.completed[i].run, s.completed[i].reply);
      assert Received(s, s.completed[i].run);
    }
    if s.reader.Holding? { assert Received(s, s.reader.run); }
  }

  lemma OneReplyKept(g: Config, s: State, e: Event)
    requires Core(s) && Wires(g, s) && OneReply(s) && Enabled(g, s, e) && Apply(g, s, e).issued <= TWO64
    ensures OneReply(Apply(g, s, e))
  {
    hide Enabled, Apply, Downward, Upward, Requests, Pending;
    var t := Apply(g, s, e);
    RepliesAreToSentCalls(g, s);
    ReaderChanges(g, s, e);
    forall c: CallId | 0 <= c < |s.client.calls| && s.client.calls[c].request.Some? && !Pending(s, c)
      ensures !Pending(t, c)
    {
      NeverPendingAgain(g, s, e, c);
    }
    hide Core;
  }

  // ------------------------------------------------------------------- the server's books

  lemma WorkKept(g: Config, s: State, e: Event)
    requires Serving.Good(g.registry, s.work) && Enabled(g, s, e)
    ensures Serving.Good(g.registry, Apply(g, s, e).work)
  {
    hide Serving.Good, Serving.Accept, Serving.Finish, Wire.Decode, OnWire, Server.Served, DoneAll;
    match e {
      case ServerRead(base) =>
        Serving.AcceptIsGood(g.registry, s.work, Wire.Decode(g.serverMax, base, s.up).msg);
      case ServerAnswer(i, _, lost) => Serving.FinishIsGood(g.registry, s.work, i, lost);
      case _ =>
    }
  }

  // -------------------------------------------------------------------- whole runs

  ghost predicate Good(g: Config, s: State) {
    && Safe(g, s) && Wires(g, s) && OneFrame(s) && OneReply(s)
    && Serving.Good(g.registry, s.work) && Delivered(s)
  }

  lemma StartIsGood(g: Config, res: Msg)
    requires Messages.Clean(res)
    ensures Good(g, Start(g, res))
  {
    hide Serving.Good;
    Serving.NothingYet(g.registry);
  }

  lemma GoodKept(g: Config, s: State, e: Event)
    requires Good(g, s) && Next(g, s, e).issued <= TWO64
    ensures Good(g, Next(g, s, e))
  {
    hide Enabled, Apply, Core, TokenLaw, SweptLaw, Wires, OneFrame, OneReply, Serving.Good, Delivered;
    if Enabled(g, s, e) {
      SafeKept(g, s, e);
      WiresKept(g, s, e);
      OneFrameKept(g, s, e);
      OneReplyKept(g, s, e);
      WorkKept(g, s, e);
      DeliveredKept(g, s, e);
    }
  }

  lemma {:induction false} EveryRunIsGood(g: Config, res: Msg, es: seq<Event>)
    requires Messages.Clean(res) && Exec(g, res, es).issued <= TWO64
    ensures Good(g, Exec(g, res, es))
  {
    if es == [] {
      StartIsGood(g, res);
    } else {
      var before, e := es[..|es| - 1], es[|es| - 1];
      var s := Exec(g, res, before);
      IssuedGrows(g, s, e);
      hide Next, Good;
      EveryRunIsGood(g, res, before);
      GoodKept(g, s, e);
    }
  }

  lemma GoodMeans(g: Config, s: State)
    requires Good(g, s)
    ensures Core(s) && Wires(g, s) && Requests(g, s) && OneFrame(s) && OneReply(s)
    ensures Carries(s.up, s.upLog) && Carries(s.down, s.downLog)
    ensures !s.reader.Holding? ==> s.res.metadata == None
    ensures |s.senders| == |s.work.read| && forall j :: 0 <= j < |s.senders| ==> Received(s, j)
    ensures forall i :: 0 <= i < |s.completed| ==>
              Matches(g, s, s.completed[i].call, s.completed[i].run, s.completed[i].reply)
    ensures Serving.Good(g.registry, s.work) && Delivered(s)
  {
    hide Delivered, Core, Carries, Serving.Good, Received, Matches, Answers, OneFrame, OneReply;
  }

  /**
    End-to-end correlation. In every run with at most 2^64 registrations, a reply delivered to a
    call c carries the number of c; the request written for c carries the number, path, method,
    metadata and encoded arguments of c; exactly one goroutine of the server worked on a frame of
    c, on that very request as decoded; and the reply is, as decoded, what that goroutine answered.
  */
  lemma ReplyAnswersItsCall(g: Config, res: Msg, es: seq<Event>, i: nat)
    requires Messages.Clean(res) && Exec(g, res, es).issued <= TWO64 && i < |Exec(g, res, es).completed|
    ensures var s := Exec(g, res, es); var d := s.completed[i];
            && WasSent(s, d.call) && d.run < |s.senders| == |s.work.read|
            && var q := s.client.calls[d.call].request.value;
               && IsRequestOf(g, s.client.calls[d.call], q)
               && (forall j :: 0 <= j < |s.senders| ==> (s.senders[j] == d.call <==> j == d.run))
               && s.work.read[d.run] == Wire.Seen(q, None)
               && var a := Server.Served(g.registry, Wire.Seen(q, None), d.run);
                  && a.Some? && d.reply == Wire.Seen(a.value, None)
                  && s.client.calls[d.call].seqNo == Some(H.Seq(d.reply.header))
  {
    var s := Exec(g, res, es);
    EveryRunIsGood(g, res, es);
    GoodMeans(g, s);
    hide Exec, Good, Core, Wires, Carries, Serving.Good, OneReply, Server.Served, Requests, Order;
    var d := s.completed[i];
    assert Matches(g, s, d.call, d.run, d.reply) && Received(s, d.run);
    ReplyNumber(g, s, d.run);
    AskedAsCalled(g, s, d.call);
    SendersDiffer(s);
    hide Pool.IsRequest;
  }

  /** The answer to a request as send builds it, seen by the client. */
  lemma AnswerTells(g: Server.Registry, call: Pool.Call, o: Pool.Options, n: nat, q: Msg, run: nat)
    requires Pool.IsRequest(call, o, n, q) && !Pool.IsPing(call) && Server.Served(g, Wire.Seen(q, None), run).Some?
    ensures Tells(g, Wire.Seen(q, None), run, Wire.Seen(Server.Served(g, Wire.Seen(q, None), run).value, None))
  {
    var req, f := Wire.Seen(q, None), g.execute(Wire.Seen(q, None), run);
    assert !H.Read(req.header).heartbeat && H.Read(req.header).status == H.NORMAL;
    Server.AnswerHeader(g, req, f.x, f.extra);
    Server.AnswerContents(g, req, f.x, f.extra);
    Server.ErrorCases(g, req, f.x);
    hide Server.Answer, Server.ErrorOf, Pool.IsRequest;
    var a := Server.Served(g, req, run).value;
    assert H.Read(Wire.Seen(a, None).header) == H.Read(a.header);
    if !Server.Succeeds(g, req, f.x) { assert g.errorKey in a.metadata.value; }
  }

  /**
    Reply r says how goroutine run fared with req. If the service, its method and the codec exist
    and the method gave a reply, it has normal status, the reply data and the method's metadata.
    Otherwise it has error status and, under the reserved key, the text for the first thing that
    was amiss, unless the method's metadata uses that key.
  */
  predicate Tells(g: Server.Registry, req: Msg, run: nat, r: Msg) {
    var f := g.execute(req, run);
    var path, meth, codec := req.servicePath, req.serviceMethod, H.SerializeType(req.header);
    var found := path in g.services && meth in g.services[path] && codec in {0, 1, 2};
    if found && f.x.Replied? then
      && H.StatusType(r.header) == H.NORMAL && r.payload == f.x.data
      && r.metadata == if f.extra == map[] then None else Some(f.extra)
    else
      var text := if path !in g.services then g.noService(path)
                  else if meth !in g.services[path] then g.noMethod(meth)
                  else if codec !in {0, 1, 2} then g.noCodec(codec)
                  else if f.x.Replied? then [] else f.x.error;
      && H.StatusType(r.header) == H.ERROR && r.payload == []
      && r.metadata == Some(map[g.errorKey := text] + f.extra)
  }

  /**
    What the caller learns. In every run, a reply delivered to a call that is no heartbeat tells
    exactly how the server fared with that call's own request: the reply data if the service, the
    method and the codec exist and the method gave a reply, and otherwise the error.
  */
  lemma CallerLearns(g: Config, res: Msg, es: seq<Event>, i: nat)
    requires Messages.Clean(res) && Exec(g, res, es).issued <= TWO64 && i < |Exec(g, res, es).completed|
    ensures var s := Exec(g, res, es); var d := s.completed[i];
            && WasSent(s, d.call)
            && var call := s.client.calls[d.call].call;
               (call.servicePath != [] || call.serviceMethod != [] ==>
                  Tells(g.registry, Wire.Seen(s.client.calls[d.call].request.value, None), d.run, d.reply))
  {
    ReplyAnswersItsCall(g, res, es, i);
    hide Exec, Server.Served, Tells, Wire.Seen, Pool.IsRequest;
    var s := Exec(g, res, es);
    var d := s.completed[i];
    var k := s.client.calls[d.call];
    if !Pool.IsPing(k.call) {
      AnswerTells(g.registry, k.call, g.options, k.seqNo.value, k.request.value, d.run);
    }
  }

  lemma AskedAsCalled(g: Config, s: State, c: CallId)
    requires Requests(g, s) && WasSent(s, c)
    ensures IsRequestOf(g, s.client.calls[c], s.client.calls[c].request.value)
  {
  }

  lemma SendersDiffer(s: State)
    requires OneFrame(s)
    ensures forall i, j :: 0 <= i < j < |s.senders| ==> s.senders[i] != s.senders[j]
  {
    forall i, j | 0 <= i < j < |s.senders| ensures s.senders[i] != s.senders[j] {
      assert Order(s)[i] == s.senders[i] && Order(s)[j] == s.senders[j];
    }
  }

  /** No call is completed by two replies. */
  lemma AtMostOneReply(g: Config, res: Msg, es: seq<Event>, i: nat, j: nat)
    requires Messages.Clean(res) && Exec(g, res, es).issued <= TWO64 && i < j < |Exec(g, res, es).completed|
    ensures Exec(g, res, es).completed[i].call != Exec(g, res, es).completed[j].call
  {
    hide Exec;
    EveryRunIsGood(g, res, es);
    hide Wires, Safe, OneFrame;
  }

  /**
    Neither end ever sees a malformed frame: it decodes a whole message, refuses one that exceeds
    its own maximum, or finds the stream empty.
  */
  lemma StreamsStayFramed(g: Config, res: Msg, es: seq<Event>, base: Msg)
    requires Messages.Clean(res) && Exec(g, res, es).issued <= TWO64 && Messages.Clean(base)
    ensures var s := Exec(g, res, es);
            var u := Wire.Decode(g.serverMax, base, s.up).outcome;
            && u in {Wire.Ok, Wire.TooLong, Wire.Eof}
            && (u == Wire.TooLong <==> s.upLog != [] && !Wire.Fits(g.serverMax, s.upLog[0].bytes))
            && (s.reader == Reading ==>
                  var d := Wire.Decode(g.clientMax, s.res, s.down);
                  && d.outcome in {Wire.Ok, Wire.TooLong, Wire.Eof}
                  && (d.outcome == Wire.TooLong <==>
                        s.downLog != [] && !Wire.Fits(g.clientMax, s.downLog[0].bytes))
                  && (d.outcome == Wire.Ok ==> !Stream.IsPush(d.msg.header)))
  {
    var s := Exec(g, res, es);
    EveryRunIsGood(g, res, es);
    GoodMeans(g, s);
    hide Exec, Good, Core, Wires, Carries, Wire.Decode, Stream.IsPush, Wire.Fits;
    DecodesFirst(g.serverMax, s.up, s.upLog, base);
    if s.reader == Reading {
      DecodesFirst(g.clientMax, s.down, s.downLog, s.res);
      if Wire.Decode(g.clientMax, s.res, s.down).outcome == Wire.Ok { TakeFindsItsCall(g, s, true); }
    }
  }

  /**
    In every run the server's answers are conserved: for every number, the requests read under it
    that ask for an answer are as many as the answers written, those lost and those in hand; and
    the answers written are, in order, those the client has read and those under way.
  */
  lemma RunConservesAnswers(g: Config, res: Msg, es: seq<Event>, n: nat)
    requires Messages.Clean(res) && Exec(g, res, es).issued <= TWO64
    ensures var v := Exec(g, res, es).work;
            && Serving.Booked(g.registry, v)
            && Serving.Numbered(v.read, true, n)
               == Serving.Answers(v.ended, false, n) + Serving.Answers(v.ended, true, n)
                  + Serving.Numbered(Serving.InHand(v), true, n)
            && Serving.Numbered(v.read, false, n)
               == Serving.Silent(v.read, v.ended, n) + Serving.Numbered(Serving.InHand(v), false, n)
    ensures var s := Exec(g, res, es); Wrote(s.work.ended) == s.taken + Tags(s.downLog)
  {
    EveryRunIsGood(g, res, es);
    GoodMeans(g, Exec(g, res, es));
    hide Exec, Good, Core, Wires, Carries;
    assert Serving.Conserved(Exec(g, res, es).work, n);
  }

  /** Only calls of clients with a known codec are ever registered. */
  lemma CodecIsKnown(g: Config, res: Msg, es: seq<Event>, c: CallId)
    requires Messages.Clean(res) && Exec(g, res, es).issued <= TWO64 && c < |Exec(g, res, es).client.calls|
    ensures Exec(g, res, es).client.calls[c].seqNo.Some? ==> g.options.serialize in {0, 1, 2}
  {
    EveryRunIsGood(g, res, es);
    GoodMeans(g, Exec(g, res, es));
    hide Exec, Good, Core, Wires, Carries, Serving.Good, OneFrame, OneReply;
  }

  /** The reader leaves its loop over a reply only if that carries data that may fail to decode. */
  predicate EndsOnBody(s: State) {
    s.reader.Holding? && !s.reader.goOn ==>
      && H.StatusType(s.reader.reply.header) != H.ERROR && !H.IsHeartbeat(s.reader.reply.header)
      && s.reader.reply.payload != []
  }

  lemma TakenBody(g: Config, s: State, goOn: bool)
    requires Enabled(g, s, ReaderTake(goOn))
    ensures EndsOnBody(TakeStep(g, s, goOn))
  {
    hide Wire.Decode, Stream.IsPush;
  }

  lemma EndsOnBodyKept(g: Config, s: State, e: Event)
    requires EndsOnBody(s) && Enabled(g, s, e)
    ensures EndsOnBody(Apply(g, s, e))
  {
    if e.ReaderTake? { TakenBody(g, s, e.goOn); }
    OnWireMeans(g, s, e);
    if OffWire(e) { OffWireSame(g, s, e); }
    hide Enabled, Apply, TakeStep, Wire.Decode, OnWire, AnswerOf, RequestFor, InPhase, Messages.Clean, Encodes;
  }

  /** In every run an error reply, a heartbeat and an empty reply leave the reader in its loop. */
  lemma {:induction false} OnlyBodiesEndTheLoop(g: Config, res: Msg, es: seq<Event>)
    ensures EndsOnBody(Exec(g, res, es))
  {
    if es != [] {
      var s, e := Exec(g, res, es[..|es| - 1]), es[|es| - 1];
      OnlyBodiesEndTheLoop(g, res, es[..|es| - 1]);
      hide Enabled, Apply, EndsOnBody;
      if Enabled(g, s, e) { EndsOnBodyKept(g, s, e); }
    }
  }
}
