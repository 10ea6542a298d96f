/**
  Calls do complete. From a state of a run in which the connection is in use, a new call can get
  its own reply if and only if no frame under way exceeds the maximum of the end it travels to.
*/
module RpcDelivery {
  import opened Bytes
  import opened Integers
  import opened Rpc
  import opened RpcCalls
  import opened RpcOnce
  import opened RpcReplies
  import opened Wrappers

  import H = Header
  import Messages
  import Pool
  import Server
  import Serving
  import Stream
  import Wire

  type Msg = Wire.Msg

  /** The connection is in use. */
  ghost predicate InUse(g: Config, s: State) {
    Good(g, s) && s.reader == Reading && Accepting(g, s.client)
  }

  predicate UpFits(g: Config, s: State) {
    forall i :: 0 <= i < |s.upLog| ==> Wire.Fits(g.serverMax, s.upLog[i].bytes)
  }

  predicate DownFits(g: Config, s: State) {
    forall i :: 0 <= i < |s.downLog| ==> Wire.Fits(g.clientMax, s.downLog[i].bytes)
  }

  /** Extend a run from s that has reached state t by one event. */
  lemma On(g: Config, s: State, es: seq<Event>, t: State, e: Event) returns (es': seq<Event>, t': State)
    requires From(g, s, es) == t
    ensures From(g, s, es') == t' == Next(g, t, e)
  {
    hide Next;
    FromOne(g, t, e);
    FromConcat(g, s, es, [e]);
    es', t' := es + [e], Next(g, t, e);
  }

  lemma Already(g: Config, s: State)
    ensures From(g, s, []) == s
  {
  }

  // -------------------------------------------------------------------- draining the wires

  /** The server reads the first frame. */
  lemma ReadOne(g: Config, s: State, base: Msg) returns (t: State)
    requires InUse(g, s) && s.upLog != [] && UpFits(g, s) && Messages.Clean(base) && s.issued <= TWO64
    ensures t == Next(g, s, ServerRead(base)) && InUse(g, t) && UpFits(g, t)
    ensures t.upLog == s.upLog[1..] && t.senders == s.senders + [s.upLog[0].tag]
    ensures t.downLog == s.downLog && t.client == s.client && t.issued == s.issued && t.completed == s.completed
  {
    hide Good, Wire.Decode, Carries, Core, Wires, Requests, OneFrame, OneReply, Serving.Good, Wire.Seen, Wire.Fits;
    GoodMeans(g, s);
    DecodesFirst(g.serverMax, s.up, s.upLog, base);
    t := Next(g, s, ServerRead(base));
    assert t == ReadStep(g, s, base);
    GoodKept(g, s, ServerRead(base));
  }

  lemma {:induction false} DrainUp(g: Config, s: State, base: Msg) returns (es: seq<Event>, t: State)
    requires InUse(g, s) && UpFits(g, s) && Messages.Clean(base) && s.issued <= TWO64
    ensures From(g, s, es) == t && InUse(g, t) && t.upLog == [] && t.senders == Order(s)
    ensures t.downLog == s.downLog && t.client == s.client && t.issued == s.issued && t.completed == s.completed
    decreases |s.upLog|
  {
    hide InUse, From, Next, UpFits;
    if s.upLog == [] {
      es, t := [], s;
      Already(g, s);
      assert Order(s) == s.senders;
    } else {
      var u := ReadOne(g, s, base);
      var rest;
      rest, t := DrainUp(g, u, base);
      FromOne(g, s, ServerRead(base));
      FromConcat(g, s, [ServerRead(base)], rest);
      es := [ServerRead(base)] + rest;
      assert Order(u) == Order(s);
    }
  }

  /** What draining the replies leaves alone. */
  predicate SameSide(s: State, t: State) {
    && t.upLog == s.upLog && t.senders == s.senders && t.issued == s.issued
    && t.client.shutdown == s.client.shutdown && t.client.closing == s.client.closing
    && |t.client.calls| == |s.client.calls| && s.completed <= t.completed
  }

  /** The reader takes the first reply: it drops it or holds a call. */
  lemma TakeOne(g: Config, s: State) returns (t: State)
    requires Good(g, s) && s.reader == Reading && s.issued <= TWO64 && s.downLog != []
    requires Wire.Fits(g.clientMax, s.downLog[0].bytes)
    ensures t == Next(g, s, ReaderTake(true)) && Good(g, t) && SameSide(s, t)
    ensures t.downLog == s.downLog[1..]
    ensures t.reader == Reading || (t.reader.Holding? && t.reader.goOn)
  {
    hide Good, Wire.Decode, Carries, Core, Wires, Requests, OneFrame, OneReply, Serving.Good, Wire.Seen, Wire.Fits;
    GoodMeans(g, s);
    DecodesFirst(g.clientMax, s.down, s.downLog, s.res);
    t := Next(g, s, ReaderTake(true));
    assert t == TakeStep(g, s, true);
    GoodKept(g, s, ReaderTake(true));
  }

  lemma SignalOne(g: Config, s: State) returns (t: State)
    requires Good(g, s) && s.reader.Holding? && s.reader.goOn && s.issued <= TWO64
    ensures t == Next(g, s, ReaderSignal) && Good(g, t) && SameSide(s, t)
    ensures t.downLog == s.downLog && t.reader == Reading
  {
    hide Good, Wires, Requests, Carries, OneFrame, OneReply, Serving.Good, Received, Matches;
    GoodMeans(g, s);
    assert s.reader.call < |s.client.calls|;
    hide Core;
    t := Next(g, s, ReaderSignal);
    GoodKept(g, s, ReaderSignal);
  }

  lemma {:induction false} DrainDown(g: Config, s: State) returns (es: seq<Event>, t: State)
    requires Good(g, s) && s.reader == Reading && DownFits(g, s) && s.issued <= TWO64
    ensures From(g, s, es) == t && Good(g, t) && t.reader == Reading && t.downLog == [] && SameSide(s, t)
    decreases |s.downLog|
  {
    hide Good, From, Next, Wire.Fits;
    es, t := [], s;
    Already(g, s);
    if s.downLog != [] {
      var u := TakeOne(g, s);
      es, t := On(g, s, [], s, ReaderTake(true));
      if u.reader.Holding? {
        u := SignalOne(g, t);
        es, t := On(g, s, es, t, ReaderSignal);
      }
      var rest;
      rest, u := DrainDown(g, t);
      FromConcat(g, s, es, rest);
      es, t := es + rest, u;
    }
  }

  // -------------------------------------------------------------------------- one exchange

  /** A call, the pooled message it is sent with, and the bytes of its request and of its answer. */
  datatype Exchange = Exchange(call: Pool.Call, base: Msg, sent: Bytes, back: Bytes)

  /** The request of the exchange under number n. */
  function Request(g: Config, w: Exchange, n: nat): Msg
    requires Pool.Encodable(g.options, w.call)
  {
    Pool.RequestOf(w.base, n % TWO64, w.call, g.options)
  }

  /** What the goroutine numbered run answers to it, if anything. */
  function AnswerTo(g: Config, w: Exchange, n: nat, run: nat): Option<Msg>
    requires Pool.Encodable(g.options, w.call)
  {
    Server.Served(g.registry, Wire.Seen(Request(g, w, n), None), run)
  }

  /** The arguments can be encoded, and both messages have frames of acceptable size. */
  ghost predicate Possible(g: Config, w: Exchange, n: nat, run: nat) {
    && Messages.Clean(w.base) && Pool.Encodable(g.options, w.call)
    && OnWire(Request(g, w, n), w.sent) && Wire.Fits(g.serverMax, w.sent)
    && (AnswerTo(g, w, n, run).Some? ==>
          OnWire(AnswerTo(g, w, n, run).value, w.back) && Wire.Fits(g.clientMax, w.back))
  }

  /** The server answers every request that send builds. */
  lemma AlwaysAnswered(g: Config, w: Exchange, n: nat, run: nat)
    requires Possible(g, w, n, run) && Server.HasCodec(g.options.serialize)
    ensures AnswerTo(g, w, n, run).Some?
  {
    hide OnWire, Pool.RequestOf, Server.Served, Wire.Fits;
    Pool.RequestReadsBack(w.base, n % TWO64, w.call, g.options);
    Serving.ServedNumber(g.registry, Wire.Seen(Request(g, w, n), None), run);
  }

  /** The record of the new call after send has registered it and, with a request, written it. */
  function Record(w: Exchange, n: nat, p: Phase, q: Option<Msg>): CallState {
    CallState(w.call, p, Some(n), q, 0, false, false)
  }

  lemma NextNumber(s: State)
    requires Core(s) && s.issued < TWO64
    ensures s.client.seqNo == s.issued
  {
    assert s.issued % TWO64 == s.issued;
  }

  lemma Admitted(g: Config, s: State, w: Exchange) returns (t: State)
    requires InUse(g, s) && s.issued < TWO64
    ensures Good(g, t) && From(g, s, [Issue(w.call), Register(|s.client.calls|)]) == t
    ensures t == Registering(Issued(s, w.call), |s.client.calls|) && s.client.seqNo == s.issued
  {
    hide Good, From, Core, Wires, Requests, Carries, OneFrame, OneReply, Serving.Good;
    var e, f := Issue(w.call), Register(|s.client.calls|);
    var u := Next(g, s, e);
    t := Next(g, u, f);
    GoodKept(g, s, e);
    GoodKept(g, u, f);
    FromOne(g, s, e);
    FromOne(g, u, f);
    FromConcat(g, s, [e], [f]);
    assert [e] + [f] == [e, f];
    GoodMeans(g, s);
    NextNumber(s);
  }

  /** Call c stands in the pending map under n, with this record; the reader waits, the wires are as given. */
  ghost predicate At(g: Config, s: State, c: CallId, n: nat, k: CallState, up: seq<Frame>, down: seq<Frame>) {
    && Good(g, s) && s.reader == Reading && s.upLog == up && s.downLog == down && s.issued <= TWO64
    && c < |s.client.calls| && s.client.calls[c] == k
    && n in s.client.pending && s.client.pending[n] == c
  }

  lemma Sending(g: Config, s: State, w: Exchange, c: CallId, n: nat, e: Event)
    requires n < TWO64 && Possible(g, w, n, |s.senders|)
    requires At(g, s, c, n, Record(w, n, Registered, None), [], [])
    requires e == Write(c, w.base, w.sent, false)
    ensures var t, q := Next(g, s, e), Request(g, w, n);
            && At(g, t, c, n, Record(w, n, Sent, Some(q)), [Frame(c, q, w.sent)], [])
            && t.senders == s.senders && t.completed == s.completed
  {
    hide OnWire, Wire.Fits, Server.Served, Pool.RequestOf, Good, Messages.Clean, Pool.Encodable;
    assert n % TWO64 == n && Encodes(g, s, c) && RequestFor(g, s, c, w.base) == Request(g, w, n);
    assert Next(g, s, e) == WriteStep(g, s, e);
    GoodKept(g, s, e);
  }

  /** The goroutine started for the request is the last one that has not finished. */
  predicate LastOpen(s: State, c: CallId) {
    && |s.senders| == |s.work.read| > 0 && s.senders[|s.senders| - 1] == c
    && |s.work.open| > 0 && s.work.open[|s.work.open| - 1] == |s.work.read| - 1
  }

  lemma Fetching(g: Config, s: State, w: Exchange, c: CallId, n: nat, e: Event)
    requires n < TWO64 && Possible(g, w, n, |s.senders|) && e == ServerRead(w.base)
    requires var q := Request(g, w, n);
             At(g, s, c, n, Record(w, n, Sent, Some(q)), [Frame(c, q, w.sent)], [])
    ensures var t, q := Next(g, s, e), Request(g, w, n);
            && At(g, t, c, n, Record(w, n, Sent, Some(q)), [], [])
            && |t.senders| == |s.senders| + 1 && LastOpen(t, c) && t.completed == s.completed
  {
    hide OnWire, Server.Served, Pool.RequestOf, Good, Wire.Decode, Carries, Core, Wires, Requests, Wire.Seen,
         H.Zeroed, OneFrame, OneReply, Serving.Good, Received, Wire.Fits;
    GoodMeans(g, s);
    DecodesFirst(g.serverMax, s.up, s.upLog, w.base);
    assert Next(g, s, e) == ReadStep(g, s, w.base);
    GoodKept(g, s, e);
  }

  lemma Answering(g: Config, s: State, w: Exchange, c: CallId, n: nat, e: Event)
    requires n < TWO64 && LastOpen(s, c) && Possible(g, w, n, |s.senders| - 1)
    requires e == ServerAnswer(|s.work.open| - 1, w.back, false)
    requires At(g, s, c, n, Record(w, n, Sent, Some(Request(g, w, n))), [], [])
    ensures var a := AnswerTo(g, w, n, |s.senders| - 1);
            && a.Some?
            && var t := Next(g, s, e);
               && At(g, t, c, n, Record(w, n, Sent, Some(Request(g, w, n))), [],
                     [Frame(|s.senders| - 1, a.value, w.back)])
               && t.senders == s.senders && t.completed == s.completed
  {
    hide OnWire, Server.Served, Pool.RequestOf, Good, Core, Wires, Requests, Carries, Wire.Seen,
         OneFrame, OneReply, Serving.Good, Messages.Clean, Pool.Encodable, Wire.Fits, Server.HasCodec;
    GoodMeans(g, s);
    CodecKnown(g, s, c);
    AlwaysAnswered(g, w, n, |s.senders| - 1);
    assert Received(s, |s.senders| - 1);
    assert Next(g, s, e) == AnswerStep(g, s, e);
    GoodKept(g, s, e);
  }

  lemma CodecKnown(g: Config, s: State, c: CallId)
    requires Requests(g, s) && Known(s, c)
    ensures Server.HasCodec(g.options.serialize)
  {
  }

  lemma Taking(g: Config, s: State, c: CallId, n: nat, k: CallState, f: Frame)
    requires At(g, s, c, n, k, [], [f]) && f.tag < |s.senders| && s.senders[f.tag] == c
    requires Wire.Fits(g.clientMax, f.bytes) && n < TWO64 && k.seqNo == Some(n)
    requires f.tag < |s.work.read| && Server.Served(g.registry, s.work.read[f.tag], f.tag) == Some(f.msg)
    ensures var t := Next(g, s, ReaderTake(true));
            && Good(g, t) && t.reader == Holding(c, f.tag, Wire.Seen(f.msg, None), true)
            && t.issued == s.issued && t.completed == s.completed
            && t.client.calls == s.client.calls
  {
    hide Good, Wire.Decode, Carries, Core, Wires, Requests, Stream.IsPush, OneFrame, OneReply,
         Serving.Good, Server.Served, Wire.Fits;
    GoodMeans(g, s);
    DecodesFirst(g.clientMax, s.down, s.downLog, s.res);
    assert Received(s, f.tag);
    ReplyNumber(g, s, f.tag);
    TakeFindsItsCall(g, s, true);
    assert Next(g, s, ReaderTake(true)) == TakeStep(g, s, true);
    hide Wire.Seen;
    GoodKept(g, s, ReaderTake(true));
  }

  lemma Finishing(g: Config, s: State)
    requires s.reader.Holding? && s.reader.call < |s.client.calls|
    ensures var t, c := Next(g, s, ReaderSignal), s.reader.call;
            && t.completed == s.completed + [Completion(c, s.reader.run, s.reader.reply)]
            && t.client.calls == s.client.calls[c := Done(s.client.calls[c])]
            && t.reader == (if s.reader.goOn then Reading else Ended) && t.issued == s.issued
  {
  }

  /** The exchange up to the point where the answer is on its way. */
  lemma Asking(g: Config, s: State, w: Exchange) returns (es: seq<Event>, t: State, f: Frame)
    requires InUse(g, s) && s.upLog == s.downLog == [] && s.issued < TWO64
    requires Possible(g, w, s.issued, |s.senders|)
    ensures From(g, s, es) == t && t.completed == s.completed
    ensures At(g, t, |s.client.calls|, s.issued, Record(w, s.issued, Sent, Some(Request(g, w, s.issued))), [], [f])
    ensures f.tag == |s.senders| == |t.senders| - 1 && t.senders[f.tag] == |s.client.calls|
    ensures f.bytes == w.back && AnswerTo(g, w, s.issued, f.tag) == Some(f.msg)
  {
    assert Pool.Encodable(g.options, w.call);
    hide Good, From, Possible, Accepting, Wire.Seen, AnswerTo, Next, Pool.Encodable;
    var c, n, run := |s.client.calls|, s.issued, |s.senders|;
    t := Admitted(g, s, w);
    assert At(g, t, c, n, Record(w, n, Registered, None), [], []);
    hide At, Record, InUse;
    es := [Issue(w.call), Register(c)];
    var e := Write(c, w.base, w.sent, false);
    Sending(g, t, w, c, n, e);
    es, t := On(g, s, es, t, e);
    e := ServerRead(w.base);
    Fetching(g, t, w, c, n, e);
    es, t := On(g, s, es, t, e);
    e := ServerAnswer(|t.work.open| - 1, w.back, false);
    Answering(g, t, w, c, n, e);
    es, t := On(g, s, es, t, e);
    f := Frame(run, AnswerTo(g, w, n, run).value, w.back);
  }

  /** The whole exchange on idle wires. */
  lemma Exchanged(g: Config, s: State, w: Exchange) returns (es: seq<Event>)
    requires InUse(g, s) && s.upLog == s.downLog == [] && s.issued < TWO64
    requires Possible(g, w, s.issued, |s.senders|)
    ensures var a := AnswerTo(g, w, s.issued, |s.senders|);
            && a.Some?
            && var t, c := From(g, s, es), |s.client.calls|;
               && t.completed == s.completed + [Completion(c, |s.senders|, Wire.Seen(a.value, None))]
               && c < |t.client.calls| && t.client.calls[c].signals == 1 && t.client.calls[c].slot
               && t.reader == Reading && t.issued <= TWO64
  {
    hide Good, From, Accepting, Wire.Seen, AnswerTo, Next, OnWire, Request, Messages.Clean, Wire.Fits, InUse,
         Server.Served;
    var c, n := |s.client.calls|, s.issued;
    var t, f;
    es, t, f := Asking(g, s, w);
    WorkedOn(g, t, w, c, n, f);
    Taking(g, t, c, n, t.client.calls[c], f);
    es, t := On(g, s, es, t, ReaderTake(true));
    Finishing(g, t);
    es, t := On(g, s, es, t, ReaderSignal);
  }

  /** The goroutine of c worked on the request of the exchange. */
  lemma WorkedOn(g: Config, s: State, w: Exchange, c: CallId, n: nat, f: Frame)
    requires Pool.Encodable(g.options, w.call) && Good(g, s)
    requires c < |s.client.calls| && s.client.calls[c] == Record(w, n, Sent, Some(Request(g, w, n)))
    requires f.tag < |s.senders| && s.senders[f.tag] == c && AnswerTo(g, w, n, f.tag) == Some(f.msg)
    ensures f.tag < |s.work.read| && Server.Served(g.registry, s.work.read[f.tag], f.tag) == Some(f.msg)
  {
    hide Good, Core, Wires, Carries, Server.Served, Requests, OneFrame, OneReply, Serving.Good, Wire.Seen, Request;
    GoodMeans(g, s);
    assert Received(s, f.tag);
  }

  /**
    From every state of a run in which the connection is in use and every frame under way fits,
    any call whose own request and answer fit can be carried through, after whatever is under way
    was delivered: it ends up signalled once, with the answer the server gave to its own request.
  */
  lemma CallIsAnswered(g: Config, s: State, w: Exchange) returns (es: seq<Event>)
    requires InUse(g, s) && UpFits(g, s) && DownFits(g, s) && s.issued < TWO64
    requires Possible(g, w, s.issued, |Order(s)|)
    ensures var a := AnswerTo(g, w, s.issued, |Order(s)|);
            && a.Some?
            && var t, c := From(g, s, es), |s.client.calls|;
               && s.completed < t.completed && t.issued <= TWO64
               && t.completed[|t.completed| - 1] == Completion(c, |Order(s)|, Wire.Seen(a.value, None))
               && c < |t.client.calls| && t.client.calls[c].signals == 1 && t.client.calls[c].slot
  {
    assert Messages.Clean(w.base) && Pool.Encodable(g.options, w.call);
    hide Good, From, Possible, UpFits, DownFits, Wire.Seen, AnswerTo, Next, Messages.Clean, Pool.Encodable;
    var t, more;
    es, t := DrainDown(g, s);
    assert UpFits(g, t) by { SameUp(g, s, t); }
    assert Order(t) == Order(s);
    var u := t;
    more, u := DrainUp(g, t, w.base);
    FromConcat(g, s, es, more);
    es := es + more;
    more := Exchanged(g, u, w);
    FromConcat(g, s, es, more);
    es := es + more;
  }

  lemma SameUp(g: Config, s: State, t: State)
    requires UpFits(g, s) && t.upLog == s.upLog
    ensures UpFits(g, t)
  {
  }

  // --------------------------------------------------------------------- a blocked connection

  /** A frame at i is too long for the server, and calls from n on are behind it. */
  predicate BlockedUpAt(g: Config, s: State, n: nat, i: nat) {
    && i < |s.upLog| && !Wire.Fits(g.serverMax, s.upLog[i].bytes)
    && (forall j :: 0 <= j < |s.upLog| && s.upLog[j].tag >= n ==> j > i)
    && (forall j :: 0 <= j < |s.senders| ==> s.senders[j] < n)
  }

  predicate LateReply(s: State, n: nat, j: nat) {
    j < |s.downLog| && s.downLog[j].tag < |s.senders| && s.senders[s.downLog[j].tag] >= n
  }

  /** A frame at i is too long for the client, and replies to calls from n on are behind it. */
  predicate BlockedDownAt(g: Config, s: State, n: nat, i: nat) {
    && i < |s.downLog| && !Wire.Fits(g.clientMax, s.downLog[i].bytes)
    && (forall j: nat :: LateReply(s, n, j) ==> j > i)
    && (forall j :: 0 <= j < |s.completed| ==> s.completed[j].call < n)
    && (s.reader.Holding? ==> s.reader.call < n)
  }

  predicate Blocked(g: Config, s: State, n: nat) {
    || (exists i :: 0 <= i < |s.upLog| && BlockedUpAt(g, s, n, i))
    || (exists i :: 0 <= i < |s.downLog| && BlockedDownAt(g, s, n, i))
  }

  /** Which events touch which list. */
  lemma LogsChange(g: Config, s: State, e: Event)
    requires Enabled(g, s, e)
    ensures var t := Apply(g, s, e);
            && (!e.Write? && !e.ServerRead? ==> t.upLog == s.upLog)
            && (e.Write? ==> exists f :: t.upLog == s.upLog + [f])
            && (e.ServerRead? ==> t.upLog == Rest(s.upLog) && t.senders == s.senders + [Tag(s.upLog)])
            && (!e.ServerRead? ==> t.senders == s.senders)
            && (!e.ServerAnswer? && !e.ReaderTake? ==> t.downLog == s.downLog)
            && (e.ServerAnswer? ==> t.downLog == s.downLog || exists f :: t.downLog == s.downLog + [f])
            && (e.ReaderTake? ==> t.downLog == Rest(s.downLog))
            && (!e.ReaderTake? && t.reader.Holding? ==> t.reader == s.reader)
            && (!e.ReaderSignal? ==> t.completed == s.completed)
            && (e.ReaderSignal? ==>
                  && s.reader.Holding?
                  && t.completed == s.completed + [Completion(s.reader.call, s.reader.run, s.reader.reply)])
  {
    hide Enabled, Apply, Wire.Decode, OnWire, AnswerOf, RequestFor, InPhase, Messages.Clean, Encodes, Stream.IsPush;
    OnWireMeans(g, s, e);
    if OffWire(e) { OffWireSame(g, s, e); }
    if e.Write? { assert Apply(g, s, e).upLog == s.upLog + [Frame(e.c, RequestFor(g, s, e.c, e.base), e.bytes)]; }
  }

  lemma FirstFits(g: Config, s: State, e: Event)
    requires Good(g, s) && Enabled(g, s, e)
    ensures e.ServerRead? ==> s.upLog != [] && Wire.Fits(g.serverMax, s.upLog[0].bytes)
    ensures e.ReaderTake? ==> s.downLog != [] && Wire.Fits(g.clientMax, s.downLog[0].bytes)
  {
    hide Good, Core, Wires, Carries, Requests, Wire.Decode, OneFrame, OneReply, Serving.Good, Wire.Fits, OnWire,
         Server.Served;
    GoodMeans(g, s);
    if e.ServerRead? { DecodesFirst(g.serverMax, s.up, s.upLog, e.base); }
    if e.ReaderTake? { DecodesFirst(g.clientMax, s.down, s.downLog, s.res); }
  }

  lemma BlockedUpKept(g: Config, s: State, e: Event, n: nat, i: nat)
    requires Good(g, s) && Enabled(g, s, e) && BlockedUpAt(g, s, n, i)
    ensures Blocked(g, Apply(g, s, e), n)
  {
    hide Good, Enabled, Apply, Wire.Fits, BlockedDownAt;
    LogsChange(g, s, e);
    FirstFits(g, s, e);
    var t := Apply(g, s, e);
    assert BlockedUpAt(g, t, n, if e.ServerRead? then i - 1 else i);
  }

  lemma TagsKnown(g: Config, s: State)
    requires Good(g, s)
    ensures forall j :: 0 <= j < |s.downLog| ==> s.downLog[j].tag < |s.senders|
  {
    hide Safe, Carries, OneFrame, OneReply, Serving.Good, Requests, Server.Served, Received;
  }

  /** The call the reader takes is that of the first reply. */
  lemma TakesFirst(g: Config, s: State, e: Event)
    requires Good(g, s) && Enabled(g, s, e) && e.ReaderTake? && s.downLog != []
    ensures var t := Apply(g, s, e);
            t.reader.Holding? ==> s.downLog[0].tag < |s.senders| && t.reader.call == s.senders[s.downLog[0].tag]
  {
    hide Good, Core, Wires, Carries, Requests, Wire.Decode, OneFrame, OneReply, Serving.Good, TakeStep, Wire.Seen,
         Stream.IsPush;
    GoodMeans(g, s);
    TakeFindsItsCall(g, s, e.goOn);
  }

  lemma BlockedDownKept(g: Config, s: State, e: Event, n: nat, i: nat)
    requires Good(g, s) && Enabled(g, s, e) && BlockedDownAt(g, s, n, i)
    ensures Blocked(g, Apply(g, s, e), n)
  {
    hide Good, Enabled, Apply, Wire.Fits, BlockedUpAt;
    LogsChange(g, s, e);
    FirstFits(g, s, e);
    TagsKnown(g, s);
    var t := Apply(g, s, e);
    if e.ReaderTake? {
      assert !LateReply(s, n, 0);
      TakesFirst(g, s, e);
      forall j: nat | LateReply(t, n, j) ensures j > i - 1 { assert LateReply(s, n, j + 1); }
      assert BlockedDownAt(g, t, n, i - 1);
    } else {
      forall j: nat | LateReply(t, n, j) ensures j > i { assert j < |s.downLog| ==> LateReply(s, n, j); }
      assert BlockedDownAt(g, t, n, i);
    }
  }

  lemma BlockedKept(g: Config, s: State, e: Event, n: nat)
    requires Good(g, s) && Blocked(g, s, n)
    ensures Blocked(g, Next(g, s, e), n)
  {
    hide Good, Enabled, Apply, BlockedUpAt, BlockedDownAt;
    if Enabled(g, s, e) {
      if i :| 0 <= i < |s.upLog| && BlockedUpAt(g, s, n, i) {
        BlockedUpKept(g, s, e, n, i);
      } else {
        var i :| 0 <= i < |s.downLog| && BlockedDownAt(g, s, n, i);
        BlockedDownKept(g, s, e, n, i);
      }
    }
  }

  lemma {:induction false} BlockedForGood(g: Config, s: State, es: seq<Event>, n: nat)
    requires Good(g, s) && Blocked(g, s, n) && From(g, s, es).issued <= TWO64
    ensures Good(g, From(g, s, es)) && Blocked(g, From(g, s, es), n)
  {
    hide Good, Blocked, Next;
    if es != [] {
      var before, e := es[..|es| - 1], es[|es| - 1];
      IssuedGrows(g, From(g, s, before), e);
      BlockedForGood(g, s, before, n);
      GoodKept(g, From(g, s, before), e);
      BlockedKept(g, From(g, s, before), e, n);
    }
  }

  /** Behind a frame that is too long nobody gets a reply. */
  lemma BlockedMeans(g: Config, s: State, n: nat)
    requires Good(g, s) && Blocked(g, s, n)
    ensures forall i :: 0 <= i < |s.completed| ==> s.completed[i].call < n
  {
    hide Good, Core, Wires, Carries, Requests, OneFrame, OneReply, Serving.Good, Received, Replies;
    GoodMeans(g, s);
    forall i | 0 <= i < |s.completed| ensures s.completed[i].call < n {
      assert Matches(g, s, s.completed[i].call, s.completed[i].run, s.completed[i].reply);
    }
  }

  lemma TooLongBlocks(g: Config, s: State)
    requires Good(g, s) && s.reader == Reading && !(UpFits(g, s) && DownFits(g, s))
    ensures Blocked(g, s, |s.client.calls|)
  {
    hide Safe, Carries, OneFrame, OneReply, Serving.Good, Requests, Server.Served, Wire.Fits;
    var n := |s.client.calls|;
    forall i | 0 <= i < |s.completed| ensures s.completed[i].call < n {
      assert Matches(g, s, s.completed[i].call, s.completed[i].run, s.completed[i].reply);
      assert Received(s, s.completed[i].run);
    }
    forall j | 0 <= j < |s.senders| ensures s.senders[j] < n { assert Received(s, j); }
    if !UpFits(g, s) {
      var i :| 0 <= i < |s.upLog| && !Wire.Fits(g.serverMax, s.upLog[i].bytes);
      assert forall j :: 0 <= j < |s.upLog| ==> Asked(s, s.upLog[j].tag, s.upLog[j].msg);
      assert BlockedUpAt(g, s, n, i);
    } else {
      var i :| 0 <= i < |s.downLog| && !Wire.Fits(g.clientMax, s.downLog[i].bytes);
      assert BlockedDownAt(g, s, n, i);
    }
  }

  /** In some continuation a call not issued yet is completed by a reply. */
  ghost predicate NewCallCanBeAnswered(g: Config, s: State) {
    exists es, i: nat :: Answered(g, s, es, i)
  }

  ghost predicate Answered(g: Config, s: State, es: seq<Event>, i: nat) {
    var t := From(g, s, es);
    t.issued <= TWO64 && i < |t.completed| && t.completed[i].call >= |s.client.calls|
  }

  /**
    Exactly when the connection still serves new calls: from a state in which it is in use, some
    continuation delivers a reply to a new call if and only if every frame under way fits the end
    it travels to. One frame above MaxMessageLength cuts off everything behind it for good. The
    exchange w only says that there is a call whose own messages fit.
  */
  lemma AnsweredIffClear(g: Config, s: State, w: Exchange)
    requires InUse(g, s) && s.issued < TWO64 && Possible(g, w, s.issued, |Order(s)|)
    ensures NewCallCanBeAnswered(g, s) <==> UpFits(g, s) && DownFits(g, s)
  {
    hide Good, From, Possible, UpFits, DownFits, Wire.Seen, AnswerTo, Accepting, Blocked;
    if UpFits(g, s) && DownFits(g, s) {
      var es := CallIsAnswered(g, s, w);
      assert Answered(g, s, es, |From(g, s, es).completed| - 1);
    } else {
      NothingNewGetsThrough(g, s);
    }
  }

  // ------------------------------------------------------------------ and it can be blocked

  lemma AfterWrite(g: Config, s: State, e: Event)
    requires e.Write? && Enabled(g, s, e)
    ensures var t := Next(g, s, e);
            && t.issued == s.issued && t.reader == s.reader
            && t.client.shutdown == s.client.shutdown && t.client.closing == s.client.closing
            && |t.upLog| == |s.upLog| + 1 && t.upLog[|s.upLog|].bytes == e.bytes
  {
    hide OnWire, RequestFor;
  }

  /** A first call whose frame the server refuses: the connection is in use and serves nobody new. */
  lemma OversizedFrameBlocks(g: Config, res: Msg, w: Exchange) returns (es: seq<Event>)
    requires Messages.Clean(res) && Messages.Clean(w.base) && Server.HasCodec(g.options.serialize)
    requires Pool.Encodable(g.options, w.call) && OnWire(Request(g, w, 0), w.sent)
    requires !Wire.Fits(g.serverMax, w.sent)
    ensures var s := Exec(g, res, es); InUse(g, s) && !UpFits(g, s) && !NewCallCanBeAnswered(g, s)
  {
    hide Exec, Good, OnWire, Wire.Fits, Messages.Clean, Pool.Encodable, Pool.RequestOf;
    var s;
    es, s := FirstCall(g, res, w.call);
    var e := Write(0, w.base, w.sent, false);
    assert Encodes(g, s, 0) && RequestFor(g, s, 0, w.base) == Request(g, w, 0);
    assert Enabled(g, s, e);
    AfterWrite(g, s, e);
    es, s := Then(g, res, es, s, e);
    hide Next, Enabled;
    EveryRunIsGood(g, res, es);
    NothingNewGetsThrough(g, s);
  }

  lemma NothingNewGetsThrough(g: Config, s: State)
    requires Good(g, s) && s.reader == Reading && !(UpFits(g, s) && DownFits(g, s))
    ensures !NewCallCanBeAnswered(g, s)
  {
    TooLongBlocks(g, s);
    hide Good, From, UpFits, DownFits, Blocked;
    forall es, i: nat ensures !Answered(g, s, es, i) {
      if Answered(g, s, es, i) {
        BlockedForGood(g, s, es, |s.client.calls|);
        BlockedMeans(g, From(g, s, es), |s.client.calls|);
      }
    }
  }

  /** Every positive maximum of the server is exceeded by the frame of some call. */
  lemma EveryLimitCanBlock(g: Config, res: Msg, args: Pool.Value) returns (es: seq<Event>)
    requires Messages.Clean(res) && Server.HasCodec(g.options.serialize) && Pool.Packed(g.options, args).Some?
    requires 0 < g.serverMax && g.serverMax + 16 + |Pool.Packed(g.options, args).value.0| < TWO32
    ensures var s := Exec(g, res, es); InUse(g, s) && !UpFits(g, s) && !NewCallCanBeAnswered(g, s)
  {
    var path := seq(g.serverMax, _ => 65 as bv8);
    var call := Pool.Call(path, [], None, args);
    assert path[0] == 65 && !Pool.IsPing(call);
    var m := Pool.RequestOf(res, 0, call, g.options);
    assert m.metadata == None && m.servicePath == path && m.serviceMethod == [];
    Stream.NoPairs();
    Stream.HasFrame(m, []);
    var w := Exchange(call, res, Wire.FrameOf(m, []), []);
    hide Exec, Wire.FrameOf, Wire.IsEncoding, Pool.RequestOf, InUse, UpFits, NewCallCanBeAnswered, Messages.Clean,
         Pool.Packed;
    es := OversizedFrameBlocks(g, res, w);
  }
}
