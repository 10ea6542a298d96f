/**
  Calls over one connection: the client's bookkeeping, the two byte streams and the server's
  goroutines, as one transition system.

  Every section of client/client.go that runs under the mutex, every write to and read from the
  connection and every call of done() is one atomic event; any sequence of events is a run. The
  logs of frames under way carry the call a frame belongs to. They are history only: no event
  looks at them to decide anything.
*/
module Rpc {
  import opened Bytes
  import opened Integers
  import opened Wrappers

  import H = Header
  import Messages
  import Pool
  import Server
  import Serving
  import Stream
  import Wire

  type CallId = nat
  type Msg = Wire.Msg

  // ---------------------------------------------------------------- the client

  /** Where the goroutine that executes send for a call stands. */
  datatype Phase =
    | Fresh         // send has not locked the client yet
    | Registered    // in the pending map, not written yet
    | WriteFailed   // conn.Write returned an error
    | Sent          // written; the pooled request is being given back
    | Signalling    // refused or not encodable, about to call done() on itself
    | Finished

  datatype CallState = CallState(
    call: Pool.Call,
    phase: Phase,
    seqNo: Option<nat>,        // the number it is registered under
    request: Option<Msg>,      // the message written for it
    signals: nat,              // how often done() was called
    slot: bool,                // the one-slot Done channel holds the call
    received: bool)            // the caller has taken it out

  datatype Client = Client(
    seqNo: nat,
    pending: map<nat, CallId>,
    closing: bool,
    shutdown: bool,
    calls: seq<CallState>)

  /** Call.done on a channel with one slot: fill it, or drop the signal when it is full. */
  function Done(k: CallState): CallState {
    k.(signals := k.signals + 1, slot := true)
  }

  function DoneAt(calls: seq<CallState>, c: CallId): (r: seq<CallState>)
    requires c < |calls|
    ensures |r| == |calls|
  {
    calls[c := Done(calls[c])]
  }

  /** done() for every call in ids. */
  function DoneAll(calls: seq<CallState>, ids: set<CallId>): (r: seq<CallState>)
    ensures |r| == |calls|
  {
    seq(|calls|, i requires 0 <= i < |calls| => if i in ids then Done(calls[i]) else calls[i])
  }

  /** The map assignment of send, with the uint64 counter. */
  function Enter(k: Client, c: CallId): Client
    requires c < |k.calls|
  {
    k.(seqNo := (k.seqNo + 1) % TWO64,
       pending := k.pending[k.seqNo := c],
       calls := k.calls[c := k.calls[c].(phase := Registered, seqNo := Some(k.seqNo))])
  }

  /** call := pending[n]; delete(pending, n) */
  function Remove(k: Client, n: nat): Client {
    k.(pending := k.pending - {n})
  }

  /** The final section of handleResponse: everyone is signalled, nobody is removed. */
  function SweepAll(k: Client): Client {
    k.(shutdown := true, calls := DoneAll(k.calls, k.pending.Values))
  }

  /** close(): everyone is signalled and removed. */
  function CloseAll(k: Client): Client {
    k.(calls := DoneAll(k.calls, k.pending.Values), pending := map[],
       closing := k.closing || !k.shutdown)
  }

  // ------------------------------------------------------------ the connection

  datatype Reader =
    | Reading
    | Holding(call: CallId, run: nat, reply: Msg, goOn: bool)   // took the call, about to signal it
    | Ended                                                     // left the loop, about to sweep
    | Swept

  /** A frame under way; tag is the call that sent it or the server goroutine that wrote it. */
  datatype Frame = Frame(tag: nat, msg: Msg, bytes: Bytes)

  /** A reply delivered to a call, and the goroutine that wrote it. */
  datatype Completion = Completion(call: CallId, run: nat, reply: Msg)

  /** A cancelled caller, and the call it took out of the pending map. */
  datatype Cancelled = Cancelled(canceller: CallId, taken: CallId)

  datatype State = State(
    client: Client,
    cached: bool,                   // the client stands in a parent's cache, so close may still come
    issued: nat,                    // registrations so far
    held: multiset<CallId>,         // calls taken by cancelling or writing goroutines, not signalled yet
    cancels: seq<Cancelled>,
    reader: Reader,
    res: Msg,                       // the reader's reused message
    up: Bytes, upLog: seq<Frame>,   // client to server
    down: Bytes, downLog: seq<Frame>,
    work: Serving.Work,             // the server's goroutines
    senders: seq<CallId>,           // whose frames the server has read, in the order of work.read
    taken: seq<nat>,                // the goroutines whose answers the reader has read
    completed: seq<Completion>)

  /**
    The two ends have a MaxMessageLength each. A client is in a parent's cache or was connected
    directly. send looks at the one-way flag of a message it has already given back to the pool;
    oneway says whether somebody in the process may decode a one-way request into it by then.
  */
  datatype Config = Config(
    registry: Server.Registry, options: Pool.Options,
    serverMax: int, clientMax: int, cached: bool, oneway: bool)

  datatype Event =
    | Issue(call: Pool.Call)
    | Reject(c: CallId)
    | Register(c: CallId)
    | EncodeFail(c: CallId)
    | Write(c: CallId, base: Msg, bytes: Bytes, failed: bool)
    | WriteNothing(c: CallId)
    | TakeBack(c: CallId)
    | SelfSignal(c: CallId)
    | Signal(c: CallId)
    | Cancel(c: CallId)
    | MarkShutdown
    | Evict
    | Close
    | Collect(c: CallId)
    | ServerRead(base: Msg)
    | ServerAnswer(i: nat, bytes: Bytes, lost: bool)
    | ReaderTake(goOn: bool)
    | ReaderSignal
    | ReaderFail
    | Sweep

  function Start(g: Config, res: Msg): State {
    State(Client(0, map[], false, false, []), g.cached, 0, multiset{}, [], Reading, res,
          [], [], [], [], Serving.Work([], [], []), [], [], [])
  }

  predicate InPhase(s: State, c: CallId, p: Phase) {
    c < |s.client.calls| && s.client.calls[c].phase == p
  }

  /** send goes past its two checks. */
  predicate Accepting(g: Config, k: Client) {
    !k.shutdown && !k.closing && Server.HasCodec(g.options.serialize)
  }

  /** The arguments of call c can be encoded. */
  predicate Encodes(g: Config, s: State, c: CallId) {
    c < |s.client.calls| && Pool.Encodable(g.options, s.client.calls[c].call)
  }

  function RequestFor(g: Config, s: State, c: CallId, base: Msg): Msg
    requires Encodes(g, s, c)
  {
    var k := s.client.calls[c];
    Pool.RequestOf(base, if k.seqNo.Some? then k.seqNo.value % TWO64 else 0, k.call, g.options)
  }

  /** A reply whose payload may fail to decode: the only way a delivered reply ends the loop. */
  predicate HasBody(r: Msg) {
    H.StatusType(r.header) != H.ERROR && !H.IsHeartbeat(r.header) && r.payload != []
  }

  /** bytes are m on the wire. */
  ghost predicate OnWire(m: Msg, bytes: Bytes) {
    Wire.IsEncoding(m, bytes) && Wire.Sized(bytes)
  }

  /** What the goroutine at place i of the unfinished ones writes. */
  function AnswerOf(g: Config, s: State, i: nat): Option<Msg>
    requires i < |s.work.open| && s.work.open[i] < |s.work.read|
  {
    Server.Served(g.registry, s.work.read[s.work.open[i]], s.work.open[i])
  }

  ghost predicate Enabled(g: Config, s: State, e: Event) {
    match e
    case Issue(_) => true
    case Reject(c) => InPhase(s, c, Fresh) && !Accepting(g, s.client)
    case Register(c) => InPhase(s, c, Fresh) && Accepting(g, s.client)
    case EncodeFail(c) => InPhase(s, c, Registered) && !Encodes(g, s, c)
    case Write(c, base, bytes, _) =>
      && InPhase(s, c, Registered) && Encodes(g, s, c) && Messages.Clean(base)
      && OnWire(RequestFor(g, s, c, base), bytes)
    case WriteNothing(c) => InPhase(s, c, Registered) && Encodes(g, s, c)
    case TakeBack(c) => InPhase(s, c, WriteFailed) || (InPhase(s, c, Sent) && g.oneway)
    case SelfSignal(c) => InPhase(s, c, Signalling)
    case Signal(c) => c in s.held && c < |s.client.calls|
    case Cancel(c) => (InPhase(s, c, Sent) || InPhase(s, c, Finished)) && !s.client.calls[c].received
    case MarkShutdown => true
    case Evict => true
    case Close => s.cached
    case Collect(c) => c < |s.client.calls| && s.client.calls[c].slot
    case ServerRead(base) =>
      Messages.Clean(base) && Wire.Decode(g.serverMax, base, s.up).outcome == Wire.Ok
    case ServerAnswer(i, bytes, _) =>
      && i < |s.work.open| && s.work.open[i] < |s.work.read|
      && (AnswerOf(g, s, i).Some? ==> OnWire(AnswerOf(g, s, i).value, bytes))
    case ReaderTake(goOn) =>
      && s.reader == Reading
      && var d := Wire.Decode(g.clientMax, s.res, s.down);
         d.outcome == Wire.Ok && (!goOn ==> HasBody(d.msg))
    case ReaderSignal => s.reader.Holding? && s.reader.call < |s.client.calls|
    case ReaderFail => s.reader == Reading
    case Sweep => s.reader == Ended
  }

  function SetPhase(s: State, c: CallId, p: Phase): State
    requires c < |s.client.calls|
  {
    s.(client := s.client.(calls := s.client.calls[c := s.client.calls[c].(phase := p)]))
  }

  /** The call registered under n, if any, moves from the pending map into the hands of a goroutine. */
  function Hold(s: State, n: nat): State {
    if n !in s.client.pending then s
    else s.(client := Remove(s.client, n), held := s.held + multiset{s.client.pending[n]})
  }

  /** The context that would carry the caller's number is discarded, so it looks under 0. */
  function CancelStep(s: State, c: CallId): State {
    if 0 !in s.client.pending then s
    else Hold(s, 0).(cancels := s.cancels + [Cancelled(c, s.client.pending[0])])
  }

  function Tag(log: seq<Frame>): nat {
    if log == [] then 0 else log[0].tag
  }

  function Rest(log: seq<Frame>): seq<Frame> {
    if log == [] then [] else log[1..]
  }

  ghost function WriteStep(g: Config, s: State, e: Event): State
    requires e.Write? && Encodes(g, s, e.c)
  {
    var m := RequestFor(g, s, e.c, e.base);
    var k := s.client.calls[e.c].(request := Some(m), phase := if e.failed then WriteFailed else Sent);
    s.(client := s.client.(calls := s.client.calls[e.c := k]),
       up := s.up + e.bytes, upLog := s.upLog + [Frame(e.c, m, e.bytes)])
  }

  /** decodeRequest into a pooled message, and the goroutine started for it. */
  ghost function ReadStep(g: Config, s: State, base: Msg): State {
    var d := Wire.Decode(g.serverMax, base, s.up);
    s.(up := d.rest, upLog := Rest(s.upLog),
       work := Serving.Accept(s.work, d.msg), senders := s.senders + [Tag(s.upLog)])
  }

  ghost function AnswerStep(g: Config, s: State, e: Event): State
    requires e.ServerAnswer? && e.i < |s.work.open| && s.work.open[e.i] < |s.work.read|
  {
    var t := s.(work := Serving.Finish(g.registry, s.work, e.i, e.lost));
    match AnswerOf(g, s, e.i)
    case None => t
    case Some(a) =>
      if e.lost then t
      else t.(down := t.down + e.bytes, downLog := t.downLog + [Frame(s.work.open[e.i], a, e.bytes)])
  }

  /** One turn of the reading loop up to the point where it holds a call. */
  ghost function TakeStep(g: Config, s: State, goOn: bool): State {
    var d := Wire.Decode(g.clientMax, s.res, s.down);
    var t := s.(down := d.rest, downLog := Rest(s.downLog), taken := s.taken + [Tag(s.downLog)]);
    if Stream.IsPush(d.msg.header) then t.(res := d.msg)
    else
      var n := H.Seq(d.msg.header);
      if n !in s.client.pending then t.(res := Messages.Cleared(d.msg))
      else t.(client := Remove(s.client, n), res := d.msg,
              reader := Holding(s.client.pending[n], Tag(s.downLog), d.msg, goOn))
  }

  ghost function Apply(g: Config, s: State, e: Event): State
    requires Enabled(g, s, e)
  {
    match e
    case Issue(call) =>
      s.(client := s.client.(calls := s.client.calls
           + [CallState(call, Fresh, None, None, 0, false, false)]))
    case Reject(c) => SetPhase(s, c, Signalling)
    case Register(c) => s.(client := Enter(s.client, c), issued := s.issued + 1)
    case EncodeFail(c) => SetPhase(s, c, Signalling)
    case Write(_, _, _, _) => WriteStep(g, s, e)
    case WriteNothing(c) => SetPhase(s, c, WriteFailed)
    case TakeBack(c) =>
      var t := SetPhase(s, c, Sent);
      var n := s.client.calls[c].seqNo;
      if n.Some? then Hold(t, n.value) else t
    case SelfSignal(c) =>
      SetPhase(s.(client := s.client.(calls := DoneAt(s.client.calls, c))), c, Finished)
    case Signal(c) =>
      s.(held := s.held - multiset{c}, client := s.client.(calls := DoneAt(s.client.calls, c)))
    case Cancel(c) => CancelStep(s, c)
    case MarkShutdown => s.(client := s.client.(shutdown := true))
    case Evict => s.(cached := false)
    case Close => s.(client := CloseAll(s.client), cached := false)
    case Collect(c) =>
      s.(client := s.client.(calls := s.client.calls[c := s.client.calls[c].(slot := false, received := true)]))
    case ServerRead(base) => ReadStep(g, s, base)
    case ServerAnswer(_, _, _) => AnswerStep(g, s, e)
    case ReaderTake(goOn) => TakeStep(g, s, goOn)
    case ReaderSignal =>
      s.(client := s.client.(calls := DoneAt(s.client.calls, s.reader.call)),
         completed := s.completed + [Completion(s.reader.call, s.reader.run, s.reader.reply)],
         res := Messages.Cleared(s.reader.reply),
         reader := if s.reader.goOn then Reading else Ended)
    case ReaderFail => s.(reader := Ended)
    case Sweep => s.(client := SweepAll(s.client), reader := Swept)
  }

  /** An event that is not possible in a state leaves it as it is. */
  ghost function Next(g: Config, s: State, e: Event): State {
    if Enabled(g, s, e) then Apply(g, s, e) else s
  }

  ghost function Exec(g: Config, res: Msg, es: seq<Event>): State {
    if es == [] then Start(g, res) else Next(g, Exec(g, res, es[..|es| - 1]), es[|es| - 1])
  }
}
