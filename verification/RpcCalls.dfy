/** No call is lost: where the completion of a call can be, in every state of every run. */
module RpcCalls {
  import opened Integers
  import opened Rpc
  import opened Wrappers

  import H = Header
  import Pool
  import Server
  import Stream
  import Wire

  type Msg = Wire.Msg

  // -------------------------------------------------------------- bookkeeping

  predicate CallOk(issued: nat, k: CallState) {
    && (k.phase == Fresh ==> k == CallState(k.call, Fresh, None, None, 0, false, false))
    && (k.phase == Registered || k.phase == WriteFailed || k.phase == Sent ==> k.seqNo.Some?)
    && (k.request.Some? ==> k.phase == WriteFailed || k.phase == Sent)
    && (k.seqNo.Some? ==> k.seqNo.value < issued && k.seqNo.value < TWO64)
    && (k.signals == 0 ==> !k.slot && !k.received)
    && (k.signals > 0 ==> k.slot || k.received)
  }

  predicate Known(s: State, c: CallId) {
    c < |s.client.calls| && s.client.calls[c].seqNo.Some?
  }

  /** No two calls share a number, and whoever holds a call holds a registered one. */
  predicate Core(s: State) {
    var k := s.client;
    && k.seqNo == s.issued % TWO64
    && (forall c :: 0 <= c < |k.calls| ==> CallOk(s.issued, k.calls[c]))
    && (forall c, d :: 0 <= c < d < |k.calls| && k.calls[c].seqNo.Some? ==> k.calls[c].seqNo != k.calls[d].seqNo)
    && (forall n :: n in k.pending ==> k.pending[n] < |k.calls| && k.calls[k.pending[n]].seqNo == Some(n))
    && (forall c :: c in s.held ==> Known(s, c))
    && (s.reader.Holding? ==> Known(s, s.reader.call))
  }

  // --------------------------------------------------------- where a completion is

  predicate Pending(s: State, c: CallId) {
    c < |s.client.calls|
    && var n := s.client.calls[c].seqNo;
       n.Some? && n.value in s.client.pending && s.client.pending[n.value] == c
  }

  function One(b: bool): nat {
    if b then 1 else 0
  }

  /** The completions of c given out so far plus those somebody is still bound to give. */
  function Tokens(s: State, c: CallId): nat {
    if c >= |s.client.calls| then 0
    else
      s.client.calls[c].signals + s.held[c] + One(Pending(s, c))
      + One(s.reader.Holding? && s.reader.call == c)
      + One(s.client.calls[c].phase == Signalling)
  }

  /** The events that owe a completion anew: send taking the call in, and two that owe it twice. */
  function Gain(s: State, e: Event, c: CallId): nat {
    One((e.Reject? || e.EncodeFail?) && e.c == c) + One(e.Sweep? && Pending(s, c))
  }

  // ------------------------------------------------------------- what events keep

  /** How the record of a call may change once it exists. */
  predicate Grown(k: CallState, l: CallState) {
    && l.call == k.call && l.seqNo == k.seqNo && k.signals <= l.signals
    && (k.request.Some? ==> l.request == k.request)
    && (k.phase == Fresh ==> l.phase == Fresh || l.phase == Signalling)
    && (k.phase != Fresh ==> l.phase != Fresh)
    && (l.phase == Registered ==> k.phase == Registered)
    && (k.phase == Sent ==> l.phase == Sent)
  }

  /** All events but Issue and Register leave the numbers alone and only move calls about. */
  predicate Rearranged(s: State, t: State) {
    var k, l := s.client, t.client;
    && t.issued == s.issued && l.seqNo == k.seqNo && |l.calls| == |k.calls|
    && (k.shutdown ==> l.shutdown) && (s.reader == Swept ==> t.reader == Swept)
    && (forall c :: 0 <= c < |k.calls| ==> Grown(k.calls[c], l.calls[c]) && CallOk(s.issued, l.calls[c]))
    && (forall n :: n in l.pending ==> n in k.pending && l.pending[n] == k.pending[n])
    && (forall c :: c in t.held ==> Known(s, c))
    && (t.reader.Holding? ==> Known(s, t.reader.call))
  }

  lemma RearrangedKeepsCore(s: State, t: State)
    requires Core(s) && Rearranged(s, t)
    ensures Core(t)
  {
  }

  lemma RearrangedTwice(s: State, t: State, u: State)
    requires Rearranged(s, t) && Rearranged(t, u) && u.client.calls == t.client.calls
    ensures Rearranged(s, u)
  {
  }

  predicate SameHolder(s: State, t: State) {
    t.reader == s.reader || (s.reader == Reading && t.reader == Ended) || (s.reader == Ended && t.reader == Swept)
  }

  /** The wires, the logs and the flags of the client are of no concern here. */
  lemma SameBooks(s: State, t: State, c: CallId)
    requires Core(s)
    requires t.issued == s.issued && t.held == s.held && SameHolder(s, t)
    requires t.client == s.client.(shutdown := t.client.shutdown) && (s.client.shutdown ==> t.client.shutdown)
    ensures Rearranged(s, t) && Tokens(t, c) == Tokens(s, c)
  {
  }

  lemma HoldRearranges(s: State, n: nat)
    requires Core(s)
    ensures Rearranged(s, Hold(s, n))
  {
    if n in s.client.pending {
      assert Known(s, s.client.pending[n]);
      assert Hold(s, n).client.calls == s.client.calls;
    }
  }

  /** Taking a call out of the pending map hands its completion over; nobody else is concerned. */
  lemma HoldTokens(s: State, n: nat, c: CallId)
    requires Core(s)
    ensures Tokens(Hold(s, n), c) == Tokens(s, c)
  {
  }

  lemma CancelLaws(s: State, b: CallId, c: CallId)
    requires Core(s)
    ensures Rearranged(s, CancelStep(s, b))
    ensures Tokens(CancelStep(s, b), c) == Tokens(s, c)
  {
    HoldRearranges(s, 0);
    HoldTokens(s, 0, c);
    RearrangedKeepsCore(s, Hold(s, 0));
    SameBooks(Hold(s, 0), CancelStep(s, b), c);
    RearrangedTwice(s, Hold(s, 0), CancelStep(s, b));
  }

  lemma GrabLaws(s: State, t: State, n: nat, c: CallId)
    requires Core(s) && s.reader == Reading && n in s.client.pending
    requires t.client == Remove(s.client, n) && t.issued == s.issued && t.held == s.held
    requires t.reader.Holding? && t.reader.call == s.client.pending[n]
    ensures Rearranged(s, t)
    ensures Tokens(t, c) == Tokens(s, c)
  {
  }

  /** Signalling everyone in the pending map, with or without emptying it. */
  predicate Crowd(s: State, t: State) {
    && t.issued == s.issued && t.held == s.held && t.client.seqNo == s.client.seqNo
    && t.client.calls == DoneAll(s.client.calls, s.client.pending.Values)
    && (t.client.pending == map[] || t.client.pending == s.client.pending)
    && (s.client.shutdown ==> t.client.shutdown) && SameHolder(s, t)
  }

  lemma CrowdRearranges(s: State, t: State)
    requires Core(s) && Crowd(s, t)
    ensures Rearranged(s, t)
  {
    forall c | 0 <= c < |s.client.calls|
      ensures Grown(s.client.calls[c], t.client.calls[c]) && CallOk(s.issued, t.client.calls[c])
    {
      if c in s.client.pending.Values { assert Pending(s, c); }
    }
  }

  lemma CrowdTokens(s: State, t: State, c: CallId)
    requires Core(s) && Crowd(s, t)
    ensures t.client.pending == map[] ==> Tokens(t, c) == Tokens(s, c)
    ensures t.client.pending == s.client.pending ==> Tokens(t, c) == Tokens(s, c) + One(Pending(s, c))
  {
    assert c in s.client.pending.Values <==> Pending(s, c);
  }

  /** A goroutine that holds call b, or the reader holding it, signals it. */
  predicate Signalled(s: State, t: State, b: CallId) {
    && b < |s.client.calls| && t.issued == s.issued
    && t.client == s.client.(calls := DoneAt(s.client.calls, b))
    && (|| (b in s.held && t.held == s.held - multiset{b} && t.reader == s.reader)
        || (s.reader.Holding? && s.reader.call == b && t.held == s.held && (t.reader == Reading || t.reader == Ended)))
  }

  lemma SignalRearranges(s: State, t: State, b: CallId)
    requires Core(s) && Signalled(s, t, b)
    ensures Rearranged(s, t)
  {
    assert Known(s, b);
    assert forall c :: c in t.held ==> c in s.held;
    assert forall c :: 0 <= c < |s.client.calls| ==> CallOk(s.issued, s.client.calls[c]);
    assert forall c :: c in s.held ==> Known(s, c);
    hide Core;
  }

  lemma SignalTokens(s: State, t: State, b: CallId, c: CallId)
    requires Core(s) && Signalled(s, t, b)
    ensures Tokens(t, c) == Tokens(s, c)
  {
  }

  /** The sending goroutine changes nothing but the record of its call, and the upward stream. */
  predicate OwnRecord(s: State, t: State, b: CallId) {
    && b < |s.client.calls| == |t.client.calls|
    && t.client == s.client.(calls := s.client.calls[b := t.client.calls[b]])
    && t.issued == s.issued && t.held == s.held && t.reader == s.reader
    && Grown(s.client.calls[b], t.client.calls[b]) && CallOk(s.issued, t.client.calls[b])
  }

  lemma OwnRecordLaws(s: State, t: State, b: CallId, c: CallId)
    requires Core(s) && OwnRecord(s, t, b)
    ensures Rearranged(s, t)
    ensures b != c ==> Tokens(t, c) == Tokens(s, c)
    ensures b == c ==>
              Tokens(t, c) + s.client.calls[b].signals + One(s.client.calls[b].phase == Signalling)
              == Tokens(s, c) + t.client.calls[b].signals + One(t.client.calls[b].phase == Signalling)
  {
  }

  // ---------------------------------------------------------------- event by event

  function Issued(s: State, call: Pool.Call): State {
    s.(client := s.client.(calls := s.client.calls + [CallState(call, Fresh, None, None, 0, false, false)]))
  }

  lemma IssueKeepsCore(s: State, call: Pool.Call)
    requires Core(s)
    ensures Core(Issued(s, call))
  {
  }

  lemma IssueTokens(s: State, call: Pool.Call, c: CallId)
    requires Core(s)
    ensures Tokens(Issued(s, call), c) == Tokens(s, c)
  {
    assert |s.client.calls| !in s.held;
  }

  lemma IssueLaws(g: Config, s: State, e: Event, c: CallId)
    requires e.Issue? && Core(s)
    ensures var t, n := Apply(g, s, e), |s.client.calls|;
            && Core(t) && |t.client.calls| == n + 1 && t.client.calls[n].phase == Fresh
            && t.client.calls[..n] == s.client.calls
            && Tokens(t, c) == Tokens(s, c)
  {
    hide Core, Tokens;
    IssueKeepsCore(s, e.call);
    IssueTokens(s, e.call, c);
    assert Apply(g, s, e) == Issued(s, e.call);
  }

  function Registering(s: State, b: CallId): State
    requires b < |s.client.calls|
  {
    s.(client := Enter(s.client, b), issued := s.issued + 1)
  }

  /** A number below 2^64 was never given out before. */
  lemma RegisterKeepsCore(s: State, b: CallId)
    requires Core(s) && InPhase(s, b, Fresh) && s.issued < TWO64
    ensures Core(Registering(s, b))
  {
    assert s.issued % TWO64 == s.issued;
  }

  lemma RegisterTokens(s: State, b: CallId, c: CallId)
    requires Core(s) && InPhase(s, b, Fresh) && s.issued < TWO64
    ensures Tokens(Registering(s, b), c) == Tokens(s, c) + One(b == c)
  {
    assert s.issued % TWO64 == s.issued;
  }

  lemma SenderLaws(g: Config, s: State, e: Event, c: CallId)
    requires e.Reject? || e.EncodeFail? || e.Write? || e.WriteNothing? || e.SelfSignal? || e.Collect?
    requires Core(s) && Enabled(g, s, e)
    ensures Rearranged(s, Apply(g, s, e))
    ensures Tokens(Apply(g, s, e), c) == Tokens(s, c) + Gain(s, e, c)
  {
    hide OnWire, RequestFor, Pool.Encodable, Tokens, Rearranged;
    OwnRecordLaws(s, Apply(g, s, e), e.c, c);
  }

  lemma TakeBackLaws(s: State, b: CallId, c: CallId)
    requires Core(s) && (InPhase(s, b, WriteFailed) || InPhase(s, b, Sent))
    ensures s.client.calls[b].seqNo.Some?
    ensures var t := Hold(SetPhase(s, b, Sent), s.client.calls[b].seqNo.value);
            Rearranged(s, t) && Tokens(t, c) == Tokens(s, c)
  {
    var n := s.client.calls[b].seqNo.value;
    hide Hold, Tokens, Rearranged;
    var t := SetPhase(s, b, Sent);
    OwnRecordLaws(s, t, b, c);
    RearrangedKeepsCore(s, t);
    HoldRearranges(t, n);
    HoldTokens(t, n, c);
    RearrangedTwice(s, t, Hold(t, n));
  }

  lemma TakeStepLaws(g: Config, s: State, goOn: bool, c: CallId)
    requires Core(s) && s.reader == Reading
    ensures Rearranged(s, TakeStep(g, s, goOn))
    ensures Tokens(TakeStep(g, s, goOn), c) == Tokens(s, c)
  {
    hide Wire.Decode, Stream.IsPush, Tokens, Rearranged, Core;
    var t := TakeStep(g, s, goOn);
    if t.reader != s.reader {
      GrabLaws(s, t, H.Seq(Wire.Decode(g.clientMax, s.res, s.down).msg.header), c);
    } else {
      SameBooks(s, t, c);
    }
  }

  lemma ClientLaws(g: Config, s: State, e: Event, c: CallId)
    requires e.TakeBack? || e.Signal? || e.Cancel? || e.MarkShutdown? || e.Evict? || e.Close?
    requires Core(s) && Enabled(g, s, e)
    ensures Rearranged(s, Apply(g, s, e))
    ensures Tokens(Apply(g, s, e), c) == Tokens(s, c) + Gain(s, e, c)
  {
    hide Hold, CancelStep, Tokens, Rearranged, DoneAt, DoneAll, Core;
    var t := Apply(g, s, e);
    match e {
      case TakeBack(b) => TakeBackLaws(s, b, c);
      case Signal(b) => SignalRearranges(s, t, b); SignalTokens(s, t, b, c);
      case Cancel(_) => CancelLaws(s, e.c, c);
      case MarkShutdown => SameBooks(s, t, c);
      case Evict => SameBooks(s, t, c);
      case Close => CrowdRearranges(s, t); CrowdTokens(s, t, c);
    }
  }

  lemma WireLaws(g: Config, s: State, e: Event, c: CallId)
    requires e.ServerRead? || e.ServerAnswer? || e.ReaderTake? || e.ReaderSignal? || e.ReaderFail? || e.Sweep?
    requires Core(s) && Enabled(g, s, e)
    ensures Rearranged(s, Apply(g, s, e))
    ensures Tokens(Apply(g, s, e), c) == Tokens(s, c) + Gain(s, e, c)
  {
    hide Wire.Decode, OnWire, Server.Served, HasBody, TakeStep, Tokens, Rearranged, DoneAt, DoneAll, Core;
    var t := Apply(g, s, e);
    match e {
      case ServerRead(_) => SameBooks(s, t, c);
      case ServerAnswer(_, _, _) => SameBooks(s, t, c);
      case ReaderTake(goOn) => TakeStepLaws(g, s, goOn, c);
      case ReaderSignal => SignalRearranges(s, t, s.reader.call); SignalTokens(s, t, s.reader.call, c);
      case ReaderFail => SameBooks(s, t, c);
      case Sweep => CrowdRearranges(s, t); CrowdTokens(s, t, c);
    }
  }

  /** Every event but Issue and Register, seen from one call. */
  lemma EventLaws(g: Config, s: State, e: Event, c: CallId)
    requires Core(s) && Enabled(g, s, e) && !e.Issue? && !e.Register?
    ensures Rearranged(s, Apply(g, s, e))
    ensures Tokens(Apply(g, s, e), c) == Tokens(s, c) + Gain(s, e, c)
  {
    hide Core, Rearranged, Enabled, Tokens, Apply, Gain;
    match e {
      case Reject(_) => SenderLaws(g, s, e, c);
      case EncodeFail(_) => SenderLaws(g, s, e, c);
      case Write(_, _, _, _) => SenderLaws(g, s, e, c);
      case WriteNothing(_) => SenderLaws(g, s, e, c);
      case SelfSignal(_) => SenderLaws(g, s, e, c);
      case Collect(_) => SenderLaws(g, s, e, c);
      case TakeBack(_) => ClientLaws(g, s, e, c);
      case Signal(_) => ClientLaws(g, s, e, c);
      case Cancel(_) => ClientLaws(g, s, e, c);
      case MarkShutdown => ClientLaws(g, s, e, c);
      case Evict => ClientLaws(g, s, e, c);
      case Close => ClientLaws(g, s, e, c);
      case _ => WireLaws(g, s, e, c);
    }
  }

  /** A call that was taken in never returns to the pending map. */
  lemma NeverPendingAgain(g: Config, s: State, e: Event, c: CallId)
    requires Core(s) && Enabled(g, s, e) && Apply(g, s, e).issued <= TWO64
    requires c < |s.client.calls| && s.client.calls[c].phase != Fresh && !Pending(s, c)
    ensures !Pending(Apply(g, s, e), c)
  {
    if e.Issue? {
      IssueLaws(g, s, e, c);
      assert Apply(g, s, e).client.calls[..|s.client.calls|][c] == s.client.calls[c];
      hide Enabled, Core;
    } else if e.Register? {
      assert Apply(g, s, e) == Registering(s, e.c);
      RegisterKeepsCore(s, e.c);
      hide Enabled, Apply;
    } else {
      EventLaws(g, s, e, c);
      hide Enabled, Apply;
      assert Grown(s.client.calls[c], Apply(g, s, e).client.calls[c]);
    }
  }

  // ------------------------------------------------------------------ whole runs

  /** A call send has taken in has a completion somewhere: exactly one, unless two events owed it anew. */
  predicate TokenLaw(g: Config, s: State) {
    forall c :: 0 <= c < |s.client.calls| ==>
      var k := s.client.calls[c];
      && (k.phase == Fresh ==> Tokens(s, c) == 0)
      && (k.phase != Fresh ==> Tokens(s, c) >= 1)
      && (k.phase != Fresh && Encodes(g, s, c) && s.reader != Swept ==> Tokens(s, c) == 1)
  }

  /** Completions given or owed by somebody other than the pending map and the reader. */
  function Settled(s: State, c: CallId): nat
    requires c < |s.client.calls|
  {
    s.client.calls[c].signals + s.held[c] + One(s.client.calls[c].phase == Signalling)
  }

  predicate SweptLaw(s: State) {
    s.reader == Swept ==>
      && s.client.shutdown
      && forall c :: 0 <= c < |s.client.calls| && s.client.calls[c].phase != Fresh ==> Settled(s, c) >= 1
  }

  predicate Safe(g: Config, s: State) {
    Core(s) && TokenLaw(g, s) && SweptLaw(s)
  }

  /** A completion owed a second time has one of two causes. */
  lemma GainMeans(g: Config, s: State, e: Event, c: CallId)
    requires Core(s) && Enabled(g, s, e) && c < |s.client.calls| && Gain(s, e, c) > 0
    ensures c < |Apply(g, s, e).client.calls|
    ensures var t := Apply(g, s, e);
            || (s.client.calls[c].phase == Fresh && Gain(s, e, c) == 1 && t.client.calls[c].phase == Signalling)
            || (s.client.calls[c].phase != Fresh && (!Encodes(g, s, c) || t.reader == Swept))
  {
    hide OnWire, Wire.Decode, Server.Served;
  }

  lemma TokenLawKept(g: Config, s: State, e: Event)
    requires Core(s) && TokenLaw(g, s) && Enabled(g, s, e) && !e.Issue? && !e.Register?
    ensures TokenLaw(g, Apply(g, s, e))
  {
    var t := Apply(g, s, e);
    EventLaws(g, s, e, 0);
    forall c | 0 <= c < |t.client.calls|
      ensures var k := t.client.calls[c];
              && (k.phase == Fresh ==> Tokens(t, c) == 0)
              && (k.phase != Fresh ==> Tokens(t, c) >= 1)
              && (k.phase != Fresh && Encodes(g, t, c) && t.reader != Swept ==> Tokens(t, c) == 1)
    {
      EventLaws(g, s, e, c);
      if Gain(s, e, c) > 0 { GainMeans(g, s, e, c); }
      assert Grown(s.client.calls[c], t.client.calls[c]);
      hide Enabled, Apply, Gain, Core;
    }
  }

  /** Rearranging makes no call pending and takes back no record. */
  lemma RearrangedCall(s: State, t: State, c: CallId)
    requires Rearranged(s, t) && c < |s.client.calls|
    ensures c < |t.client.calls| && Grown(s.client.calls[c], t.client.calls[c])
    ensures Pending(t, c) ==> Pending(s, c)
  {
  }

  lemma SweptMeans(g: Config, s: State, e: Event)
    requires Enabled(g, s, e) && Apply(g, s, e).reader == Swept
    ensures s.reader == Swept || (e.Sweep? && s.reader == Ended && Apply(g, s, e).client.shutdown
                                  && Apply(g, s, e).client.pending == s.client.pending)
  {
    hide OnWire, Wire.Decode, Server.Served;
  }

  lemma SettledAfterSweep(g: Config, s: State, e: Event, c: CallId)
    requires Safe(g, s) && Enabled(g, s, e) && !e.Issue? && !e.Register? && Apply(g, s, e).reader == Swept
    requires c < |Apply(g, s, e).client.calls| && Apply(g, s, e).client.calls[c].phase != Fresh
    ensures Settled(Apply(g, s, e), c) >= 1
  {
    hide Enabled, Apply, Core, Rearranged, Pending;
    var t := Apply(g, s, e);
    EventLaws(g, s, e, c);
    SameNumberOfCalls(s, t);
    RearrangedCall(s, t, c);
    SweptMeans(g, s, e);
    if s.client.calls[c].phase == Fresh { GainMeans(g, s, e, c); }
  }

  lemma SameNumberOfCalls(s: State, t: State)
    requires Rearranged(s, t)
    ensures |t.client.calls| == |s.client.calls| && (s.client.shutdown ==> t.client.shutdown)
  {
  }

  lemma SweptLawKept(g: Config, s: State, e: Event)
    requires Safe(g, s) && Enabled(g, s, e) && !e.Issue? && !e.Register?
    ensures SweptLaw(Apply(g, s, e))
  {
    hide Enabled, Apply, Core, TokenLaw, Rearranged, Settled;
    var t := Apply(g, s, e);
    if t.reader == Swept {
      SweptMeans(g, s, e);
      EventLaws(g, s, e, 0);
      SameNumberOfCalls(s, t);
      forall c | 0 <= c < |t.client.calls| && t.client.calls[c].phase != Fresh ensures Settled(t, c) >= 1 {
        SettledAfterSweep(g, s, e, c);
      }
    }
  }

  lemma IssueKeepsSafe(g: Config, s: State, e: Event)
    requires e.Issue? && Safe(g, s)
    ensures Safe(g, Apply(g, s, e))
  {
    var t, n := Apply(g, s, e), |s.client.calls|;
    IssueLaws(g, s, e, 0);
    forall c | 0 <= c < n + 1
      ensures c < n ==> t.client.calls[c] == s.client.calls[c] && Tokens(t, c) == Tokens(s, c)
      ensures c == n ==> Tokens(t, c) == 0
    {
      IssueLaws(g, s, e, c);
      if c < n { assert t.client.calls[..n][c] == s.client.calls[c]; }
    }
    hide Core, Enabled;
  }

  lemma RegisterKeepsSafe(g: Config, s: State, b: CallId)
    requires Safe(g, s) && InPhase(s, b, Fresh) && s.issued < TWO64 && !s.client.shutdown
    ensures Safe(g, Registering(s, b))
  {
    RegisterKeepsCore(s, b);
    forall c | 0 <= c < |s.client.calls|
      ensures Tokens(Registering(s, b), c) == Tokens(s, c) + One(b == c)
    {
      RegisterTokens(s, b, c);
    }
    hide Core, Tokens;
  }

  lemma RegisterMeans(g: Config, s: State, c: CallId)
    requires Enabled(g, s, Register(c))
    ensures InPhase(s, c, Fresh) && !s.client.shutdown
    ensures Apply(g, s, Register(c)) == Registering(s, c)
  {
  }

  lemma SafeKept(g: Config, s: State, e: Event)
    requires Safe(g, s) && Enabled(g, s, e) && Apply(g, s, e).issued <= TWO64
    ensures Safe(g, Apply(g, s, e))
  {
    hide Core, TokenLaw, SweptLaw, Enabled, Apply;
    match e {
      case Issue(_) => IssueKeepsSafe(g, s, e);
      case Register(c) =>
        RegisterMeans(g, s, c);
        RegisterKeepsSafe(g, s, c);
      case _ =>
        EventLaws(g, s, e, 0);
        RearrangedKeepsCore(s, Apply(g, s, e));
        TokenLawKept(g, s, e);
        SweptLawKept(g, s, e);
    }
  }

  lemma IssuedGrows(g: Config, s: State, e: Event)
    ensures s.issued <= Next(g, s, e).issued
  {
    hide OnWire, Wire.Decode, Server.Served;
  }

  /**
    Every state of every run with at most 2^64 registrations is safe. Any sequence of events is a
    run, so this covers all interleavings of callers, cancellers, server goroutines, the reader,
    the sweep and close.
  */
  lemma {:induction false} EveryRunIsSafe(g: Config, res: Msg, es: seq<Event>)
    requires Exec(g, res, es).issued <= TWO64
    ensures Safe(g, Exec(g, res, es))
  {
    if es != [] {
      var before, e := es[..|es| - 1], es[|es| - 1];
      var s := Exec(g, res, before);
      IssuedGrows(g, s, e);
      hide Enabled, Apply;
      EveryRunIsSafe(g, res, before);
      if Enabled(g, s, e) { SafeKept(g, s, e); }
    }
  }

  // --------------------------------------------------------------- the theorems

  /**
    No lost call. A call that send has taken in is pending, or held by a goroutine or the reader
    about to signal it, or about to signal itself, or was signalled; a signal that was given is in
    the caller's channel or was received, and before the first one the channel is empty, so the
    first one always finds room.
  */
  lemma NoLostCall(g: Config, res: Msg, es: seq<Event>, c: CallId)
    requires Exec(g, res, es).issued <= TWO64
    requires c < |Exec(g, res, es).client.calls| && Exec(g, res, es).client.calls[c].phase != Fresh
    ensures var s := Exec(g, res, es); var k := s.client.calls[c];
            && (|| Pending(s, c)
                || c in s.held
                || (s.reader.Holding? && s.reader.call == c)
                || k.phase == Signalling
                || k.signals > 0)
            && (k.signals > 0 ==> k.slot || k.received)
            && (k.signals == 0 ==> !k.slot && !k.received)
  {
    hide Exec;
    EveryRunIsSafe(g, res, es);
  }

  /**
    Exactly once, exactly when the code provides it: as long as the reader has not swept, a call
    whose arguments could be encoded has one completion, given or owed; so it is signalled at most
    once, and once it was signalled nobody will signal it again.
  */
  lemma OnceBeforeSweep(g: Config, res: Msg, es: seq<Event>, c: CallId)
    requires Exec(g, res, es).issued <= TWO64 && c < |Exec(g, res, es).client.calls|
    requires Exec(g, res, es).reader != Swept && Encodes(g, Exec(g, res, es), c)
    ensures var s := Exec(g, res, es); var k := s.client.calls[c];
            && k.signals <= 1
            && (k.signals == 1 ==> !Pending(s, c) && c !in s.held && k.phase != Signalling
                                   && !(s.reader.Holding? && s.reader.call == c))
  {
    hide Exec;
    EveryRunIsSafe(g, res, es);
  }

  /** The final sweep is complete: afterwards nothing enters the pending map, and nobody waits in vain. */
  lemma FinalSweepIsComplete(g: Config, res: Msg, es: seq<Event>, e: Event, c: CallId)
    requires Next(g, Exec(g, res, es), e).issued <= TWO64 && Exec(g, res, es).reader == Swept
    ensures var s, t := Exec(g, res, es), Next(g, Exec(g, res, es), e);
            && t.reader == Swept
            && (forall n :: n in t.client.pending ==>
                  n in s.client.pending && t.client.pending[n] == s.client.pending[n])
            && (c < |s.client.calls| && s.client.calls[c].phase != Fresh ==>
                  s.client.calls[c].signals > 0 || c in s.held || s.client.calls[c].phase == Signalling)
  {
    var s := Exec(g, res, es);
    IssuedGrows(g, s, e);
    EveryRunIsSafe(g, res, es);
    hide Exec;
    if Enabled(g, s, e) && !e.Issue? {
      assert !e.Register? by { hide OnWire, Wire.Decode, Server.Served; }
      EventLaws(g, s, e, 0);
      hide Enabled, Apply;
    }
  }

  // ------------------------------------------------------------------- after the end

  /** send takes a call in exactly while the client is neither shut down nor closing and has a codec. */
  lemma AcceptedExactly(g: Config, s: State, c: CallId)
    requires InPhase(s, c, Fresh)
    ensures Enabled(g, s, Register(c)) <==>
              !s.client.shutdown && !s.client.closing && g.options.serialize in {0, 1, 2}
    ensures Enabled(g, s, Reject(c)) <==> !Enabled(g, s, Register(c))
  {
  }

  lemma FlagsStay(g: Config, s: State, e: Event)
    ensures s.client.shutdown ==> Next(g, s, e).client.shutdown
    ensures s.client.closing ==> Next(g, s, e).client.closing
  {
    hide OnWire, Wire.Decode, Server.Served, DoneAll;
  }

  /** Once the client is shut down or closing it stays so, and nothing enters the pending map. */
  lemma NothingEntersAfterTheEnd(g: Config, s: State, e: Event)
    requires Core(s) && (s.client.shutdown || s.client.closing)
    ensures var t := Next(g, s, e);
            && (t.client.shutdown || t.client.closing)
            && forall n :: n in t.client.pending ==>
                 n in s.client.pending && t.client.pending[n] == s.client.pending[n]
  {
    FlagsStay(g, s, e);
    if Enabled(g, s, e) && !e.Issue? {
      NotRegistering(g, s, e);
      EventLaws(g, s, e, 0);
      hide Enabled, Apply;
    } else {
      hide Apply;
      if e.Issue? { IssueOnlyAdds(g, s, e); }
    }
  }

  lemma NotRegistering(g: Config, s: State, e: Event)
    requires Enabled(g, s, e) && (s.client.shutdown || s.client.closing)
    ensures !e.Register?
  {
    hide OnWire, Wire.Decode, Server.Served;
  }

  lemma IssueOnlyAdds(g: Config, s: State, e: Event)
    requires e.Issue?
    ensures Enabled(g, s, e) && Apply(g, s, e).client.pending == s.client.pending
  {
  }

  /** Close of the client itself only marks it; eviction only takes it out of the parent's cache. */
  lemma MarkAndEvict(g: Config, s: State)
    ensures Next(g, s, MarkShutdown) == s.(client := s.client.(shutdown := true))
    ensures Next(g, s, Evict) == s.(cached := false)
  {
  }

  /** Receiving from the Done channel empties its one slot; only then is there room for a second signal. */
  lemma ReceiveEmpties(g: Config, s: State, c: CallId)
    requires c < |s.client.calls| && s.client.calls[c].slot
    ensures var t := Next(g, s, Collect(c));
            && t.client.calls[c] == s.client.calls[c].(slot := false, received := true)
            && t.client.calls == s.client.calls[c := t.client.calls[c]]
  {
  }

  /** close empties the pending map, signals everyone in it once and leaves the client ended. */
  lemma CloseEnds(g: Config, s: State)
    requires Core(s) && s.cached
    ensures var t := Next(g, s, Close);
            && t.client.pending == map[] && (t.client.closing || t.client.shutdown) && !t.cached
            && |t.client.calls| == |s.client.calls|
            && forall c: CallId :: c < |s.client.calls| ==>
                 t.client.calls[c].signals == s.client.calls[c].signals + One(Pending(s, c))
  {
    forall c: CallId | c < |s.client.calls| ensures c in s.client.pending.Values <==> Pending(s, c) {
      if Pending(s, c) { assert s.client.pending[s.client.calls[c].seqNo.value] == c; }
    }
    hide Pending, Core;
  }
}
