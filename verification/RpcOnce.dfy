/**
  How often a call is signalled. The client does not provide exactly-once completion; this module
  says for which calls in which states it does, and that every completion owed can be delivered.
*/
module RpcOnce {
  import opened Integers
  import opened Rpc
  import opened RpcCalls
  import opened Wrappers

  import Pool
  import Server
  import Wire

  type Msg = Wire.Msg

  // ------------------------------------------------------------------ continuing a run

  /** A run that goes on from state s. */
  ghost function From(g: Config, s: State, es: seq<Event>): State {
    if es == [] then s else Next(g, From(g, s, es[..|es| - 1]), es[|es| - 1])
  }

  lemma {:induction false} FromContinues(g: Config, res: Msg, es: seq<Event>, more: seq<Event>)
    ensures Exec(g, res, es + more) == From(g, Exec(g, res, es), more)
  {
    hide Next;
    if more == [] {
      assert es + more == es;
    } else {
      var n := |more| - 1;
      FromContinues(g, res, es, more[..n]);
      assert (es + more)[..|es| + n] == es + more[..n];
    }
  }

  lemma {:induction false} FromConcat(g: Config, s: State, a: seq<Event>, b: seq<Event>)
    ensures From(g, s, a + b) == From(g, From(g, s, a), b)
  {
    hide Next;
    if b == [] {
      assert a + b == a;
    } else {
      var n := |b| - 1;
      FromConcat(g, s, a, b[..n]);
      assert (a + b)[..|a| + n] == a + b[..n];
    }
  }

  lemma FromOne(g: Config, s: State, e: Event)
    ensures From(g, s, [e]) == Next(g, s, e)
  {
    hide Next;
    assert [e][..0] == [];
    assert From(g, s, []) == s;
  }

  /** State t follows s by a run of more events that registers no call. */
  ghost predicate Reaches(g: Config, s: State, t: State) {
    t.issued == s.issued && exists es :: From(g, s, es) == t
  }

  lemma ReachesItself(g: Config, s: State)
    ensures Reaches(g, s, s)
  {
    assert From(g, s, []) == s;
  }

  lemma ReachesByOne(g: Config, s: State, e: Event)
    requires Next(g, s, e).issued == s.issued
    ensures Reaches(g, s, Next(g, s, e))
  {
    hide Next;
    FromOne(g, s, e);
  }

  lemma ReachesOn(g: Config, s: State, t: State, u: State)
    requires Reaches(g, s, t) && Reaches(g, t, u)
    ensures Reaches(g, s, u)
  {
    hide From;
    var a :| From(g, s, a) == t;
    var b :| From(g, t, b) == u;
    FromConcat(g, s, a, b);
  }

  // --------------------------------------------------------------- what a call is owed

  /** The completions of c given out plus those a goroutine is bound to give. */
  function Owed(s: State, c: CallId): nat
    requires c < |s.client.calls|
  {
    Settled(s, c) + One(s.reader.Holding? && s.reader.call == c)
  }

  lemma TokensAreOwed(s: State, c: CallId)
    requires c < |s.client.calls|
    ensures Tokens(s, c) == Owed(s, c) + One(Pending(s, c))
  {
  }

  predicate Refused(p: Phase) {
    p == Signalling || p == Finished
  }

  predicate Written(p: Phase) {
    p == WriteFailed || p == Sent
  }

  /** How the phase of a call may change: k before, l after, ok if its arguments can be encoded. */
  predicate Moves(k: CallState, l: CallState, ok: bool, failed: bool) {
    && l.call == k.call
    && (|| (l.phase == k.phase && l.seqNo == k.seqNo)
        || (k.phase == Fresh && (l.phase == Registered || (l.phase == Signalling && l.seqNo == None)))
        || (k.phase == Registered && ok && Written(l.phase) && l.seqNo == k.seqNo)
        || (k.phase == Registered && failed && l.phase == Signalling && l.seqNo == k.seqNo)
        || (k.phase == WriteFailed && l.phase == Sent && l.seqNo == k.seqNo)
        || (k.phase == Signalling && l.phase == Finished && l.seqNo == k.seqNo))
  }

  lemma OwnMove(s: State, t: State, b: CallId, ok: bool, failed: bool, c: CallId)
    requires b < |s.client.calls| == |t.client.calls| && c < |s.client.calls|
    requires t.client.calls == s.client.calls[b := t.client.calls[b]]
    requires b == c ==> Moves(s.client.calls[b], t.client.calls[b], ok, failed)
    ensures Moves(s.client.calls[c], t.client.calls[c], ok, failed)
  {
  }

  lemma FirstMoves(g: Config, s: State, e: Event, c: CallId)
    requires e.Reject? || e.Register? || e.Signal? || e.Collect?
    requires Core(s) && Enabled(g, s, e) && c < |s.client.calls|
    ensures c < |Apply(g, s, e).client.calls|
    ensures Moves(s.client.calls[c], Apply(g, s, e).client.calls[c], Encodes(g, s, c), e == EncodeFail(c))
  {
    OwnMove(s, Apply(g, s, e), e.c, Encodes(g, s, c), e == EncodeFail(c), c);
    hide Enabled, Apply, Core, Encodes, Moves;
  }

  lemma LastMoves(g: Config, s: State, e: Event, c: CallId)
    requires e.TakeBack? || e.SelfSignal?
    requires Core(s) && Enabled(g, s, e) && c < |s.client.calls|
    ensures c < |Apply(g, s, e).client.calls|
    ensures Moves(s.client.calls[c], Apply(g, s, e).client.calls[c], Encodes(g, s, c), e == EncodeFail(c))
  {
    OwnMove(s, Apply(g, s, e), e.c, Encodes(g, s, c), e == EncodeFail(c), c);
    hide Enabled, Apply, Core, Encodes, Moves;
  }

  lemma WritingMoves(g: Config, s: State, e: Event, c: CallId)
    requires e.EncodeFail? || e.Write? || e.WriteNothing?
    requires Enabled(g, s, e) && c < |s.client.calls|
    ensures c < |Apply(g, s, e).client.calls|
    ensures Moves(s.client.calls[c], Apply(g, s, e).client.calls[c], Encodes(g, s, c), e == EncodeFail(c))
  {
    hide OnWire, RequestFor, Pool.Encodable;
    OwnMove(s, Apply(g, s, e), e.c, Encodes(g, s, c), e == EncodeFail(c), c);
    hide Enabled, Apply, Encodes, Moves;
  }

  lemma CrowdMoves(g: Config, s: State, e: Event, c: CallId)
    requires e.Issue? || e.Close? || e.Sweep? || e.ReaderSignal?
    requires Enabled(g, s, e) && c < |s.client.calls|
    ensures c < |Apply(g, s, e).client.calls|
    ensures Moves(s.client.calls[c], Apply(g, s, e).client.calls[c], false, false)
  {
  }

  lemma SameCalls(g: Config, s: State, e: Event)
    requires e.Cancel? || e.MarkShutdown? || e.Evict? || e.ServerRead? || e.ServerAnswer? || e.ReaderTake?
             || e.ReaderFail?
    requires Enabled(g, s, e)
    ensures Apply(g, s, e).client.calls == s.client.calls
  {
    hide OnWire, Wire.Decode, Server.Served;
  }

  lemma EveryMove(g: Config, s: State, e: Event, c: CallId)
    requires Core(s) && Enabled(g, s, e) && c < |s.client.calls|
    ensures c < |Apply(g, s, e).client.calls|
    ensures Moves(s.client.calls[c], Apply(g, s, e).client.calls[c], Encodes(g, s, c), e == EncodeFail(c))
    ensures Encodes(g, Apply(g, s, e), c) == Encodes(g, s, c)
  {
    hide Enabled, Apply, Core, Pool.Encodable;
    match e {
      case Reject(_) => FirstMoves(g, s, e, c);
      case Register(_) => FirstMoves(g, s, e, c);
      case TakeBack(_) => LastMoves(g, s, e, c);
      case SelfSignal(_) => LastMoves(g, s, e, c);
      case Signal(_) => FirstMoves(g, s, e, c);
      case Collect(_) => FirstMoves(g, s, e, c);
      case EncodeFail(_) => WritingMoves(g, s, e, c);
      case Write(_, _, _, _) => WritingMoves(g, s, e, c);
      case WriteNothing(_) => WritingMoves(g, s, e, c);
      case Issue(_) => CrowdMoves(g, s, e, c);
      case Close => CrowdMoves(g, s, e, c);
      case Sweep => CrowdMoves(g, s, e, c);
      case ReaderSignal => CrowdMoves(g, s, e, c);
      case _ => SameCalls(g, s, e);
    }
  }

  /** The completions of a call no event registers, refuses or fails to encode, and its place. */
  lemma TokensMove(g: Config, s: State, e: Event, c: CallId)
    requires Core(s) && Enabled(g, s, e) && Apply(g, s, e).issued <= TWO64
    requires c < |s.client.calls| && s.client.calls[c].phase != Fresh
    ensures Tokens(Apply(g, s, e), c) == Tokens(s, c) + Gain(s, e, c)
    ensures Pending(Apply(g, s, e), c) ==> Pending(s, c)
  {
    if !Pending(s, c) { NeverPendingAgain(g, s, e, c); }
    if e.Issue? {
      IssueLaws(g, s, e, c);
    } else if e.Register? {
      assert Apply(g, s, e) == Registering(s, e.c);
      RegisterTokens(s, e.c, c);
    } else {
      EventLaws(g, s, e, c);
    }
    hide Enabled, Apply, Core, Tokens, Pending;
  }

  /** The two events that owe a taken-in call a completion anew. */
  lemma WhoGains(g: Config, s: State, e: Event, c: CallId)
    requires Enabled(g, s, e) && c < |s.client.calls| && s.client.calls[c].phase != Fresh
    ensures Gain(s, e, c) == One(e == EncodeFail(c)) + One(e.Sweep? && Pending(s, c))
    ensures e == EncodeFail(c) ==>
              s.client.calls[c].phase == Registered && !Encodes(g, s, c) && Apply(g, s, e).reader == s.reader
    ensures e.Sweep? ==> s.reader != Swept
  {
    hide OnWire, Wire.Decode, Server.Served, Pool.Encodable;
  }

  // -------------------------------------------------------------- written and refused calls

  /** What is written could be encoded; what failed to encode is owed one completion too many. */
  predicate PhaseLaw(g: Config, s: State, c: CallId)
    requires c < |s.client.calls|
  {
    var k := s.client.calls[c];
    && (Written(k.phase) ==> Encodes(g, s, c))
    && (Refused(k.phase) && k.seqNo.Some? ==> Tokens(s, c) >= 2 + One(s.reader == Swept && Pending(s, c)))
  }

  predicate Sound(g: Config, s: State) {
    Safe(g, s) && forall c :: 0 <= c < |s.client.calls| ==> PhaseLaw(g, s, c)
  }

  /** What Safe says of one call that send has taken in. */
  lemma SafeMeans(g: Config, s: State, c: CallId)
    requires Safe(g, s) && c < |s.client.calls| && s.client.calls[c].phase != Fresh
    ensures Core(s) && Tokens(s, c) >= 1
    ensures Encodes(g, s, c) && s.reader != Swept ==> Tokens(s, c) == 1
    ensures s.reader == Swept ==> s.client.shutdown && Owed(s, c) >= 1
  {
    hide Core, Tokens;
  }

  lemma SoundMeans(g: Config, s: State, c: CallId)
    requires Sound(g, s) && c < |s.client.calls|
    ensures Safe(g, s) && Core(s) && PhaseLaw(g, s, c)
  {
    hide Core, PhaseLaw;
  }

  /** The law for a call that send has taken in. */
  lemma TakenInPhaseLaw(g: Config, s: State, e: Event, c: CallId)
    requires Sound(g, s) && Enabled(g, s, e) && Apply(g, s, e).issued <= TWO64
    requires c < |s.client.calls| && s.client.calls[c].phase != Fresh
    ensures c < |Apply(g, s, e).client.calls| && PhaseLaw(g, Apply(g, s, e), c)
  {
    hide Sound, Safe, Enabled, Apply, Core, Tokens, Pending, Gain, Owed, Encodes;
    SoundMeans(g, s, c);
    EveryMove(g, s, e, c);
    TokensMove(g, s, e, c);
    WhoGains(g, s, e, c);
    SafeMeans(g, s, c);
    TokensAreOwed(s, c);
    if Apply(g, s, e).reader == Swept { SweptMeans(g, s, e); }
  }

  lemma PhaseLawKept(g: Config, s: State, e: Event, c: CallId)
    requires Sound(g, s) && Enabled(g, s, e) && Apply(g, s, e).issued <= TWO64
    requires c < |Apply(g, s, e).client.calls|
    ensures PhaseLaw(g, Apply(g, s, e), c)
  {
    hide Enabled, Apply, Core, TokenLaw, SweptLaw, Tokens, Encodes;
    if c >= |s.client.calls| {
      NewcomerIsFresh(g, s, e, c);
    } else if s.client.calls[c].phase != Fresh {
      hide Sound, PhaseLaw;
      TakenInPhaseLaw(g, s, e, c);
    } else {
      EveryMove(g, s, e, c);
    }
  }

  lemma NewcomerIsFresh(g: Config, s: State, e: Event, c: CallId)
    requires Core(s) && Enabled(g, s, e) && |s.client.calls| <= c < |Apply(g, s, e).client.calls|
    ensures Apply(g, s, e).client.calls[c].phase == Fresh
  {
    if !e.Issue? && !e.Register? { EventLaws(g, s, e, 0); }
    hide OnWire, Wire.Decode, Server.Served, Core;
  }

  lemma SoundKept(g: Config, s: State, e: Event)
    requires Sound(g, s) && Next(g, s, e).issued <= TWO64
    ensures Sound(g, Next(g, s, e))
  {
    hide Enabled, Apply, Core, TokenLaw, SweptLaw, PhaseLaw;
    if Enabled(g, s, e) {
      SafeKept(g, s, e);
      forall c | 0 <= c < |Apply(g, s, e).client.calls| ensures PhaseLaw(g, Apply(g, s, e), c) {
        PhaseLawKept(g, s, e, c);
      }
    }
  }

  lemma {:induction false} EveryRunIsSound(g: Config, res: Msg, es: seq<Event>)
    requires Exec(g, res, es).issued <= TWO64
    ensures Sound(g, Exec(g, res, es))
  {
    if es != [] {
      var before, e := es[..|es| - 1], es[|es| - 1];
      hide Next, Sound;
      IssuedGrows(g, Exec(g, res, before), e);
      EveryRunIsSound(g, res, before);
      SoundKept(g, Exec(g, res, before), e);
    }
  }

  // ------------------------------------------------------------- delivering what is owed

  /** Nobody but cancelling and writing goroutines, and the pending map, still owes c a completion. */
  predicate OnlyHeld(s: State, c: CallId) {
    && Core(s) && c < |s.client.calls|
    && !s.reader.Holding? && s.client.calls[c].phase != Signalling
  }

  /** One signalling event keeps the number of completions owed. */
  lemma SignallingKeeps(g: Config, s: State, e: Event, c: CallId)
    requires Core(s) && c < |s.client.calls|
    requires e == ReaderSignal || e == SelfSignal(c) || e == Signal(c)
    ensures var t := Next(g, s, e);
            && Core(t) && |t.client.calls| == |s.client.calls| && t.issued == s.issued
            && Owed(t, c) == Owed(s, c)
  {
    hide Enabled, Apply, Core, Tokens, Owed, Pending;
    var t := Next(g, s, e);
    if Enabled(g, s, e) {
      EventLaws(g, s, e, c);
      RearrangedKeepsCore(s, t);
      RearrangedCall(s, t, c);
      SignallingKeepsPending(g, s, e, c);
      TokensAreOwed(s, c);
      TokensAreOwed(t, c);
    }
  }

  lemma SignallingKeepsPending(g: Config, s: State, e: Event, c: CallId)
    requires c < |s.client.calls| && (e == ReaderSignal || e == SelfSignal(c) || e == Signal(c)) && Enabled(g, s, e)
    ensures var t := Apply(g, s, e);
            Pending(t, c) == Pending(s, c) && |t.client.calls| == |s.client.calls| && t.issued == s.issued
  {
  }

  lemma {:induction false} DeliverHeld(g: Config, s: State, c: CallId) returns (es: seq<Event>)
    requires OnlyHeld(s, c)
    ensures var t := From(g, s, es);
            c < |t.client.calls| && t.issued == s.issued && t.client.calls[c].signals == Owed(s, c)
    decreases s.held[c]
  {
    es := [];
    if s.held[c] > 0 {
      var t := Next(g, s, Signal(c));
      SignallingKeeps(g, s, Signal(c), c);
      hide Core;
      var rest := DeliverHeld(g, t, c);
      FromOne(g, s, Signal(c));
      FromConcat(g, s, [Signal(c)], rest);
      es := [Signal(c)] + rest;
    }
  }

  lemma AfterReaderSignal(g: Config, s: State)
    requires Core(s)
    ensures !Next(g, s, ReaderSignal).reader.Holding?
  {
  }

  lemma AfterSelfSignal(g: Config, s: State, c: CallId)
    requires c < |s.client.calls|
    ensures var t := Next(g, s, SelfSignal(c));
            && t.reader == s.reader && |t.client.calls| == |s.client.calls|
            && t.client.calls[c].phase != Signalling
  {
  }

  /** The reader and the sending goroutine give out what they owe. */
  lemma Release(g: Config, s: State, c: CallId) returns (es: seq<Event>)
    requires Core(s) && c < |s.client.calls|
    ensures var t := From(g, s, es); OnlyHeld(t, c) && Owed(t, c) == Owed(s, c) && t.issued == s.issued
  {
    hide From, Core, Owed, Next;
    var s1 := Next(g, s, ReaderSignal);
    SignallingKeeps(g, s, ReaderSignal, c);
    SignallingKeeps(g, s1, SelfSignal(c), c);
    AfterReaderSignal(g, s);
    AfterSelfSignal(g, s1, c);
    FromOne(g, s, ReaderSignal);
    FromOne(g, s1, SelfSignal(c));
    es := [ReaderSignal] + [SelfSignal(c)];
    FromConcat(g, s, [ReaderSignal], [SelfSignal(c)]);
  }

  /**
    From every state a run can go on, without new calls, without the server and without close,
    until c has all the completions a goroutine owes it.
  */
  lemma EverythingOwedIsDeliverable(g: Config, s: State, c: CallId) returns (es: seq<Event>)
    requires Core(s) && c < |s.client.calls|
    ensures var t := From(g, s, es);
            c < |t.client.calls| && t.issued == s.issued && t.client.calls[c].signals == Owed(s, c)
  {
    hide Core, Owed, From;
    var first := Release(g, s, c);
    var rest := DeliverHeld(g, From(g, s, first), c);
    FromConcat(g, s, first, rest);
    es := first + rest;
  }

  // ------------------------------------------------------ who can be signalled twice

  /** A pending call that somebody other than the reader may still take out, or signal once more. */
  predicate Loose(g: Config, s: State, c: CallId)
    requires c < |s.client.calls|
  {
    && Pending(s, c)
    && (s.client.calls[c].phase != Sent || s.client.calls[c].seqNo == Some(0) || s.cached || g.oneway)
  }

  /** A call that some continuation signals twice. */
  predicate Exposed(g: Config, s: State, c: CallId)
    requires c < |s.client.calls|
  {
    || Owed(s, c) >= 2
    || (s.client.calls[c].phase == Registered && !Encodes(g, s, c))
    || Loose(g, s, c)
  }

  /** A call that send has taken in and that is not exposed. */
  predicate Secure(g: Config, s: State, c: CallId) {
    c < |s.client.calls| && s.client.calls[c].phase != Fresh && !Exposed(g, s, c)
  }

  lemma CachedShrinks(g: Config, s: State, e: Event)
    requires Enabled(g, s, e)
    ensures Apply(g, s, e).cached ==> s.cached
  {
    hide OnWire, Wire.Decode, Server.Served, DoneAll;
  }

  lemma SweepKeepsPending(g: Config, s: State, c: CallId)
    requires Enabled(g, s, Sweep) && c < |s.client.calls|
    ensures Pending(Apply(g, s, Sweep), c) == Pending(s, c)
  {
  }

  /** Somebody else's number is taken back. */
  lemma TakeBackOfAnother(g: Config, s: State, b: CallId, c: CallId)
    requires Core(s) && Enabled(g, s, TakeBack(b)) && b != c && Pending(s, c)
    ensures Pending(Apply(g, s, TakeBack(b)), c)
  {
    assert s.client.calls[b].seqNo.Some? ==> s.client.calls[b].seqNo != s.client.calls[c].seqNo;
  }

  /** After the sweep nobody touches a pending call that is not loose. */
  lemma StaysPending(g: Config, s: State, e: Event, c: CallId)
    requires Core(s) && Enabled(g, s, e) && s.reader == Swept && s.client.shutdown
    requires Pending(s, c) && !Loose(g, s, c)
    ensures Pending(Apply(g, s, e), c)
  {
    hide OnWire, Wire.Decode, Server.Served, Core, RequestFor, Pool.Encodable;
    if e.TakeBack? {
      assert e.c != c;
      TakeBackOfAnother(g, s, e.c, c);
      hide Apply, Enabled;
    }
  }

  lemma OwedStaysOne(g: Config, s: State, e: Event, c: CallId)
    requires Sound(g, s) && Secure(g, s, c) && Enabled(g, s, e) && Apply(g, s, e).issued <= TWO64
    requires c < |Apply(g, s, e).client.calls|
    ensures Owed(Apply(g, s, e), c) <= 1
  {
    hide Enabled, Apply, Core, TokenLaw, SweptLaw, Tokens, Pending, Gain, Owed, Pool.Encodable;
    var t := Apply(g, s, e);
    TokensMove(g, s, e, c);
    WhoGains(g, s, e, c);
    SafeMeans(g, s, c);
    TokensAreOwed(s, c);
    TokensAreOwed(t, c);
    assert PhaseLaw(g, s, c);
    if Pending(s, c) {
      if s.reader == Swept { StaysPending(g, s, e, c); }
      if e.Sweep? { SweepKeepsPending(g, s, c); }
    }
  }

  lemma SecureKept(g: Config, s: State, e: Event, c: CallId)
    requires Sound(g, s) && Secure(g, s, c) && Enabled(g, s, e) && Apply(g, s, e).issued <= TWO64
    ensures Secure(g, Apply(g, s, e), c)
  {
    hide Enabled, Apply, Core, TokenLaw, SweptLaw, Tokens, Pending, Gain, Owed, Pool.Encodable;
    EveryMove(g, s, e, c);
    TokensMove(g, s, e, c);
    OwedStaysOne(g, s, e, c);
    CachedShrinks(g, s, e);
  }

  lemma {:induction false} SecureForGood(g: Config, s: State, c: CallId, more: seq<Event>)
    requires Sound(g, s) && Secure(g, s, c) && From(g, s, more).issued <= TWO64
    ensures Sound(g, From(g, s, more)) && Secure(g, From(g, s, more), c)
  {
    if more != [] {
      var before, e := more[..|more| - 1], more[|more| - 1];
      var t := From(g, s, before);
      IssuedGrows(g, t, e);
      hide Enabled, Apply, Sound, Secure;
      SecureForGood(g, s, c, before);
      SoundKept(g, t, e);
      if Enabled(g, t, e) { SecureKept(g, t, e, c); }
    }
  }

  // ------------------------------------------------------------ the other direction

  /** After the sweep, with c still in the pending map. */
  predicate SweptPending(g: Config, s: State, c: CallId) {
    && Sound(g, s) && s.reader == Swept && Pending(s, c) && s.issued <= TWO64
    && s.client.calls[c].phase != Fresh
  }

  /** c is not pending any more and still has two completions, or was owed a further one. */
  predicate OwedTwo(s: State, c: CallId) {
    Core(s) && c < |s.client.calls| && Owed(s, c) >= 2
  }

  lemma SweptPendingTokens(g: Config, s: State, c: CallId)
    requires SweptPending(g, s, c)
    ensures c < |s.client.calls| && Core(s) && s.client.shutdown && Owed(s, c) >= 1 && Tokens(s, c) >= 2
    ensures Refused(s.client.calls[c].phase) ==> Owed(s, c) >= 2
  {
    SafeMeans(g, s, c);
    TokensAreOwed(s, c);
    assert PhaseLaw(g, s, c);
    hide Core, TokenLaw, SweptLaw, Tokens, Owed;
  }

  /** An event that takes c out of the pending map leaves its completions to goroutines. */
  lemma TakenOut(g: Config, s: State, e: Event, c: CallId)
    requires SweptPending(g, s, c) && Enabled(g, s, e) && Apply(g, s, e).issued == s.issued
    requires !Pending(Apply(g, s, e), c)
    ensures Reaches(g, s, Apply(g, s, e)) && OwedTwo(Apply(g, s, e), c)
  {
    SweptPendingTokens(g, s, c);
    hide Enabled, Apply, Core, TokenLaw, SweptLaw, Tokens, Pending, Owed, PhaseLaw;
    var t := Apply(g, s, e);
    EveryMove(g, s, e, c);
    TokensMove(g, s, e, c);
    TokensAreOwed(t, c);
    SafeKept(g, s, e);
    ReachesByOne(g, s, e);
  }

  lemma ByTakeBack(g: Config, s: State, c: CallId)
    requires SweptPending(g, s, c) && Enabled(g, s, TakeBack(c))
    ensures Apply(g, s, TakeBack(c)).issued == s.issued && !Pending(Apply(g, s, TakeBack(c)), c)
  {
    hide TokenLaw, SweptLaw, PhaseLaw;
  }

  lemma ByClose(g: Config, s: State, c: CallId)
    requires Enabled(g, s, Close)
    ensures Apply(g, s, Close).issued == s.issued && !Pending(Apply(g, s, Close), c)
  {
  }

  lemma ByCancel(g: Config, s: State, d: CallId, c: CallId)
    requires Core(s) && Enabled(g, s, Cancel(d)) && Pending(s, c) && s.client.calls[c].seqNo == Some(0)
    ensures Apply(g, s, Cancel(d)).issued == s.issued && !Pending(Apply(g, s, Cancel(d)), c)
  {
  }

  lemma FailedWrite(g: Config, s: State, c: CallId)
    requires Pending(s, c) && InPhase(s, c, Registered) && Encodes(g, s, c)
    ensures var t := Next(g, s, WriteNothing(c));
            && t.issued == s.issued && t.reader == s.reader && Pending(t, c)
            && InPhase(t, c, WriteFailed) && Enabled(g, t, TakeBack(c))
  {
    assert Next(g, s, WriteNothing(c)) == SetPhase(s, c, WriteFailed);
  }

  /** The sender of c finds its connection gone: the write fails. */
  lemma ByFailedWrite(g: Config, s: State, c: CallId) returns (t: State)
    requires SweptPending(g, s, c) && InPhase(s, c, Registered) && Encodes(g, s, c)
    ensures t == Next(g, s, WriteNothing(c)) && t.issued == s.issued
    ensures SweptPending(g, t, c) && Enabled(g, t, TakeBack(c))
  {
    hide Sound, Next, Pending, Enabled;
    t := Next(g, s, WriteNothing(c));
    FailedWrite(g, s, c);
    SoundKept(g, s, WriteNothing(c));
  }

  /** s with one more call, refused and signalled. */
  function WithRefused(s: State, call: Pool.Call): State {
    s.(client := s.client.(calls := s.client.calls + [CallState(call, Finished, None, None, 1, true, false)]))
  }

  lemma Refusal(g: Config, s: State, call: Pool.Call)
    requires s.client.shutdown
    ensures var d := |s.client.calls|;
            var s1 := Next(g, s, Issue(call));
            var s2 := Next(g, s1, Reject(d));
            && s1.issued == s2.issued == s.issued
            && Next(g, s2, SelfSignal(d)) == WithRefused(s, call)
  {
    var d := |s.client.calls|;
    var s1 := Next(g, s, Issue(call));
    assert s1 == Issued(s, call) && s1.client.calls[d].phase == Fresh;
    var s2 := Next(g, s1, Reject(d));
    assert s2 == SetPhase(s1, d, Signalling);
    var t := Next(g, s2, SelfSignal(d));
    assert t.client.calls == WithRefused(s, call).client.calls;
  }

  lemma RefusedCanCancel(g: Config, s: State, call: Pool.Call, c: CallId)
    requires Pending(s, c)
    ensures var t := WithRefused(s, call);
            && Pending(t, c) && t.client.calls[c] == s.client.calls[c]
            && Enabled(g, t, Cancel(|s.client.calls|))
  {
  }

  /** A caller refused because of the shutdown, whose context then ends. */
  lemma NewCanceller(g: Config, s: State, call: Pool.Call, c: CallId) returns (t: State)
    requires SweptPending(g, s, c) && s.client.shutdown
    ensures Reaches(g, s, t) && SweptPending(g, t, c) && t.client.calls[c] == s.client.calls[c]
    ensures Enabled(g, t, Cancel(|s.client.calls|))
  {
    var d := |s.client.calls|;
    RefusedCanCancel(g, s, call, c);
    hide Sound, Next, Pending, Enabled, Reaches;
    Refusal(g, s, call);
    var s1 := Next(g, s, Issue(call));
    var s2 := Next(g, s1, Reject(d));
    t := Next(g, s2, SelfSignal(d));
    SoundKept(g, s, Issue(call));
    SoundKept(g, s1, Reject(d));
    SoundKept(g, s2, SelfSignal(d));
    ReachesByOne(g, s, Issue(call));
    ReachesByOne(g, s1, Reject(d));
    ReachesByOne(g, s2, SelfSignal(d));
    ReachesOn(g, s, s1, s2);
    ReachesOn(g, s, s2, t);
  }

  /** A failed encoding owes one more, wherever the call is. */
  lemma ByEncodeFail(g: Config, s: State, c: CallId) returns (t: State)
    requires Sound(g, s) && InPhase(s, c, Registered) && !Encodes(g, s, c) && Owed(s, c) >= 1
    requires s.issued <= TWO64
    ensures Reaches(g, s, t) && OwedTwo(t, c)
  {
    var e := EncodeFail(c);
    t := Next(g, s, e);
    assert Enabled(g, s, e) && t == SetPhase(s, c, Signalling);
    assert t.held == s.held && t.reader == s.reader && t.client.calls[c].signals == s.client.calls[c].signals;
    ReachesByOne(g, s, e);
    SafeKept(g, s, e);
    hide Reaches, Core, TokenLaw, SweptLaw, PhaseLaw;
  }

  /** One of the ways to a second completion after the sweep, for every loose call. */
  lemma LooseAfterSweep(g: Config, s: State, c: CallId) returns (t: State)
    requires SweptPending(g, s, c) && Loose(g, s, c)
    ensures Reaches(g, s, t) && OwedTwo(t, c)
  {
    SweptPendingTokens(g, s, c);
    hide Sound, Core, Owed, Tokens, Pending, Reaches, Apply;
    var k := s.client.calls[c];
    if Refused(k.phase) {
      ReachesItself(g, s);
      t := s;
    } else if k.phase == Registered && !Encodes(g, s, c) {
      t := ByEncodeFail(g, s, c);
    } else if k.phase == Registered {
      var u := ByFailedWrite(g, s, c);
      ReachesByOne(g, s, WriteNothing(c));
      ByTakeBack(g, u, c);
      TakenOut(g, u, TakeBack(c), c);
      t := Apply(g, u, TakeBack(c));
      ReachesOn(g, s, u, t);
    } else if k.phase == WriteFailed || g.oneway {
      ByTakeBack(g, s, c);
      TakenOut(g, s, TakeBack(c), c);
      t := Apply(g, s, TakeBack(c));
    } else if s.cached {
      ByClose(g, s, c);
      TakenOut(g, s, Close, c);
      t := Apply(g, s, Close);
    } else {
      t := CancelledFirst(g, s, c);
    }
  }

  /** The call under number 0 is taken by whoever is cancelled. */
  lemma CancelledFirst(g: Config, s: State, c: CallId) returns (t: State)
    requires SweptPending(g, s, c) && s.client.shutdown && s.client.calls[c].seqNo == Some(0)
    ensures Reaches(g, s, t) && OwedTwo(t, c)
  {
    var d := |s.client.calls|;
    SweptPendingTokens(g, s, c);
    hide Sound, Core, Owed, Pending, Reaches, Apply, Enabled;
    var u := NewCanceller(g, s, s.client.calls[c].call, c);
    SweptPendingTokens(g, u, c);
    ByCancel(g, u, d, c);
    TakenOut(g, u, Cancel(d), c);
    t := Apply(g, u, Cancel(d));
    ReachesOn(g, s, u, t);
  }

  /** The steps by which the reader leaves its loop and sweeps. */
  predicate Leaving(s: State, e: Event) {
    || e == ReaderSignal || (e == ReaderFail && !s.reader.Holding?)
    || (e == Sweep && (s.reader == Ended || s.reader == Swept))
  }

  lemma LeavingKeeps(g: Config, s: State, e: Event, c: CallId)
    requires Leaving(s, e) && Pending(s, c)
    ensures var t := Next(g, s, e);
            && Pending(t, c) && t.issued == s.issued && t.cached == s.cached
            && t.client.calls[c].phase == s.client.calls[c].phase
            && t.client.calls[c].seqNo == s.client.calls[c].seqNo
  {
  }

  lemma LeavingReader(g: Config, s: State, e: Event)
    requires Core(s) && Leaving(s, e)
    ensures var t := Next(g, s, e);
            && !t.reader.Holding?
            && (e == ReaderFail ==> t.reader == Ended || t.reader == Swept)
            && (e == Sweep ==> t.reader == Swept)
  {
    assert s.reader.Holding? ==> Known(s, s.reader.call);
    hide Core, DoneAt, DoneAll;
  }

  /** Meanwhile a pending call stays as it is. */
  lemma ReaderLeaves(g: Config, s: State, e: Event, c: CallId)
    requires Sound(g, s) && Leaving(s, e) && Pending(s, c) && s.client.calls[c].phase != Fresh && s.issued <= TWO64
    ensures var t := Next(g, s, e);
            && Sound(g, t) && Pending(t, c) && t.issued == s.issued && t.cached == s.cached
            && t.client.calls[c].phase == s.client.calls[c].phase
            && t.client.calls[c].seqNo == s.client.calls[c].seqNo
            && !t.reader.Holding?
            && (e == ReaderFail ==> t.reader == Ended || t.reader == Swept)
            && (e == Sweep ==> t.reader == Swept)
  {
    SafeMeans(g, s, c);
    hide Sound, Core, Next, Pending, Leaving;
    LeavingKeeps(g, s, e, c);
    LeavingReader(g, s, e);
    SoundKept(g, s, e);
  }

  /** The connection ends and the reader sweeps. */
  lemma GetSwept(g: Config, s: State, c: CallId) returns (t: State)
    requires Sound(g, s) && Pending(s, c) && s.client.calls[c].phase != Fresh && s.issued <= TWO64
    ensures Reaches(g, s, t) && SweptPending(g, t, c) && t.cached == s.cached
    ensures t.client.calls[c].phase == s.client.calls[c].phase
    ensures t.client.calls[c].seqNo == s.client.calls[c].seqNo
  {
    hide Sound, Next, Pending, Reaches;
    var s1 := Next(g, s, ReaderSignal);
    var s2 := Next(g, s1, ReaderFail);
    t := Next(g, s2, Sweep);
    ReaderLeaves(g, s, ReaderSignal, c);
    ReaderLeaves(g, s1, ReaderFail, c);
    ReaderLeaves(g, s2, Sweep, c);
    ReachesByOne(g, s, ReaderSignal);
    ReachesByOne(g, s1, ReaderFail);
    ReachesByOne(g, s2, Sweep);
    ReachesOn(g, s, s1, s2);
    ReachesOn(g, s, s2, t);
  }

  lemma ExposedCanBeOwedTwo(g: Config, s: State, c: CallId) returns (t: State)
    requires Sound(g, s) && c < |s.client.calls| && s.client.calls[c].phase != Fresh && s.issued <= TWO64
    requires Exposed(g, s, c)
    ensures Reaches(g, s, t) && OwedTwo(t, c)
  {
    SafeMeans(g, s, c);
    TokensAreOwed(s, c);
    hide Sound, Core, Owed, Tokens, Pending, Reaches, Next;
    if Owed(s, c) >= 2 {
      ReachesItself(g, s);
      t := s;
    } else if !Pending(s, c) {
      t := ByEncodeFail(g, s, c);
    } else {
      var u := GetSwept(g, s, c);
      t := LooseAfterSweep(g, u, c);
      ReachesOn(g, s, u, t);
    }
  }

  lemma ExposedCanBeSignalledTwice(g: Config, s: State, c: CallId) returns (t: State)
    requires Sound(g, s) && c < |s.client.calls| && s.client.calls[c].phase != Fresh && s.issued <= TWO64
    requires Exposed(g, s, c)
    ensures Reaches(g, s, t) && c < |t.client.calls| && t.client.calls[c].signals >= 2
  {
    hide Sound, Core, Owed, Exposed, From;
    var u := ExposedCanBeOwedTwo(g, s, c);
    var es := EverythingOwedIsDeliverable(g, u, c);
    t := From(g, u, es);
    ReachesOn(g, s, u, t);
  }

  // ------------------------------------------------------------------------ the theorems

  function SignalsOf(s: State, c: CallId): nat {
    if c < |s.client.calls| then s.client.calls[c].signals else 0
  }

  /** In no continuation of the run is c signalled twice. */
  ghost predicate OnceAtMost(g: Config, res: Msg, es: seq<Event>, c: CallId) {
    forall more :: Exec(g, res, es + more).issued <= TWO64 ==> SignalsOf(Exec(g, res, es + more), c) <= 1
  }

  /**
    Exactly when a call is safe from a second completion: at a point of a run, a call that send
    has taken in will be signalled at most once in every continuation if and only if goroutines
    owe it at most one completion in all, it is not about to fail to encode its arguments, and it
    has left the pending map or waits there, already written and not under number 0, for a client
    that no parent can close any more.
  */
  lemma OnceExactlyWhenSecure(g: Config, res: Msg, es: seq<Event>, c: CallId)
    requires Exec(g, res, es).issued <= TWO64 && c < |Exec(g, res, es).client.calls|
    requires Exec(g, res, es).client.calls[c].phase != Fresh
    ensures OnceAtMost(g, res, es, c) <==> !Exposed(g, Exec(g, res, es), c)
  {
    var s := Exec(g, res, es);
    hide Exec, Sound, From, Owed, Loose;
    EveryRunIsSound(g, res, es);
    if Exposed(g, s, c) {
      var t := ExposedCanBeSignalledTwice(g, s, c);
      var more :| From(g, s, more) == t;
      FromContinues(g, res, es, more);
      assert SignalsOf(Exec(g, res, es + more), c) > 1;
    } else {
      forall more | Exec(g, res, es + more).issued <= TWO64
        ensures SignalsOf(Exec(g, res, es + more), c) <= 1
      {
        FromContinues(g, res, es, more);
        SecureForGood(g, s, c, more);
        SignalledIsOwed(From(g, s, more), c);
      }
    }
  }

  lemma SignalledIsOwed(s: State, c: CallId)
    requires c < |s.client.calls|
    ensures SignalsOf(s, c) <= Owed(s, c)
  {
  }

  /**
    Every call can be completed: from every state of every run, without any help of the server
    and without close, the connection's end suffices to signal a call that send has taken in.
  */
  lemma EveryCallCanComplete(g: Config, res: Msg, es: seq<Event>, c: CallId) returns (more: seq<Event>)
    requires Exec(g, res, es).issued <= TWO64 && c < |Exec(g, res, es).client.calls|
    requires Exec(g, res, es).client.calls[c].phase != Fresh
    ensures Exec(g, res, es + more).issued == Exec(g, res, es).issued
    ensures SignalsOf(Exec(g, res, es + more), c) >= 1
  {
    var s := Exec(g, res, es);
    EveryRunIsSound(g, res, es);
    SafeMeans(g, s, c);
    TokensAreOwed(s, c);
    hide Exec, Sound, Core, From, Owed, Tokens, Pending;
    var u := s;
    if Pending(s, c) {
      u := GetSwept(g, s, c);
      SweptPendingTokens(g, u, c);
    } else {
      ReachesItself(g, s);
    }
    var rest := EverythingOwedIsDeliverable(g, u, c);
    var first :| From(g, s, first) == u;
    FromConcat(g, s, first, rest);
    more := first + rest;
    FromContinues(g, res, es, more);
  }

  // ------------------------------------------------------------------- a call signalled twice

  /** Extend a run that has reached state s by one event. */
  lemma Then(g: Config, res: Msg, es: seq<Event>, s: State, e: Event) returns (es': seq<Event>, t: State)
    requires Exec(g, res, es) == s
    ensures Exec(g, res, es') == t == Next(g, s, e)
  {
    hide Next;
    es', t := es + [e], Next(g, s, e);
    assert (es + [e])[..|es|] == es;
  }

  /** A call alone on a new connection, registered under number 0. */
  lemma FirstCall(g: Config, res: Msg, call: Pool.Call) returns (es: seq<Event>, s: State)
    requires Server.HasCodec(g.options.serialize)
    ensures Exec(g, res, es) == s
    ensures s == Start(g, res).(issued := 1,
                                client := Client(1, map[0 := 0], false, false,
                                                 [CallState(call, Registered, Some(0), None, 0, false, false)]))
  {
    es, s := Then(g, res, [], Start(g, res), Issue(call));
    assert s == Issued(Start(g, res), call);
    es, s := Then(g, res, es, s, Register(0));
    assert s == Registering(Issued(Start(g, res), call), 0);
    hide Exec, Next;
    assert 1 % TWO64 == 1;
  }

  /** The connection ends while a call is pending, and the sweep signals the call. */
  lemma FirstCallSwept(g: Config, res: Msg, call: Pool.Call) returns (es: seq<Event>, s: State)
    requires Server.HasCodec(g.options.serialize)
    ensures Exec(g, res, es) == s && s.client.pending == map[0 := 0] && s.cached == g.cached && s.held == multiset{}
    ensures s.client.calls == [CallState(call, Registered, Some(0), None, 1, true, false)]
  {
    hide Exec, OnWire, Wire.Decode, Server.Served, RequestFor, Pool.Encodable;
    es, s := FirstCall(g, res, call);
    assert s.client.pending[0] == 0 && s.client.pending.Values == {0};
    es, s := Then(g, res, es, s, ReaderFail);
    assert s.reader == Ended && s.client.pending == map[0 := 0] && s.held == multiset{} && s.cached == g.cached;
    es, s := Then(g, res, es, s, Sweep);
  }

  /** A parent that is closed later finds the call still there and signals it again. */
  lemma SweepThenCloseSignalsTwice(g: Config, res: Msg, call: Pool.Call) returns (es: seq<Event>)
    requires Server.HasCodec(g.options.serialize) && g.cached
    ensures SignalsOf(Exec(g, res, es), 0) == 2
  {
    hide Exec;
    var s;
    es, s := FirstCallSwept(g, res, call);
    assert s.client.pending[0] == 0 && s.client.pending.Values == {0};
    es, s := Then(g, res, es, s, Close);
  }

  /** The call's own sender finds its write failing after the sweep. */
  lemma WriteFailsAfterSweep(g: Config, res: Msg, call: Pool.Call) returns (es: seq<Event>, s: State)
    requires Server.HasCodec(g.options.serialize) && Pool.Encodable(g.options, call)
    ensures Exec(g, res, es) == s && s.client.pending == map[0 := 0] && s.held == multiset{}
    ensures s.client.calls == [CallState(call, WriteFailed, Some(0), None, 1, true, false)]
  {
    hide Exec, Pool.Encodable, OnWire, Wire.Decode, Server.Served, RequestFor;
    es, s := FirstCallSwept(g, res, call);
    es, s := Then(g, res, es, s, WriteNothing(0));
  }

  /** It takes the call back and signals it a second time; no parent is needed. */
  lemma SweepThenFailedWriteSignalsTwice(g: Config, res: Msg, call: Pool.Call) returns (es: seq<Event>)
    requires Server.HasCodec(g.options.serialize) && Pool.Encodable(g.options, call)
    ensures SignalsOf(Exec(g, res, es), 0) == 2
  {
    hide Exec, Pool.Encodable, OnWire, Wire.Decode, Server.Served, RequestFor;
    var s;
    es, s := WriteFailsAfterSweep(g, res, call);
    es, s := Then(g, res, es, s, TakeBack(0));
    assert s.held == multiset{0} && s.client.calls == [CallState(call, Sent, Some(0), None, 1, true, false)];
    es, s := Then(g, res, es, s, Signal(0));
  }
}
