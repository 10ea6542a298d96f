/**
  Cancellation. A cancelled caller should take its own call out of the pending map; because the
  context that would carry its number is discarded, it takes whichever call has number 0.
*/
module RpcCancel {
  import opened Integers
  import opened Rpc
  import opened RpcCalls
  import opened RpcOnce
  import opened Wrappers

  import Messages
  import Metadata
  import Pool
  import Server
  import Stream
  import Wire

  type Msg = Wire.Msg

  /** At most one call was ever taken by a cancel; it has number 0 and is not pending any more. */
  predicate OnlyTheFirst(s: State) {
    && |s.cancels| <= 1
    && forall i :: 0 <= i < |s.cancels| ==>
         var c := s.cancels[i].taken;
         Known(s, c) && s.client.calls[c].seqNo == Some(0) && !Pending(s, c)
  }

  lemma SameNumber(s: State, c: CallId, d: CallId)
    requires Core(s) && Known(s, c) && Known(s, d) && s.client.calls[c].seqNo == s.client.calls[d].seqNo
    ensures c == d
  {
  }

  /** The call a cancel takes is the one under 0, so an earlier one cannot have been there. */
  lemma CancelKeeps(s: State, c: CallId)
    requires Core(s) && OnlyTheFirst(s)
    ensures OnlyTheFirst(CancelStep(s, c))
  {
    if 0 in s.client.pending {
      var d := s.client.pending[0];
      assert Pending(s, d);
      if s.cancels != [] {
        SameNumber(s, s.cancels[0].taken, d);
        assert false;
      }
    }
  }

  lemma CancelsChange(g: Config, s: State, e: Event)
    requires Enabled(g, s, e) && !e.Cancel?
    ensures Apply(g, s, e).cancels == s.cancels
  {
    hide OnWire, Wire.Decode, Server.Served, DoneAll;
  }

  /** A known call keeps its number. */
  lemma NumberStays(g: Config, s: State, e: Event, c: CallId)
    requires Core(s) && Enabled(g, s, e) && Known(s, c)
    ensures Known(Apply(g, s, e), c) && Apply(g, s, e).client.calls[c].seqNo == s.client.calls[c].seqNo
  {
    if e.Issue? {
      IssueLaws(g, s, e, c);
      assert Apply(g, s, e).client.calls[..|s.client.calls|][c] == s.client.calls[c];
    } else if e.Register? {
      assert Apply(g, s, e) == Registering(s, e.c);
    } else {
      EventLaws(g, s, e, c);
      assert Grown(s.client.calls[c], Apply(g, s, e).client.calls[c]);
    }
    hide Enabled, Apply;
  }

  lemma OnlyTheFirstKept(g: Config, s: State, e: Event)
    requires Core(s) && OnlyTheFirst(s) && Enabled(g, s, e) && Apply(g, s, e).issued <= TWO64
    ensures OnlyTheFirst(Apply(g, s, e))
  {
    if e.Cancel? {
      CancelKeeps(s, e.c);
    } else {
      hide Enabled, Apply, Pending;
      CancelsChange(g, s, e);
      forall i | 0 <= i < |s.cancels|
        ensures var t, c := Apply(g, s, e), s.cancels[i].taken;
                Known(t, c) && t.client.calls[c].seqNo == Some(0) && !Pending(t, c)
      {
        NumberStays(g, s, e, s.cancels[i].taken);
        NeverPendingAgain(g, s, e, s.cancels[i].taken);
      }
      hide Core;
    }
  }

  /**
    In every run, however many callers are cancelled, cancels take at most one call out of the
    pending map between them: the one registered under number 0.
  */
  lemma {:induction false} CancelsTakeOnlyTheFirst(g: Config, res: Msg, es: seq<Event>)
    requires Exec(g, res, es).issued <= TWO64
    ensures OnlyTheFirst(Exec(g, res, es))
  {
    if es != [] {
      var before, e := es[..|es| - 1], es[|es| - 1];
      var s := Exec(g, res, before);
      IssuedGrows(g, s, e);
      hide Enabled, Apply, OnlyTheFirst;
      CancelsTakeOnlyTheFirst(g, res, before);
      EveryRunIsSafe(g, res, before);
      if Enabled(g, s, e) { OnlyTheFirstKept(g, s, e); }
    }
  }

  /** A cancelled caller takes its own call out of the pending map if and only if that has number 0. */
  lemma OwnCallIffFirst(g: Config, s: State, c: CallId)
    requires Core(s) && Pending(s, c) && Enabled(g, s, Cancel(c))
    ensures Pending(Next(g, s, Cancel(c)), c) <==> s.client.calls[c].seqNo != Some(0)
    ensures c in Next(g, s, Cancel(c)).held <==> c in s.held || s.client.calls[c].seqNo == Some(0)
  {
  }

  // ------------------------------------------------------------- another caller's call is hit

  /** The heartbeat call, which every configuration can encode. */
  function Ping(): Pool.Call {
    Pool.Call([], [], None, 0)
  }

  /** Its request has a short frame. */
  lemma PingFrame(g: Config, s: State, c: CallId, base: Msg) returns (bytes: seq<bv8>)
    requires c < |s.client.calls| && s.client.calls[c].call == Ping() && Messages.Clean(base)
    ensures OnWire(RequestFor(g, s, c, base), bytes)
  {
    var m := RequestFor(g, s, c, base);
    assert m.metadata == None && m.servicePath == m.serviceMethod == m.payload == [];
    assert Metadata.Enumerates([], map[]) && Metadata.Records([]) == [];
    Stream.HasFrame(m, []);
    bytes := Wire.FrameOf(m, []);
  }

  /** A second call is registered behind a first one. */
  lemma TwoCalls(g: Config, res: Msg, first: Pool.Call) returns (es: seq<Event>, s: State)
    requires Server.HasCodec(g.options.serialize)
    ensures Exec(g, res, es) == s
    ensures s == Start(g, res).(issued := 2, client := s.client)
    ensures s.client == Client(2, map[0 := 0, 1 := 1], false, false,
                               [CallState(first, Registered, Some(0), None, 0, false, false),
                                CallState(Ping(), Registered, Some(1), None, 0, false, false)])
  {
    hide Exec;
    es, s := FirstCall(g, res, first);
    var before := s;
    es, s := Then(g, res, es, s, Issue(Ping()));
    assert s == Issued(before, Ping());
    es, s := Then(g, res, es, s, Register(1));
    assert s == Registering(Issued(before, Ping()), 1);
    hide Next;
    assert 2 % TWO64 == 2;
  }

  /** Then the second one, a heartbeat, is written. */
  lemma SecondSent(g: Config, res: Msg, first: Pool.Call) returns (es: seq<Event>, s: State)
    requires Server.HasCodec(g.options.serialize) && Messages.Clean(res)
    ensures Exec(g, res, es) == s && s.cancels == [] && s.held == multiset{}
    ensures s.client.pending == map[0 := 0, 1 := 1] && |s.client.calls| == 2
    ensures s.client.calls[0].seqNo == Some(0) && s.client.calls[1].seqNo == Some(1)
    ensures InPhase(s, 1, Sent) && !s.client.calls[1].received
  {
    hide Exec;
    es, s := TwoCalls(g, res, first);
    var bytes := PingFrame(g, s, 1, res);
    hide OnWire, RequestFor;
    es, s := Then(g, res, es, s, Write(1, res, bytes, false));
  }

  /**
    The caller of the second call is cancelled: the first call, of somebody else, is taken and the
    second stays pending.
  */
  lemma CancelHitsAnother(g: Config, res: Msg, first: Pool.Call) returns (es: seq<Event>)
    requires Server.HasCodec(g.options.serialize) && Messages.Clean(res)
    ensures var s := Exec(g, res, es);
            && s.cancels == [Cancelled(1, 0)] && s.held == multiset{0}
            && !Pending(s, 0) && Pending(s, 1)
  {
    hide Exec;
    var s;
    es, s := SecondSent(g, res, first);
    es, s := Then(g, res, es, s, Cancel(1));
  }
}
