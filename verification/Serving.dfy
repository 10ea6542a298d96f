/**
  The requests of one connection on the server (server/server.go:223-290): the loop that reads them
  and the goroutines that answer them in whatever order they finish.
*/
module Serving {
  import opened Wrappers
  import H = Header
  import Server
  import Wire

  type Msg = Wire.Msg

  /** How a goroutine ended: with an answer or without, and whether its write was lost. */
  datatype Ending = Ending(run: nat, answer: Option<Msg>, lost: bool)

  /**
    The requests read so far, the goroutines that have not finished, each named by the position
    of its request, and the ends of the others.
  */
  datatype Work = Work(read: seq<Msg>, open: seq<nat>, ended: seq<Ending>)

  function Accept(v: Work, req: Msg): Work {
    Work(v.read + [req], v.open + [|v.read|], v.ended)
  }

  function Finish(g: Server.Registry, v: Work, i: nat, lost: bool): Work
    requires i < |v.open| && v.open[i] < |v.read|
  {
    var run := v.open[i];
    v.(open := v.open[..i] + v.open[i + 1..],
       ended := v.ended + [Ending(run, Server.Served(g, v.read[run], run), lost)])
  }

  // ------------------------------------------------------------------------- tallies

  /** The server answers heartbeats and every request that is not one-way. */
  predicate Asks(m: Msg) {
    H.IsHeartbeat(m.header) || !H.IsOneway(m.header)
  }

  function If(b: bool): nat {
    if b then 1 else 0
  }

  /** How many of the messages carry number n and ask, or do not ask, for an answer. */
  function Numbered(ms: seq<Msg>, asking: bool, n: nat): nat {
    if ms == [] then 0
    else Numbered(ms[..|ms| - 1], asking, n) + Counted(ms[|ms| - 1], asking, n)
  }

  function Counted(m: Msg, asking: bool, n: nat): nat {
    If(Asks(m) == asking && H.Seq(m.header) == n)
  }

  /** The requests of the goroutines that have not finished. */
  function InHand(v: Work): (ms: seq<Msg>)
    requires forall i :: 0 <= i < |v.open| ==> v.open[i] < |v.read|
    ensures |ms| == |v.open|
  {
    seq(|v.open|, i requires 0 <= i < |v.open| => v.read[v.open[i]])
  }

  /** How many of the answers that were written, or lost, carry number n. */
  function Answers(ended: seq<Ending>, lost: bool, n: nat): nat {
    if ended == [] then 0
    else
      var e := ended[|ended| - 1];
      Answers(ended[..|ended| - 1], lost, n)
      + If(e.answer.Some? && e.lost == lost && H.Seq(e.answer.value.header) == n)
  }

  /** How many of the requests that ended without an answer carry number n. */
  function Silent(read: seq<Msg>, ended: seq<Ending>, n: nat): nat
    requires forall i :: 0 <= i < |ended| ==> ended[i].run < |read|
  {
    if ended == [] then 0
    else
      var e := ended[|ended| - 1];
      Silent(read, ended[..|ended| - 1], n) + If(e.answer.None? && H.Seq(read[e.run].header) == n)
  }

  /** How often goroutine r has ended. */
  function Ended(ended: seq<Ending>, r: nat): nat {
    if ended == [] then 0 else Ended(ended[..|ended| - 1], r) + If(ended[|ended| - 1].run == r)
  }

  /** How often goroutine r is among those that have not finished. */
  function Open(open: seq<nat>, r: nat): nat {
    if open == [] then 0 else Open(open[..|open| - 1], r) + If(open[|open| - 1] == r)
  }

  // --------------------------------------------------------------------- conservation

  predicate InRange(v: Work) {
    && (forall i :: 0 <= i < |v.open| ==> v.open[i] < |v.read|)
    && (forall i :: 0 <= i < |v.ended| ==> v.ended[i].run < |v.read|)
  }

  /** Every request is in the hands of one goroutine or was ended once, with its own answer. */
  ghost predicate Booked(g: Server.Registry, v: Work) {
    && InRange(v)
    && (forall r: nat :: Open(v.open, r) + Ended(v.ended, r) == If(r < |v.read|))
    && (forall i :: 0 <= i < |v.ended| ==>
          var e := v.ended[i]; e.answer == Server.Served(g, v.read[e.run], e.run))
  }

  /** The requests under n that ask are written, lost or in hand; the others silent or in hand. */
  predicate Conserved(v: Work, n: nat)
    requires InRange(v)
  {
    && Numbered(v.read, true, n)
       == Answers(v.ended, false, n) + Answers(v.ended, true, n) + Numbered(InHand(v), true, n)
    && Numbered(v.read, false, n) == Silent(v.read, v.ended, n) + Numbered(InHand(v), false, n)
  }

  lemma {:induction false} NumberedConcat(a: seq<Msg>, b: seq<Msg>, asking: bool, n: nat)
    ensures Numbered(a + b, asking, n) == Numbered(a, asking, n) + Numbered(b, asking, n)
  {
    hide Counted;
    if b == [] {
      assert a + b == a;
    } else {
      var k := |b| - 1;
      NumberedConcat(a, b[..k], asking, n);
      assert (a + b)[..|a| + k] == a + b[..k];
    }
  }

  lemma NumberedOne(m: Msg, asking: bool, n: nat)
    ensures Numbered([m], asking, n) == Counted(m, asking, n)
  {
    hide Counted;
    assert [m][..0] == [];
    assert Numbered([], asking, n) == 0;
  }

  /** Taking one message out of a list takes it out of the tally. */
  lemma NumberedWithout(ms: seq<Msg>, i: nat, asking: bool, n: nat)
    requires i < |ms|
    ensures Numbered(ms, asking, n) == Numbered(ms[..i] + ms[i + 1..], asking, n) + Counted(ms[i], asking, n)
  {
    hide Counted;
    assert ms == ms[..i] + ([ms[i]] + ms[i + 1..]);
    NumberedConcat(ms[..i], [ms[i]] + ms[i + 1..], asking, n);
    NumberedConcat([ms[i]], ms[i + 1..], asking, n);
    NumberedConcat(ms[..i], ms[i + 1..], asking, n);
    NumberedOne(ms[i], asking, n);
  }

  lemma {:induction false} SilentReadOn(read: seq<Msg>, m: Msg, ended: seq<Ending>, n: nat)
    requires forall i :: 0 <= i < |ended| ==> ended[i].run < |read|
    ensures Silent(read + [m], ended, n) == Silent(read, ended, n)
  {
    if ended != [] { SilentReadOn(read, m, ended[..|ended| - 1], n); }
  }

  lemma AcceptConserves(v: Work, req: Msg, n: nat)
    requires InRange(v) && Conserved(v, n)
    ensures InRange(Accept(v, req)) && Conserved(Accept(v, req), n)
  {
    var t := Accept(v, req);
    assert InHand(t) == InHand(v) + [req];
    SilentReadOn(v.read, req, v.ended, n);
    hide Numbered, Answers, Silent, InHand, Counted;
    NumberedConcat(v.read, [req], true, n);
    NumberedConcat(v.read, [req], false, n);
    NumberedConcat(InHand(v), [req], true, n);
    NumberedConcat(InHand(v), [req], false, n);
  }

  lemma {:induction false} OpenConcat(a: seq<nat>, b: seq<nat>, r: nat)
    ensures Open(a + b, r) == Open(a, r) + Open(b, r)
  {
    if b == [] {
      assert a + b == a;
    } else {
      OpenConcat(a, b[..|b| - 1], r);
      assert (a + b)[..|a| + |b| - 1] == a + b[..|b| - 1];
    }
  }

  lemma OpenOne(x: nat, r: nat)
    ensures Open([x], r) == If(x == r)
  {
    assert [x][..0] == [];
    assert Open([], r) == 0;
  }

  lemma AcceptBooks(g: Server.Registry, v: Work, req: Msg)
    requires Booked(g, v)
    ensures Booked(g, Accept(v, req))
  {
    var t := Accept(v, req);
    forall r: nat ensures Open(t.open, r) + Ended(t.ended, r) == If(r < |t.read|) {
      OpenConcat(v.open, [|v.read|], r);
      OpenOne(|v.read|, r);
    }
    hide Open, Ended;
  }

  /** An answer carries the number of its request, and there is one exactly when it asks. */
  lemma ServedNumber(g: Server.Registry, req: Msg, run: nat)
    ensures var a := Server.Served(g, req, run);
            && (a.Some? <==> H.IsHeartbeat(req.header) || !H.IsOneway(req.header))
            && (a.Some? <==> Asks(req))
            && (a.Some? ==> H.Seq(a.value.header) == H.Seq(req.header)
                            && H.MessageType(a.value.header) == H.RESPONSE)
  {
    var e := g.execute(req, run);
    if Server.Served(g, req, run).Some? {
      Server.AnswerHeader(g, req, e.x, e.extra);
    }
  }

  /** The one-way flag does not silence the server: a one-way heartbeat is answered. */
  lemma OnewayHeartbeatIsAnswered(g: Server.Registry, run: nat) returns (req: Msg)
    ensures H.IsOneway(req.header) && Server.Served(g, req, run).Some?
  {
    var h: H.Header := [H.MAGIC, 0, 0x60, 0, 0, 0, 0, 0, 0, 0, 0, 0];
    req := Wire.Msg(h, [], [], None, []);
    assert H.IsHeartbeat(h) && H.IsOneway(h);
    ServedNumber(g, req, run);
  }

  lemma FinishBooks(g: Server.Registry, v: Work, i: nat, lost: bool)
    requires Booked(g, v) && i < |v.open|
    ensures Booked(g, Finish(g, v, i, lost))
  {
    var t, run := Finish(g, v, i, lost), v.open[i];
    assert t.ended[..|v.ended|] == v.ended;
    forall r: nat ensures Open(t.open, r) + Ended(t.ended, r) == If(r < |t.read|) {
      assert v.open == v.open[..i] + ([run] + v.open[i + 1..]);
      OpenConcat(v.open[..i], [run] + v.open[i + 1..], r);
      OpenConcat([run], v.open[i + 1..], r);
      OpenConcat(v.open[..i], v.open[i + 1..], r);
      OpenOne(run, r);
    }
    hide Open, Ended, Server.Served;
  }

  /** What a goroutine had in hand goes to one of the tallies of what has ended. */
  lemma EndTallies(g: Server.Registry, v: Work, i: nat, lost: bool, n: nat)
    requires InRange(v) && i < |v.open|
    ensures var t, req := Finish(g, v, i, lost), v.read[v.open[i]];
            && InRange(t)
            && Answers(t.ended, lost, n) == Answers(v.ended, lost, n) + Counted(req, true, n)
            && Answers(t.ended, !lost, n) == Answers(v.ended, !lost, n)
            && Silent(t.read, t.ended, n) == Silent(v.read, v.ended, n) + Counted(req, false, n)
  {
    var t, run := Finish(g, v, i, lost), v.open[i];
    ServedNumber(g, v.read[run], run);
    assert t.ended[..|v.ended|] == v.ended;
    hide Server.Served, Asks;
  }

  lemma FinishConserves(g: Server.Registry, v: Work, i: nat, lost: bool, n: nat)
    requires InRange(v) && Conserved(v, n) && i < |v.open|
    ensures InRange(Finish(g, v, i, lost)) && Conserved(Finish(g, v, i, lost), n)
  {
    var t := Finish(g, v, i, lost);
    assert InHand(t) == InHand(v)[..i] + InHand(v)[i + 1..];
    assert InHand(v)[i] == v.read[v.open[i]];
    hide Numbered, Answers, Silent, InHand, Counted, Server.Served;
    EndTallies(g, v, i, lost, n);
    NumberedWithout(InHand(v), i, true, n);
    NumberedWithout(InHand(v), i, false, n);
  }

  // ----------------------------------------------------------------------- whole runs

  /** What both reading and finishing keep. */
  ghost predicate Good(g: Server.Registry, v: Work) {
    Booked(g, v) && forall n: nat :: Conserved(v, n)
  }

  lemma NothingYet(g: Server.Registry)
    ensures Good(g, Work([], [], []))
  {
  }

  lemma AcceptIsGood(g: Server.Registry, v: Work, req: Msg)
    requires Good(g, v)
    ensures Good(g, Accept(v, req))
  {
    hide Conserved;
    AcceptBooks(g, v, req);
    forall n: nat ensures Conserved(Accept(v, req), n) { AcceptConserves(v, req, n); }
  }

  lemma FinishIsGood(g: Server.Registry, v: Work, i: nat, lost: bool)
    requires Good(g, v) && i < |v.open|
    ensures Good(g, Finish(g, v, i, lost))
  {
    hide Conserved;
    FinishBooks(g, v, i, lost);
    forall n: nat ensures Conserved(Finish(g, v, i, lost), n) { FinishConserves(g, v, i, lost, n); }
  }

  /**
    Every request under n that asks for an answer was answered in writing, or the answer was lost,
    or it is still in hand; once all goroutines have finished and no write was lost, as many
    answers under n were written as requests under n asked. Every answer is a response.
  */
  lemma AllAnswered(g: Server.Registry, v: Work, n: nat)
    requires Good(g, v)
    ensures v.open == [] && Answers(v.ended, true, n) == 0 ==>
              Answers(v.ended, false, n) == Numbered(v.read, true, n)
    ensures forall i :: 0 <= i < |v.ended| && v.ended[i].answer.Some? ==>
              H.MessageType(v.ended[i].answer.value.header) == H.RESPONSE
  {
    assert Conserved(v, n);
    forall i | 0 <= i < |v.ended| && v.ended[i].answer.Some?
      ensures H.MessageType(v.ended[i].answer.value.header) == H.RESPONSE
    {
      ServedNumber(g, v.read[v.ended[i].run], v.ended[i].run);
    }
    hide Server.Served;
  }

  /** Any request may arrive, also one no client of this repository would send. */
  datatype Event = Arrive(req: Msg) | End(i: nat, lost: bool)

  function Next(g: Server.Registry, v: Work, e: Event): Work {
    match e
    case Arrive(req) => Accept(v, req)
    case End(i, lost) =>
      if i < |v.open| && v.open[i] < |v.read| then Finish(g, v, i, lost) else v
  }

  function Exec(g: Server.Registry, es: seq<Event>): Work {
    if es == [] then Work([], [], []) else Next(g, Exec(g, es[..|es| - 1]), es[|es| - 1])
  }

  /**
    Response conservation, for any requests whatever. In every run, whatever order the goroutines
    finish in and whichever writes are lost: for every number, the requests read under it that ask
    for an answer are as many as the answers written under it, the answers lost and the requests
    still in hand together; those that do not ask end silently; and every request is in the hands
    of one goroutine or was ended exactly once, with its own answer.
  */
  lemma {:induction false} ResponsesAreConserved(g: Server.Registry, es: seq<Event>)
    ensures Good(g, Exec(g, es))
  {
    if es == [] {
      NothingYet(g);
    } else {
      var v, e := Exec(g, es[..|es| - 1]), es[|es| - 1];
      ResponsesAreConserved(g, es[..|es| - 1]);
      assert InRange(v);
      hide Good, Accept, Finish;
      match e {
        case Arrive(req) => AcceptIsGood(g, v, req);
        case End(i, lost) => if i < |v.open| { FinishIsGood(g, v, i, lost); }
      }
    }
  }
}
