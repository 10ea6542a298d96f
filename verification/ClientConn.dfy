/**
  The sections of client/client.go that run under the client's mutex, as the code executes them.
  Each one is an event of the transition system in Rpc.
*/
module ClientConn {
  import opened Wrappers
  import opened Integers
  import opened Rpc

  class Connection {
    var seqNo: nat
    var pending: map<nat, CallId>
    var closing: bool
    var shutdown: bool
    var calls: seq<CallState>

    function Value(): Client
      reads this
    {
      Client(seqNo, pending, closing, shutdown, calls)
    }

    /** Pending calls exist, and none is pending under two numbers. */
    ghost predicate Valid()
      reads this
    {
      && seqNo < TWO64
      && (forall n :: n in pending ==> pending[n] < |calls|)
      && (forall n, m :: n in pending && m in pending && n != m ==> pending[n] != pending[m])
    }

    constructor ()
      ensures Valid() && Value() == Client(0, map[], false, false, [])
    {
      seqNo, pending, closing, shutdown, calls := 0, map[], false, false, [];
    }

    method Done(c: CallId)
      requires c < |calls|
      modifies this`calls
      ensures calls == DoneAt(old(calls), c)
      ensures calls[c].signals == old(calls[c].signals) + 1 && calls[c].slot && |calls| == |old(calls)|
      ensures forall d :: 0 <= d < |calls| && d != c ==> calls[d] == old(calls)[d]
    {
      calls := calls[c := calls[c].(signals := calls[c].signals + 1)];
      if !calls[c].slot {
        calls := calls[c := calls[c].(slot := true)];
      }
    }

    /** send, lines 353-375; hasCodec says whether core.Codecs knows the configured codec. */
    method Register(c: CallId, hasCodec: bool) returns (number: Option<nat>)
      requires Valid() && c < |calls|
      modifies this
      ensures number.Some? <==> !old(shutdown) && !old(closing) && hasCodec
      ensures number.Some? ==> number.value == old(seqNo) && Value() == Enter(old(Value()), c)
      ensures number.None? ==> Value() == old(Value())
      ensures (forall n :: n in old(pending) ==> old(pending)[n] != c) ==> Valid()
    {
      if shutdown || closing {
        return None;
      }
      if !hasCodec {
        return None;
      }
      var n := seqNo;
      seqNo := (seqNo + 1) % TWO64;
      pending := pending[n := c];
      calls := calls[c := calls[c].(phase := Registered, seqNo := Some(n))];
      return Some(n);
    }

    /** call := pending[n]; delete(pending, n) */
    method Take(n: nat) returns (c: Option<CallId>)
      requires Valid()
      modifies this`pending
      ensures Valid()
      ensures c == (if n in old(pending) then Some(old(pending)[n]) else None)
      ensures Value() == Remove(old(Value()), n)
    {
      c := if n in pending then Some(pending[n]) else None;
      pending := pending - {n};
    }

    /** handleResponse, lines 149-163: pending calls are signalled and stay where they are. */
    method Sweep()
      requires Valid()
      modifies this
      ensures Valid() && Value() == SweepAll(old(Value()))
      ensures shutdown && pending == old(pending) && closing == old(closing) && seqNo == old(seqNo)
      ensures |calls| == |old(calls)| && forall c :: 0 <= c < |calls| ==>
                calls[c].signals == old(calls)[c].signals + if c in old(pending).Values then 1 else 0
    {
      hide DoneAll, CallsOf;
      NobodySignalled(calls, pending);
      shutdown := true;
      var left := pending.Keys;
      assert pending.Keys - left == {};
      while left != {}
        modifies this`calls
        invariant left <= pending.Keys
        invariant calls == DoneAll(old(calls), CallsOf(pending, pending.Keys - left))
        decreases left
      {
        var n :| n in left;
        ghost var gone := pending.Keys - left;
        SignalOneMore(old(calls), pending, gone, n);
        Done(pending[n]);
        left := left - {n};
        assert pending.Keys - left == gone + {n};
      }
      assert pending.Keys - left == pending.Keys;
      EveryoneSignalled(pending);
      SignalCounts(old(calls), pending.Values);
    }

    /** close, lines 470-485: pending calls are signalled and removed. */
    method Close() returns (wasOpen: bool)
      requires Valid()
      modifies this
      ensures Valid() && Value() == CloseAll(old(Value()))
      ensures pending == map[] && (closing || shutdown) && shutdown == old(shutdown) && seqNo == old(seqNo)
      ensures |calls| == |old(calls)| && forall c :: 0 <= c < |calls| ==>
                calls[c].signals == old(calls)[c].signals + if c in old(pending).Values then 1 else 0
      ensures wasOpen == (!old(closing) && !old(shutdown))
    {
      hide DoneAll, CallsOf;
      NobodySignalled(calls, pending);
      assert pending.Keys - pending.Keys == {};
      while pending != map[]
        modifies this`calls, this`pending
        invariant pending.Keys <= old(pending).Keys
        invariant forall n :: n in pending ==> pending[n] == old(pending)[n]
        invariant calls == DoneAll(old(calls), CallsOf(old(pending), old(pending).Keys - pending.Keys))
        decreases pending.Keys
      {
        var n :| n in pending;
        ghost var gone := old(pending).Keys - pending.Keys;
        SignalOneMore(old(calls), old(pending), gone, n);
        Done(pending[n]);
        pending := pending - {n};
        assert old(pending).Keys - pending.Keys == gone + {n};
      }
      assert old(pending).Keys - pending.Keys == old(pending).Keys;
      EveryoneSignalled(old(pending));
      SignalCounts(old(calls), old(pending).Values);
      if closing || shutdown {
        return false;
      }
      closing := true;
      return true;
    }
  }

  ghost function CallsOf(pending: map<nat, CallId>, keys: set<nat>): set<CallId> {
    set n | n in keys && n in pending :: pending[n]
  }

  lemma SignalCounts(calls: seq<CallState>, ids: set<CallId>)
    ensures forall c :: 0 <= c < |calls| ==>
              DoneAll(calls, ids)[c].signals == calls[c].signals + if c in ids then 1 else 0
  {
  }

  lemma NobodySignalled(calls: seq<CallState>, pending: map<nat, CallId>)
    ensures DoneAll(calls, CallsOf(pending, {})) == calls
  {
  }

  lemma EveryoneSignalled(pending: map<nat, CallId>)
    ensures CallsOf(pending, pending.Keys) == pending.Values
  {
  }

  lemma SignalOneMore(calls: seq<CallState>, pending: map<nat, CallId>, done: set<nat>, n: nat)
    requires n in pending && n !in done && done <= pending.Keys
    requires forall k :: k in pending ==> pending[k] < |calls|
    requires forall k, m :: k in pending && m in pending && k != m ==> pending[k] != pending[m]
    ensures DoneAt(DoneAll(calls, CallsOf(pending, done)), pending[n])
            == DoneAll(calls, CallsOf(pending, done + {n}))
  {
    assert pending[n] !in CallsOf(pending, done);
    assert CallsOf(pending, done + {n}) == CallsOf(pending, done) + {pending[n]};
  }
}
