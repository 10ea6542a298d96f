/** The reading loop of client/client.go:92-147 over one connection and one reused message. */
module Stream {
  import opened Wrappers
  import opened Bytes
  import opened Metadata
  import H = Header
  import opened Wire
  import opened Messages

  type Msg = Wire.Msg

  /** A message the client takes for a server push: a one-way request that is no heartbeat. */
  predicate IsPush(h: H.Header) {
    H.MessageType(h) == H.REQUEST && !H.IsHeartbeat(h) && H.IsOneway(h)
  }

  /** On the wire: of the three highest bits of byte 2 only the one-way flag is set. */
  lemma PushOnWire(h: H.Header)
    ensures IsPush(h) <==> h[2] & 0xE0 == 0x20
  {
  }

  /** The state of the reused message when the next frame is read; a push skips the reset. */
  function Recycled(m: Msg): Msg {
    if IsPush(m.header) then m else Cleared(m)
  }

  /** The messages decoded from a stream, and the outcome that ends the loop. */
  function Receive(max: int, m: Msg, input: Bytes): (seq<Msg>, Wire.Outcome)
    decreases |input|
  {
    var d := Wire.Decode(max, m, input);
    if d.outcome != Ok then ([], d.outcome)
    else
      var (ms, end) := Receive(max, Recycled(d.msg), d.rest);
      ([d.msg] + ms, end)
  }

  method ReceiveAll(r: Reader, max: int) returns (ms: seq<Msg>, end: Wire.Outcome)
    modifies r
    ensures exists m :: Clean(m) && (ms, end) == Receive(max, m, old(r.rest))
  {
    hide Wire.Decode;
    var res := new Message();
    ghost var m0, input := res.Value(), r.rest;
    ms := [];
    end := Ok;
    assert [] + Receive(max, m0, input).0 == Receive(max, m0, input).0;
    while end == Ok
      invariant res.Valid() && fresh(res) && fresh(res.header)
      invariant end == Ok ==>
        Receive(max, m0, input) == Prepend(ms, Receive(max, res.Value(), r.rest))
      invariant end != Ok ==> Receive(max, m0, input) == (ms, end)
      decreases end == Ok, |r.rest|
    {
      ghost var before, left := res.Value(), r.rest;
      end := res.Decode(r, max);
      if end != Ok {
        assert ms + [] == ms;
        break;
      }
      ghost var got := res.Value();
      assert ms + ([got] + Receive(max, Recycled(got), r.rest).0)
          == ms + [got] + Receive(max, Recycled(got), r.rest).0;
      var push := H.MessageType(res.header[..]) == H.REQUEST && !H.IsHeartbeat(res.header[..])
                  && H.IsOneway(res.header[..]);
      ms := ms + [W.Msg(res.header[..], res.servicePath, res.serviceMethod, res.metadata, res.payload)];
      if push {
        continue;
      }
      res.Reset();
    }
  }

  function Prepend(ms: seq<Msg>, r: (seq<Msg>, Wire.Outcome)): (seq<Msg>, Wire.Outcome) {
    (ms + r.0, r.1)
  }

  // --------------------------------------------------------------------- framing

  /** fs are the frames of ms, all of a size the receiver accepts. */
  ghost predicate Frames(max: int, ms: seq<Msg>, fs: seq<Bytes>) {
    && |fs| == |ms|
    && forall i :: 0 <= i < |ms| ==> IsEncoding(ms[i], fs[i]) && Fits(max, fs[i])
  }

  /** What the loop sees: metadata of a push lingers until a message brings its own. */
  function SeenAll(ms: seq<Msg>, kept: Option<Meta>): (r: seq<Msg>)
    ensures |r| == |ms|
  {
    if ms == [] then []
    else
      var m := Seen(ms[0], kept);
      [m] + SeenAll(ms[1..], Recycled(m).metadata)
  }

  /** The original messages, with a nil map for an empty one. */
  function Originals(ms: seq<Msg>): (r: seq<Msg>)
    ensures |r| == |ms|
  {
    seq(|ms|, i requires 0 <= i < |ms| => Seen(ms[i], None))
  }

  /**
    Stream framing. From a concatenation of frames the loop decodes exactly one message per frame,
    each Decode consuming exactly its own frame, and stops with EOF at the end.
  */
  lemma {:induction false} LoopFollowsFrames(max: int, ms: seq<Msg>, fs: seq<Bytes>, prev: Msg)
    requires Frames(max, ms, fs)
    ensures Receive(max, prev, Concat(fs)) == (SeenAll(ms, prev.metadata), Eof)
    decreases ms
  {
    hide Wire.Decode, IsEncoding;
    if ms == [] {
      NothingLeft(max, prev);
    } else {
      var tail := Concat(fs[1..]);
      RoundTrip(max, ms[0], fs[0], prev, tail);
      assert Concat(fs) == fs[0] + tail;
      LoopFollowsFrames(max, ms[1..], fs[1..], Recycled(Seen(ms[0], prev.metadata)));
    }
  }

  lemma NothingLeft(max: int, prev: Msg)
    ensures Wire.Decode(max, prev, []).outcome == Eof
  {
  }

  /** Message i has no metadata and follows directly on a push that has some. */
  predicate Leaks(ms: seq<Msg>, i: nat) {
    && 0 < i < |ms| && IsPush(ms[i - 1].header)
    && MetaOf(ms[i - 1].metadata) != map[] && MetaOf(ms[i].metadata) == map[]
  }

  predicate NoLeak(ms: seq<Msg>) {
    forall i :: 0 < i < |ms| ==> !Leaks(ms, i)
  }

  lemma {:induction false} FaithfulWhenNoLeak(ms: seq<Msg>, kept: Option<Meta>)
    requires NoLeak(ms)
    requires ms != [] && kept != None ==> MetaOf(ms[0].metadata) != map[]
    ensures SeenAll(ms, kept) == Originals(ms)
    decreases ms
  {
    if ms != [] {
      var m := Seen(ms[0], kept);
      forall i | 0 < i < |ms[1..]| ensures !Leaks(ms[1..], i) { assert !Leaks(ms, i + 1); }
      if |ms| > 1 { assert !Leaks(ms, 1); }
      FaithfulWhenNoLeak(ms[1..], Recycled(m).metadata);
      assert Originals(ms) == [Seen(ms[0], None)] + Originals(ms[1..]);
    }
  }

  lemma {:induction false} SeenAllAt(ms: seq<Msg>, kept: Option<Meta>, i: nat)
    requires 0 < i < |ms|
    ensures SeenAll(ms, kept)[i] == Seen(ms[i], Recycled(SeenAll(ms, kept)[i - 1]).metadata)
    decreases i
  {
    var m := Seen(ms[0], kept);
    if i > 1 {
      SeenAllAt(ms[1..], Recycled(m).metadata, i - 1);
    } else {
      assert SeenAll(ms[1..], Recycled(m).metadata)[0] == Seen(ms[1], Recycled(m).metadata);
    }
  }

  lemma LeakShows(ms: seq<Msg>, i: nat)
    requires Leaks(ms, i)
    ensures SeenAll(ms, None) != Originals(ms)
  {
    hide IsPush;
    SeenAllAt(ms, None, i);
    assert Originals(ms)[i - 1].metadata != None && Originals(ms)[i].metadata == None;
    assert SeenAll(ms, None)[i - 1] == Originals(ms)[i - 1] ==> SeenAll(ms, None)[i] != Originals(ms)[i];
  }

  /**
    Because a push skips the reset, the sequence decoded is the sequence sent if and only if no
    message without metadata directly follows a push that has some. A stream of replies, which are
    never pushes, is always faithful.
  */
  lemma FaithfulIffNoLeak(max: int, ms: seq<Msg>, fs: seq<Bytes>, prev: Msg)
    requires Frames(max, ms, fs) && prev.metadata == None
    ensures Receive(max, prev, Concat(fs)) == (Originals(ms), Eof) <==> NoLeak(ms)
  {
    hide Receive, SeenAll, IsPush;
    LoopFollowsFrames(max, ms, fs, prev);
    if NoLeak(ms) {
      FaithfulWhenNoLeak(ms, None);
    } else {
      var i :| 0 < i < |ms| && Leaks(ms, i);
      LeakShows(ms, i);
    }
  }

  /** A message that lists its metadata as ps has this frame, of this length. */
  lemma HasFrame(m: Msg, ps: seq<Pair>)
    requires Enumerates(ps, MetaOf(m.metadata))
    ensures IsEncoding(m, FrameOf(m, ps))
    ensures |FrameOf(m, ps)| == 32 + |m.servicePath| + |m.serviceMethod| + |Records(ps)| + |m.payload|
  {
    hide Records, Enumerates;
  }

  lemma OnePair(key: Bytes, text: Bytes)
    ensures Enumerates([(key, text)], map[key := text])
    ensures |Records([(key, text)])| == 8 + |key| + |text|
  {
    var ps: seq<Pair> := [(key, text)];
    assert ps[1..] == [];
    RecordsFirst(ps);
    assert Store(map[][key := text], []) == map[key := text];
  }

  lemma PushHeader(h: H.Header)
    requires h[2] == 0
    ensures IsPush(H.SetOneway(h, true))
  {
  }

  lemma NoPairs()
    ensures Enumerates([], map[]) && Records([]) == []
  {
  }

  /** The leak is real: a push with one metadata pair, then a message with none, in two frames. */
  lemma PushLeaks(prev: Msg) returns (ms: seq<Msg>, fs: seq<Bytes>)
    requires prev.metadata == None
    ensures |ms| == 2 && Frames(0, ms, fs) && Receive(0, prev, Concat(fs)).0 != Originals(ms)
  {
    hide Receive, Originals, IsEncoding, FrameOf, Records, IsPush, Enumerates, H.SetOneway, Concat;
    var key: Bytes, text: Bytes := [107], [118];
    var zero: H.Header := [H.MAGIC, 0, 0, 0, 0, 0, 0, 0, 0, 0, 0, 0];
    var push := Wire.Msg(H.SetOneway(zero, true), [], [], Some(map[key := text]), []);
    var next := Wire.Msg(zero, [], [], None, []);
    PushHeader(zero);
    OnePair(key, text);
    NoPairs();
    HasFrame(push, [(key, text)]);
    HasFrame(next, []);
    ms, fs := [push, next], [FrameOf(push, [(key, text)]), FrameOf(next, [])];
    assert key in push.metadata.value;
    assert Leaks(ms, 1);
    hide Leaks;
    LeakIsSeen(0, ms, fs, prev);
  }

  lemma LeakIsSeen(max: int, ms: seq<Msg>, fs: seq<Bytes>, prev: Msg)
    requires Frames(max, ms, fs) && prev.metadata == None && !NoLeak(ms)
    ensures Receive(max, prev, Concat(fs)).0 != Originals(ms)
  {
    hide Receive, SeenAll, Originals, NoLeak, Frames;
    LoopFollowsFrames(max, ms, fs, prev);
    FaithfulIffNoLeak(max, ms, fs, prev);
  }
}
