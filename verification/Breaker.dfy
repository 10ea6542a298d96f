/** The sliding-window circuit breaker (circuit/breaker_simple.go), called by one goroutine at a time. */
module Breaker {
  import opened Integers
  import opened Wrappers

  const MAX_DURATION: int := 0x7FFF_FFFF_FFFF_FFFF

  /** The zero time.Time, in nanoseconds since the Unix epoch. */
  const ZERO_TIME: int := -62135596800_000_000_000

  type U64 = n: int | 0 <= n < TWO64

  datatype Config = Config(threshold: U64, window: int)
  datatype State = State(failures: U64, last: int)

  /** time.Since, which saturates at the ends of time.Duration. */
  function Since(now: int, then_: int): int {
    var d := now - then_;
    if d > MAX_DURATION then MAX_DURATION
    else if d < -MAX_DURATION - 1 then -MAX_DURATION - 1
    else d
  }

  /** Every window an int64 can hold, except the longest, which no saturated difference exceeds. */
  predicate Ordinary(c: Config) {
    -MAX_DURATION - 1 <= c.window < MAX_DURATION
  }

  /** One invocation of Call: its clock readings, and how fn and the timer end should fn be run. */
  datatype Attempt = Attempt(check: int, touch: int, finish: int, ok: bool)

  predicate Quiet(c: Config, s: State, now: int) {
    Since(now, s.last) > c.window
  }

  /** In plain clock time: a gap is quiet exactly when more than the window has passed. */
  lemma QuietInTime(c: Config, s: State, now: int)
    ensures Ordinary(c) ==> (Quiet(c, s, now) <==> now - s.last > c.window)
    ensures c.window == MAX_DURATION ==> !Quiet(c, s, now)
  {
  }

  predicate Admits(c: Config, s: State, a: Attempt) {
    Quiet(c, s, a.check) || s.failures < c.threshold
  }

  /** The whole effect of one invocation: after a quiet gap counting restarts, a rejection is void. */
  function Step(c: Config, s: State, a: Attempt): State {
    if !Admits(c, s, a) then s
    else if a.ok then State(0, a.finish)
    else State((if Quiet(c, s, a.check) then 1 else (s.failures + 1) % TWO64), a.finish)
  }

  datatype Error = BreakerOpen | BreakerTimeout | Failed(text: string)

  class SimpleCircuitBreaker {
    var lastFailureTime: int
    var failures: U64
    const config: Config

    constructor (threshold: U64, window: int)
      ensures config == Config(threshold, window) && Value() == State(0, ZERO_TIME)
    {
      config := Config(threshold, window);
      lastFailureTime, failures := ZERO_TIME, 0;
    }

    function Value(): State
      reads this
    {
      State(failures, lastFailureTime)
    }

    /**
      fnError is what fn returns and timely whether it does so before the timer of duration d;
      the three readings of the clock are made in this order.
    */
    method Call(fnError: Option<string>, d: nat, timely: bool, check: int, touch: int, finish: int)
      returns (err: Option<Error>)
      modifies this
      ensures var a := Attempt(check, touch, finish, fnError == None && (d == 0 || timely));
              && Value() == Step(config, old(Value()), a)
              && (err == Some(BreakerOpen) <==> !Admits(config, old(Value()), a))
              && (err == None <==> Admits(config, old(Value()), a) && a.ok)
      // what comes back from an executed call: its own error, or the timeout
      ensures err != Some(BreakerOpen) ==>
                err == if d > 0 && !timely then Some(BreakerTimeout)
                       else if fnError == None then None else Some(Failed(fnError.value))
      // in clock time: after a quiet gap the call runs, before that it runs below the threshold
      ensures Ordinary(config) ==>
                (err == Some(BreakerOpen)
                 <==> check - old(lastFailureTime) <= config.window && old(failures) >= config.threshold)
    {
      QuietInTime(config, Value(), check);
      var ready := Ready(check, touch);
      if !ready {
        return Some(BreakerOpen);
      }
      if d == 0 || timely {
        err := if fnError == None then None else Some(Failed(fnError.value));
      } else {
        err := Some(BreakerTimeout);
      }
      if err == None {
        Reset(finish);
      } else {
        Fail(finish);
      }
    }

    method Ready(now: int, touch: int) returns (ready: bool)
      modifies this
      ensures ready == (Quiet(config, old(Value()), now) || old(failures) < config.threshold)
      ensures Value() == if Quiet(config, old(Value()), now) then State(0, touch) else old(Value())
      ensures Ordinary(config) && now - old(lastFailureTime) > config.window ==>
                ready && failures == 0 && lastFailureTime == touch
      ensures Ordinary(config) && now - old(lastFailureTime) <= config.window ==>
                && (ready <==> old(failures) < config.threshold)
                && failures == old(failures) && lastFailureTime == old(lastFailureTime)
    {
      QuietInTime(config, Value(), now);
      if Since(now, lastFailureTime) > config.window {
        Reset(touch);
        return true;
      }
      return failures < config.threshold;
    }

    method Fail(now: int)
      modifies this
      ensures Value() == State((old(failures) + 1) % TWO64, now)
    {
      failures := (failures + 1) % TWO64;
      lastFailureTime := now;
    }

    method Reset(now: int)
      modifies this
      ensures Value() == State(0, now)
    {
      failures := 0;
      lastFailureTime := now;
    }
  }

  // ---------------------------------------------------------------- whole traces

  function Final(c: Config, trace: seq<Attempt>): State {
    if trace == [] then State(0, ZERO_TIME)
    else Step(c, Final(c, trace[..|trace| - 1]), trace[|trace| - 1])
  }

  /** The invocations that ran fn. */
  function Executed(c: Config, trace: seq<Attempt>): seq<Attempt> {
    if trace == [] then []
    else
      var before, a := trace[..|trace| - 1], trace[|trace| - 1];
      Executed(c, before) + (if Admits(c, Final(c, before), a) then [a] else [])
  }

  function LastFinish(h: seq<Attempt>): int {
    if h == [] then ZERO_TIME else h[|h| - 1].finish
  }

  /** More than a window passed between the end of history h and the check of a. */
  predicate GapBefore(c: Config, h: seq<Attempt>, a: Attempt) {
    Since(a.check, LastFinish(h)) > c.window
  }

  predicate GapAt(c: Config, h: seq<Attempt>, j: nat)
    requires 0 < j < |h|
  {
    Since(h[j].check, h[j - 1].finish) > c.window
  }

  /** The last k executed calls all failed and no two of them have a quiet gap in between. */
  predicate FailureRun(c: Config, h: seq<Attempt>, k: nat) {
    && k <= |h|
    && (forall j :: |h| - k <= j < |h| ==> !h[j].ok)
    && (forall j :: 0 <= |h| - k < j < |h| ==> !GapAt(c, h, j))
  }

  /** k is the length of the longest such run. */
  ghost predicate LongestRun(c: Config, h: seq<Attempt>, k: nat) {
    && FailureRun(c, h, k)
    && forall m: nat :: FailureRun(c, h, m) ==> m <= k
  }

  lemma RunGrows(c: Config, h: seq<Attempt>, a: Attempt, k: nat)
    requires LongestRun(c, h, k)
    ensures a.ok ==> LongestRun(c, h + [a], 0)
    ensures !a.ok && GapBefore(c, h, a) ==> LongestRun(c, h + [a], 1)
    ensures !a.ok && !GapBefore(c, h, a) ==> LongestRun(c, h + [a], k + 1)
  {
    var g, n := h + [a], |h|;
    assert g[n] == a;
    forall m: nat | FailureRun(c, g, m) && m > 0
      ensures !a.ok && FailureRun(c, h, m - 1)
      ensures m > 1 ==> !GapBefore(c, h, a)
    {
      assert !g[n].ok;
      if m > 1 { assert !GapAt(c, g, n); }
      forall j | n - (m - 1) <= j < n
        ensures !h[j].ok
        ensures 0 <= n - (m - 1) < j ==> !GapAt(c, h, j)
      {
        assert !g[j].ok;
        if n - (m - 1) < j { assert !GapAt(c, g, j); }
      }
    }
    if !a.ok && !GapBefore(c, h, a) {
      forall j | 0 <= |g| - (k + 1) < j < |g| ensures !GapAt(c, g, j) {
        if j < n { assert !GapAt(c, h, j); }
      }
      assert FailureRun(c, g, k + 1);
    }
    if !a.ok && GapBefore(c, h, a) {
      assert FailureRun(c, g, 1);
    }
  }

  function Cap(c: Config): int {
    if c.threshold == 0 then 1 else c.threshold
  }

  /**
    Trace refinement. After any sequence of invocations the counter is the length of the longest
    run of failures that ends the executed history without a quiet gap; it never exceeds the
    threshold (or 1), so it never wraps; and the remembered time is when the last executed call
    ended. Rejected invocations leave no trace.
  */
  lemma {:induction false} CounterIsFailureRun(c: Config, trace: seq<Attempt>)
    ensures LongestRun(c, Executed(c, trace), Final(c, trace).failures)
    ensures Final(c, trace).last == LastFinish(Executed(c, trace))
    ensures Final(c, trace).failures <= Cap(c)
  {
    if trace == [] {
      assert FailureRun(c, [], 0);
    } else {
      var before, a := trace[..|trace| - 1], trace[|trace| - 1];
      CounterIsFailureRun(c, before);
      OneMoreAttempt(c, Executed(c, before), Final(c, before), a);
    }
  }

  lemma OneMoreAttempt(c: Config, h: seq<Attempt>, s: State, a: Attempt)
    requires LongestRun(c, h, s.failures) && s.last == LastFinish(h) && s.failures <= Cap(c)
    ensures var g := if Admits(c, s, a) then h + [a] else h + [];
            var r := Step(c, s, a);
            LongestRun(c, g, r.failures) && r.last == LastFinish(g) && r.failures <= Cap(c)
  {
    assert h + [] == h;
    if Admits(c, s, a) {
      RunGrows(c, h, a, s.failures);
      assert Quiet(c, s, a.check) <==> GapBefore(c, h, a);
    }
  }

  /**
    Whether the next invocation runs, in terms of the executed history and the clock alone: if
    more than the window has passed since the last executed call ended, or fewer failures than the
    threshold end the history.
  */
  lemma AdmissionByHistory(c: Config, trace: seq<Attempt>, a: Attempt, k: nat)
    requires LongestRun(c, Executed(c, trace), k)
    ensures Admits(c, Final(c, trace), a) <==> GapBefore(c, Executed(c, trace), a) || k < c.threshold
    ensures Ordinary(c) ==>
              (Admits(c, Final(c, trace), a)
               <==> a.check - LastFinish(Executed(c, trace)) > c.window || k < c.threshold)
  {
    CounterIsFailureRun(c, trace);
    QuietInTime(c, Final(c, trace), a.check);
  }

  /** The first call ever runs, at any time since 1970, whatever the threshold. */
  lemma FirstCallRuns(c: Config, a: Attempt)
    requires Ordinary(c) && a.check >= 0
    ensures Admits(c, Final(c, []), a)
  {
  }

  /** And an open breaker opens again: a call more than a window after the last one always runs. */
  lemma QuietCallRuns(c: Config, trace: seq<Attempt>, a: Attempt)
    requires Ordinary(c) && a.check - LastFinish(Executed(c, trace)) > c.window
    ensures Admits(c, Final(c, trace), a) && Executed(c, trace + [a]) == Executed(c, trace) + [a]
  {
    CounterIsFailureRun(c, trace);
    QuietInTime(c, Final(c, trace), a.check);
    assert (trace + [a])[..|trace|] == trace;
  }

  /** Every executed call had a reason to be admitted at its place in the history. */
  lemma {:induction false} EveryCallJustified(c: Config, trace: seq<Attempt>, m: nat)
    requires m < |Executed(c, trace)|
    ensures var h := Executed(c, trace);
            GapBefore(c, h[..m], h[m]) || !FailureRun(c, h[..m], c.threshold)
  {
    var before := trace[..|trace| - 1];
    var h, g := Executed(c, trace), Executed(c, before);
    if m < |g| {
      EveryCallJustified(c, before, m);
      assert h[..m] == g[..m];
    } else {
      CounterIsFailureRun(c, before);
      assert h[..m] == g;
    }
  }

  /**
    The promise of the breaker: among any Cap + 1 consecutive executed calls that all fail there
    are two neighbours more than a window apart on the clock.
  */
  lemma BurstsAreBounded(c: Config, trace: seq<Attempt>, i: nat)
    requires i + Cap(c) < |Executed(c, trace)|
    requires forall j :: i <= j <= i + Cap(c) ==> !Executed(c, trace)[j].ok
    ensures exists j :: i < j <= i + Cap(c) && GapAt(c, Executed(c, trace), j)
    ensures Ordinary(c) ==>
              exists j :: i < j <= i + Cap(c)
                          && Executed(c, trace)[j].check - Executed(c, trace)[j - 1].finish > c.window
  {
    var h, m := Executed(c, trace), i + Cap(c);
    EveryCallJustified(c, trace, m);
    var j := m;
    if GapBefore(c, h[..m], h[m]) {
      assert GapAt(c, h, m);
    } else {
      var g := h[..m];
      assert exists l :: 0 <= |g| - c.threshold < l < |g| && GapAt(c, g, l);
      j :| 0 <= |g| - c.threshold < j < |g| && GapAt(c, g, j);
      assert GapAt(c, h, j);
    }
    QuietInTime(c, State(0, h[j - 1].finish), h[j].check);
  }
}

/** The same breaker entered by several goroutines at once; every access to its fields is one step. */
module ConcurrentBreaker {
  import opened Breaker
  import opened Integers

  /** Where a caller stands inside Call. */
  datatype Pc =
    | Idle
    | Resetting      // saw a quiet gap, about to store failures = 0
    | Opening        // stored it, about to set the time
    | Loading        // saw no gap, about to load failures
    | Running        // fn is running
    | Succeeding     // about to store failures = 0
    | Closing        // about to set the time and leave
    | Failing        // about to add one to failures

  datatype Sys = Sys(failures: U64, last: int, pcs: seq<Pc>)

  datatype Event =
    | Check(i: nat, now: int)
    | Advance(i: nat, now: int, ok: bool)

  function Start(n: nat): Sys {
    Sys(0, ZERO_TIME, seq(n, _ => Idle))
  }

  function Move(s: Sys, i: nat, pc: Pc): Sys
    requires i < |s.pcs|
  {
    s.(pcs := s.pcs[i := pc])
  }

  /** One atomic step of caller i; an event that does not fit the caller's position does nothing. */
  function Next(c: Config, s: Sys, e: Event): (r: Sys)
    ensures |r.pcs| == |s.pcs|
  {
    if e.i >= |s.pcs| then s
    else
      match (e, s.pcs[e.i])
      case (Check(i, now), Idle) => Move(s, i, if Since(now, s.last) > c.window then Resetting else Loading)
      case (Advance(i, _, _), Resetting) => Move(s.(failures := 0), i, Opening)
      case (Advance(i, now, _), Opening) => Move(s.(last := now), i, Running)
      case (Advance(i, _, _), Loading) => Move(s, i, if s.failures < c.threshold then Running else Idle)
      case (Advance(i, _, ok), Running) => Move(s, i, if ok then Succeeding else Failing)
      case (Advance(i, _, _), Succeeding) => Move(s.(failures := 0), i, Closing)
      case (Advance(i, _, _), Failing) => Move(s.(failures := (s.failures + 1) % TWO64), i, Closing)
      case (Advance(i, now, _), Closing) => Move(s.(last := now), i, Idle)
      case _ => s
  }

  function Exec(c: Config, s: Sys, es: seq<Event>): (r: Sys)
    ensures |r.pcs| == |s.pcs|
  {
    if es == [] then s else Next(c, Exec(c, s, es[..|es| - 1]), es[|es| - 1])
  }

  /** 1 for a caller that was admitted and may still add a failure. */
  function Credit(pc: Pc): nat {
    if pc in {Opening, Running, Succeeding, Failing} then 1 else 0
  }

  function Credits(pcs: seq<Pc>): (n: nat)
    ensures n <= |pcs|
  {
    if pcs == [] then 0 else Credits(pcs[..|pcs| - 1]) + Credit(pcs[|pcs| - 1])
  }

  lemma {:induction false} CreditsOfUpdate(pcs: seq<Pc>, i: nat, pc: Pc)
    requires i < |pcs|
    ensures Credits(pcs[i := pc]) == Credits(pcs) - Credit(pcs[i]) + Credit(pc)
  {
    var n := |pcs| - 1;
    if i == n {
      assert pcs[i := pc][..n] == pcs[..n];
    } else {
      CreditsOfUpdate(pcs[..n], i, pc);
      assert pcs[i := pc][..n] == pcs[..n][i := pc];
    }
  }

  lemma {:induction false} IdleHasNoCredit(n: nat)
    ensures Credits(seq(n, _ => Idle)) == 0
  {
    if n > 0 {
      IdleHasNoCredit(n - 1);
      assert seq(n, _ => Idle)[..n - 1] == seq(n - 1, _ => Idle);
    }
  }

  /** Failures counted plus failures still owed never pass the cap by the number of callers. */
  predicate Inv(c: Config, s: Sys) {
    s.failures + Credits(s.pcs) <= Cap(c) - 1 + |s.pcs|
  }

  lemma StepKeepsInv(c: Config, s: Sys, e: Event)
    requires Inv(c, s)
    ensures Inv(c, Next(c, s, e))
  {
    var r := Next(c, s, e);
    if r != s {
      CreditsOfUpdate(s.pcs, e.i, r.pcs[e.i]);
    }
  }

  /** With n callers, under every interleaving, failures never exceeds the threshold by n or more. */
  lemma {:induction false} OvershootBound(c: Config, n: nat, es: seq<Event>)
    requires n > 0
    ensures Inv(c, Exec(c, Start(n), es))
    ensures Exec(c, Start(n), es).failures <= Cap(c) + n - 1
  {
    if es == [] {
      IdleHasNoCredit(n);
    } else {
      OvershootBound(c, n, es[..|es| - 1]);
      StepKeepsInv(c, Exec(c, Start(n), es[..|es| - 1]), es[|es| - 1]);
    }
  }

  // ------------------------------------------------------------ one caller at a time

  /** The steps of one invocation by caller 0 alone. */
  function CallSteps(c: Config, s: Sys, a: Attempt): seq<Event> {
    var first := [Check(0, a.check)];
    var run := [Advance(0, a.finish, a.ok), Advance(0, a.finish, a.ok), Advance(0, a.finish, a.ok)];
    if Since(a.check, s.last) > c.window then
      first + [Advance(0, a.touch, a.ok), Advance(0, a.touch, a.ok)] + run
    else if s.failures < c.threshold then first + [Advance(0, a.touch, a.ok)] + run
    else first + [Advance(0, a.touch, a.ok)]
  }

  lemma ExecOne(c: Config, s: Sys, es: seq<Event>, e: Event)
    ensures Exec(c, s, es + [e]) == Next(c, Exec(c, s, es), e)
  {
    hide Next;
    assert (es + [e])[..|es|] == es;
  }

  /** From Running a call ends by recording its outcome. */
  lemma RunsToTheEnd(c: Config, s: Sys, a: Attempt)
    requires s.pcs == [Running]
    ensures Exec(c, s, [Advance(0, a.finish, a.ok), Advance(0, a.finish, a.ok), Advance(0, a.finish, a.ok)])
            == Sys(if a.ok then 0 else (s.failures + 1) % TWO64, a.finish, [Idle])
  {
    var e := Advance(0, a.finish, a.ok);
    assert Exec(c, s, []) == s;
    ExecOne(c, s, [], e);
    ExecOne(c, s, [e], e);
    ExecOne(c, s, [e, e], e);
    assert [] + [e] == [e] && [e] + [e] == [e, e] && [e, e] + [e] == [e, e, e];
    hide Exec;
    assert Next(c, s, e).pcs == [if a.ok then Succeeding else Failing];
  }

  /** How a lone caller gets in, or is turned away. */
  lemma GetsIn(c: Config, s: Sys, a: Attempt)
    requires s.pcs == [Idle]
    ensures var x, y := Check(0, a.check), Advance(0, a.touch, a.ok);
            if Since(a.check, s.last) > c.window then Exec(c, s, [x, y, y]) == Sys(0, a.touch, [Running])
            else Exec(c, s, [x, y]) == s.(pcs := [if s.failures < c.threshold then Running else Idle])
  {
    var x, y := Check(0, a.check), Advance(0, a.touch, a.ok);
    assert Exec(c, s, []) == s;
    ExecOne(c, s, [], x);
    ExecOne(c, s, [x], y);
    ExecOne(c, s, [x, y], y);
    assert [] + [x] == [x] && [x] + [y] == [x, y] && [x, y] + [y] == [x, y, y];
    hide Exec;
    assert Next(c, s, x).pcs == [if Since(a.check, s.last) > c.window then Resetting else Loading];
  }

  /** With one caller the steps of a whole invocation make up the sequential breaker's one. */
  lemma LoneCallIsStep(c: Config, s: Sys, a: Attempt)
    requires s.pcs == [Idle]
    ensures var r := Step(c, State(s.failures, s.last), a);
            Exec(c, s, CallSteps(c, s, a)) == Sys(r.failures, r.last, [Idle])
  {
    var x, y, e := Check(0, a.check), Advance(0, a.touch, a.ok), Advance(0, a.finish, a.ok);
    GetsIn(c, s, a);
    hide Exec, Next;
    assert [x] + [y] == [x, y] && [x] + [y, y] == [x, y, y];
    if Since(a.check, s.last) > c.window {
      RunsToTheEnd(c, Sys(0, a.touch, [Running]), a);
      ExecConcat(c, s, [x, y, y], [e, e, e]);
    } else if s.failures < c.threshold {
      RunsToTheEnd(c, s.(pcs := [Running]), a);
      ExecConcat(c, s, [x, y], [e, e, e]);
    }
  }

  // -------------------------------------------------------- the bound is attained

  lemma {:induction false} ExecConcat(c: Config, s: Sys, a: seq<Event>, b: seq<Event>)
    ensures Exec(c, s, a + b) == Exec(c, Exec(c, s, a), b)
  {
    if b == [] {
      assert a + b == a;
    } else {
      var n := |b| - 1;
      ExecConcat(c, s, a, b[..n]);
      assert (a + b)[..|a| + n] == a + b[..n];
    }
  }

  /** A calm state: every caller from k on is idle, those below are running, the time is now. */
  predicate Calm(s: Sys, now: int, k: nat, f: int) {
    && s.failures == f && s.last == now && k <= |s.pcs|
    && (forall i :: 0 <= i < k ==> s.pcs[i] == Running)
    && (forall i :: k <= i < |s.pcs| ==> s.pcs[i] == Idle)
  }

  function Go(i: nat, now: int, ok: bool): Event {
    Advance(i, now, ok)
  }

  /** Extend a run that has reached state t by one event. */
  lemma Then(c: Config, s: Sys, es: seq<Event>, t: Sys, e: Event) returns (es': seq<Event>, t': Sys)
    requires Exec(c, s, es) == t
    ensures Exec(c, s, es') == t' == Next(c, t, e)
  {
    es', t' := es + [e], Next(c, t, e);
    assert (es + [e])[..|es|] == es;
  }

  /** A first caller enters, whether or not it finds a quiet gap. */
  lemma Enter(c: Config, n: nat, now: int) returns (es: seq<Event>, t: Sys)
    requires n > 0 && c.threshold > 0
    ensures Exec(c, Start(n), es) == t
    ensures t.failures == 0 && t.pcs == Start(n).pcs[0 := Running]
  {
    var s := Start(n);
    assert Exec(c, s, []) == s;
    hide Exec;
    es, t := Then(c, s, [], s, Check(0, now));
    es, t := Then(c, s, es, t, Go(0, now, true));
    if t.pcs[0] != Running {
      es, t := Then(c, s, es, t, Go(0, now, true));
    }
  }

  /** A first successful call leaves a calm state with no failures. */
  lemma WarmUp(c: Config, n: nat, now: int) returns (es: seq<Event>)
    requires n > 0 && c.threshold > 0
    ensures Calm(Exec(c, Start(n), es), now, 0, 0)
  {
    hide Exec;
    var s, e := Start(n), Go(0, now, true);
    var t;
    es, t := Enter(c, n, now);
    es, t := Then(c, s, es, t, e);
    es, t := Then(c, s, es, t, e);
    es, t := Then(c, s, es, t, e);
  }

  /** Caller 0 enters again. */
  lemma EnterAgain(c: Config, s: Sys, now: int, f: nat) returns (es: seq<Event>)
    requires Calm(s, now, 0, f) && |s.pcs| > 0
    requires c.window >= 0 && f < c.threshold
    ensures Exec(c, s, es) == s.(pcs := s.pcs[0 := Running])
  {
    assert Exec(c, s, []) == s;
    hide Exec;
    var t;
    es, t := Then(c, s, [], s, Check(0, now));
    es, t := Then(c, s, es, t, Go(0, now, false));
  }

  /** Caller 0 fails once more. */
  lemma OneFailure(c: Config, s: Sys, now: int, f: nat) returns (es: seq<Event>)
    requires Calm(s, now, 0, f) && |s.pcs| > 0
    requires c.window >= 0 && f < c.threshold - 1
    ensures Calm(Exec(c, s, es), now, 0, f + 1)
  {
    hide Exec;
    es := EnterAgain(c, s, now, f);
    var e, t := Go(0, now, false), Exec(c, s, es);
    es, t := Then(c, s, es, t, e);
    es, t := Then(c, s, es, t, e);
    es, t := Then(c, s, es, t, e);
  }

  lemma {:induction false} ManyFailures(c: Config, s: Sys, now: int, f: nat) returns (es: seq<Event>)
    requires Calm(s, now, 0, 0) && |s.pcs| > 0
    requires c.window >= 0 && f < c.threshold
    ensures Calm(Exec(c, s, es), now, 0, f)
  {
    if f == 0 {
      es := [];
    } else {
      es := ManyFailures(c, s, now, f - 1);
      var more := OneFailure(c, Exec(c, s, es), now, f - 1);
      ExecConcat(c, s, es, more);
      es := es + more;
    }
  }

  /** The callers enter one after the other, all of them finding one failure too few. */
  lemma {:induction false} AllEnter(c: Config, s: Sys, now: int, f: nat, k: nat) returns (es: seq<Event>)
    requires Calm(s, now, 0, f) && k <= |s.pcs|
    requires c.window >= 0 && f < c.threshold
    ensures Calm(Exec(c, s, es), now, k, f)
  {
    es := [];
    assert Exec(c, s, []) == s;
    hide Exec;
    if k > 0 {
      es := AllEnter(c, s, now, f, k - 1);
      var t;
      es, t := Then(c, s, es, Exec(c, s, es), Check(k - 1, now));
      es, t := Then(c, s, es, t, Go(k - 1, now, false));
    }
  }

  /** Then they all fail, the last one to enter first. */
  lemma {:induction false} AllFail(c: Config, s: Sys, now: int, f: nat, k: nat) returns (es: seq<Event>)
    requires Calm(s, now, k, f) && f + k < TWO64
    ensures Exec(c, s, es).failures == f + k
    decreases k
  {
    es := [];
    assert Exec(c, s, []) == s;
    hide Exec;
    if k > 0 {
      var e, t := Go(k - 1, now, false), s;
      es, t := Then(c, s, es, t, e);
      es, t := Then(c, s, es, t, e);
      es, t := Then(c, s, es, t, e);
      var rest := AllFail(c, t, now, f + 1, k - 1);
      ExecConcat(c, s, es, rest);
      es := es + rest;
    }
  }

  /** The overshoot bound cannot be improved: some interleaving reaches it exactly. */
  lemma OvershootIsTight(c: Config, n: nat)
    requires n > 0 && c.threshold > 0 && c.window >= 0 && c.threshold + n - 1 < TWO64
    ensures exists es :: Exec(c, Start(n), es).failures == c.threshold + n - 1
  {
    var now, f := 0, c.threshold - 1;
    var es := WarmUp(c, n, now);
    var b := ManyFailures(c, Exec(c, Start(n), es), now, f);
    ExecConcat(c, Start(n), es, b);
    es := es + b;
    b := AllEnter(c, Exec(c, Start(n), es), now, f, n);
    ExecConcat(c, Start(n), es, b);
    es := es + b;
    b := AllFail(c, Exec(c, Start(n), es), now, f, n);
    ExecConcat(c, Start(n), es, b);
    assert Exec(c, Start(n), es + b).failures == c.threshold + n - 1;
  }
}
