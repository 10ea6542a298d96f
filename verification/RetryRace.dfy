/**
  Any number of retry loops over one shared cache, interleaved with evictions, failing clients and
  Close. Each section under the cache's lock is one step, and so is each call of a client.
*/
module RetryRace {
  import opened Wrappers

  type Conn = nat     // clients are numbered in the order in which they were connected
  type Name = string

  datatype Error = NoServer | DialFailed | CallFailed

  /** Where a goroutine stands in FailOverMod.Call or FailTryMod.Call. */
  datatype Pc =
    | Choosing      // about to ask the selector (failover, and always at the start)
    | Looking       // getCachedClient, the section under the read lock
    | Inserting     // getCachedClient, the section under the write lock
    | Arrived       // has a client or an error, at the head of the loop
    | Calling       // about to call the client
    | Removing      // the call failed or there was no client; about to call removeClient
    | Done

  datatype Loop = Loop(
    failover: bool,
    retries: int,          // as configured
    left: int,             // the loop variable
    entered: bool,         // the first selection is over, the loop runs
    pc: Pc,
    cname: Name,
    client: Option<Conn>,
    err: Option<Error>,
    gone: seq<Conn>,       // the clients called in vain and given up
    succeeded: bool,
    picked: Option<Error>, // the result of the last reselection inside the loop
    empty: nat)            // the turns in which there was no client to call

  /** homes[x] is the address client x was connected to. */
  datatype State = State(cache: map<Name, Conn>, homes: seq<Name>, down: set<Conn>, loops: seq<Loop>)

  datatype Event =
    | Begin(failover: bool, retries: int)
    | Choose(t: nat, name: Name)
    | Look(t: nat)
    | Insert(t: nat, dialOk: bool)
    | Turn(t: nat)
    | Call(t: nat, ok: bool)
    | Remove(t: nat)
    | Evict(name: Name)        // removeClient by somebody else
    | Fail(x: Conn)            // a client's connection ends
    | CloseAll

  function Start(): State {
    State(map[], [], {}, [])
  }

  function With(s: State, t: nat, l: Loop): State
    requires t < |s.loops|
  {
    s.(loops := s.loops[t := l])
  }

  /** getCachedClient returns: the loop reaches its head with a client or an error. */
  function Arrive(l: Loop, client: Option<Conn>, err: Option<Error>): Loop {
    l.(pc := Arrived, client := client, err := err, picked := if l.entered then err else None)
  }

  /** The head of the loop, or for a goroutine not in it yet the check in Call. */
  function TurnOf(l: Loop): Loop {
    if !l.entered && l.err.Some? then l.(pc := Done)
    else if l.left <= 0 then l.(pc := Done, entered := true, err := if l.entered then l.err else None)
    else
      l.(entered := true, left := l.left - 1, err := if l.entered then l.err else None,
         pc := if l.client.Some? then Calling else Removing,
         empty := if l.client.Some? then l.empty else l.empty + 1)
  }

  /** An event that does not fit the position of its goroutine does nothing. */
  function Next(s: State, e: Event): State {
    match e
    case Begin(failover, retries) =>
      s.(loops := s.loops + [Loop(failover, retries, retries, false, Choosing, "", None, None, [], false, None, 0)])
    case Evict(name) => s.(cache := s.cache - {name})
    case Fail(x) => s.(down := s.down + {x})
    case CloseAll => s.(down := s.down + s.cache.Values, cache := map[])
    case _ =>
      if e.t >= |s.loops| then s else Move(s, e, s.loops[e.t])
  }

  function Move(s: State, e: Event, l: Loop): State
    requires e.Choose? || e.Look? || e.Insert? || e.Turn? || e.Call? || e.Remove?
    requires e.t < |s.loops|
  {
    var t := e.t;
    match (e, l.pc)
    case (Choose(_, name), Choosing) =>
      if name == "" then With(s, t, Arrive(l.(cname := ""), None, Some(NoServer)))
      else With(s, t, l.(pc := Looking, cname := name))
    case (Look(_), Looking) =>
      if l.cname in s.cache && s.cache[l.cname] !in s.down
      then With(s, t, Arrive(l, Some(s.cache[l.cname]), None))
      else With(s, t, l.(pc := Inserting))
    case (Insert(_, dialOk), Inserting) =>
      if l.cname in s.cache then With(s, t, Arrive(l, Some(s.cache[l.cname]), None))
      else if !dialOk then With(s, t, Arrive(l, None, Some(DialFailed)))
      else
        var x := |s.homes|;
        With(s.(cache := s.cache[l.cname := x], homes := s.homes + [l.cname]), t, Arrive(l, Some(x), None))
    case (Turn(_), Arrived) => With(s, t, TurnOf(l))
    case (Call(_, ok), Calling) =>
      With(s, t, if ok then l.(pc := Done, succeeded := true, err := None)
                 else l.(pc := Removing, err := Some(CallFailed)))
    case (Remove(_), Removing) =>
      var after := l.(pc := if l.failover then Choosing else Looking);
      if l.client.None? then With(s, t, after)
      else
        var x := l.client.value;
        var cache := if l.cname in s.cache && s.cache[l.cname] == x then s.cache - {l.cname} else s.cache;
        With(s.(cache := cache, down := s.down + {x}), t, after.(gone := l.gone + [x]))
    case _ => s
  }

  function Exec(es: seq<Event>): State {
    if es == [] then Start() else Next(Exec(es[..|es| - 1]), es[|es| - 1])
  }

  // ------------------------------------------------------------------- invariants

  /** Every cached client is the one connected to the address it is cached under. */
  predicate Housed(s: State) {
    forall n :: n in s.cache ==> s.cache[n] < |s.homes| && s.homes[s.cache[n]] == n
  }

  predicate Cached(s: State, x: Conn) {
    x < |s.homes| && s.homes[x] in s.cache && s.cache[s.homes[x]] == x
  }

  /** All clients the loop has called so far, in order. */
  function Tried(l: Loop): seq<Conn> {
    l.gone + (if (l.pc == Removing || l.succeeded) && l.client.Some? then [l.client.value] else [])
  }

  function Pos(n: int): nat {
    if n > 0 then n else 0
  }

  /** The clients of a loop: those given up are gone for good, the current one is none of them. */
  predicate ClientsOk(s: State, l: Loop) {
    && (forall i :: 0 <= i < |l.gone| ==>
          l.gone[i] < |s.homes| && !Cached(s, l.gone[i]) && l.gone[i] in s.down)
    && (forall i, j :: 0 <= i < j < |l.gone| ==> l.gone[i] != l.gone[j])
    && (l.client.Some? && (l.pc == Arrived || l.pc == Calling || l.pc == Removing || l.succeeded) ==>
          && l.client.value < |s.homes| && s.homes[l.client.value] == l.cname
          && l.client.value !in l.gone)
  }

  /** Its budget of attempts and its result. */
  predicate BooksOk(l: Loop) {
    && (l.pc == Calling ==> l.client.Some?)
    && |Tried(l)| + l.empty + Pos(l.left) + (if l.pc == Calling then 1 else 0) == Pos(l.retries)
    && (l.pc == Arrived ==> (l.client.Some? <==> l.err == None))
    && (l.pc == Removing && l.client.Some? ==> l.err == Some(CallFailed))
    && (l.pc == Done && l.entered && !l.succeeded ==> l.left <= 0)
    && (l.succeeded ==> l.pc == Done && l.err == None && l.client.Some?)
    && (l.pc == Done && l.entered && !l.succeeded ==> l.err == l.picked)
    && (l.pc == Arrived && l.entered ==> l.err == l.picked)
    && l.picked != Some(CallFailed)
    && (l.entered && l.retries <= 0 ==> l.pc == Done && l.err == None && !l.succeeded)
    && (!l.entered ==>
          && l.gone == [] && l.left == l.retries && l.picked == None && !l.succeeded && l.empty == 0
          && l.pc != Calling && l.pc != Removing && (l.pc == Done ==> l.err.Some?))
  }

  predicate LoopOk(s: State, l: Loop) {
    ClientsOk(s, l) && BooksOk(l)
  }

  predicate Inv(s: State) {
    && Housed(s)
    && forall t :: 0 <= t < |s.loops| ==> LoopOk(s, s.loops[t])
  }

  /** Whatever others do to the cache, a client once gone from it does not come back. */
  predicate OnlyFreshEnter(s: State, r: State) {
    && s.homes <= r.homes && s.down <= r.down
    && forall x :: 0 <= x < |s.homes| && Cached(r, x) ==> Cached(s, x)
  }

  lemma OthersAreSafe(s: State, r: State, l: Loop)
    requires LoopOk(s, l) && OnlyFreshEnter(s, r)
    ensures LoopOk(r, l)
  {
  }

  /** Replacing the record of one goroutine, with the cache untouched. */
  lemma SameCache(s: State, t: nat, l: Loop)
    requires Inv(s) && t < |s.loops| && LoopOk(s, l)
    ensures StepOk(s, With(s, t, l), t)
  {
    assert forall x :: Cached(With(s, t, l), x) == Cached(s, x);
    OthersAreSafe(s, With(s, t, l), l);
  }

  predicate StepOk(s: State, r: State, t: nat) {
    && Housed(r) && OnlyFreshEnter(s, r) && t < |r.loops| == |s.loops|
    && LoopOk(r, r.loops[t])
    && forall u :: 0 <= u < |s.loops| && u != t ==> r.loops[u] == s.loops[u]
  }

  lemma Stutter(s: State, t: nat)
    requires Inv(s) && t < |s.loops|
    ensures StepOk(s, s, t)
  {
  }

  lemma ChooseStep(s: State, e: Event)
    requires Inv(s) && e.Choose? && e.t < |s.loops|
    ensures StepOk(s, Move(s, e, s.loops[e.t]), e.t)
  {
    hide StepOk;
    var l, r := s.loops[e.t], Move(s, e, s.loops[e.t]);
    assert LoopOk(s, l);
    if r == s { Stutter(s, e.t); } else { SameCache(s, e.t, r.loops[e.t]); }
  }

  lemma LookStep(s: State, e: Event)
    requires Inv(s) && e.Look? && e.t < |s.loops|
    ensures StepOk(s, Move(s, e, s.loops[e.t]), e.t)
  {
    hide StepOk;
    var l, r := s.loops[e.t], Move(s, e, s.loops[e.t]);
    assert LoopOk(s, l);
    if r == s { Stutter(s, e.t); } else { SameCache(s, e.t, r.loops[e.t]); }
  }

  /** A new client gets a number nobody has used. */
  lemma NewClient(s: State, t: nat, l: Loop)
    requires Inv(s) && t < |s.loops| && LoopOk(s, l) && l.pc == Inserting && l.cname !in s.cache
    ensures var x := |s.homes|;
            var r := s.(cache := s.cache[l.cname := x], homes := s.homes + [l.cname]);
            StepOk(s, With(r, t, Arrive(l, Some(x), None)), t)
  {
    var x := |s.homes|;
    var r := With(s.(cache := s.cache[l.cname := x], homes := s.homes + [l.cname]), t, Arrive(l, Some(x), None));
    assert OnlyFreshEnter(s, r);
    OthersAreSafe(s, r, l);
  }

  lemma InsertStep(s: State, e: Event)
    requires Inv(s) && e.Insert? && e.t < |s.loops|
    ensures StepOk(s, Move(s, e, s.loops[e.t]), e.t)
  {
    hide StepOk;
    var l, r := s.loops[e.t], Move(s, e, s.loops[e.t]);
    assert LoopOk(s, l);
    if l.pc == Inserting && l.cname !in s.cache && e.dialOk { NewClient(s, e.t, l); }
    else if r == s { Stutter(s, e.t); } else { SameCache(s, e.t, r.loops[e.t]); }
  }

  lemma TurnBooks(l: Loop)
    requires BooksOk(l) && l.pc == Arrived
    ensures BooksOk(TurnOf(l))
  {
  }

  lemma TurnClients(s: State, l: Loop)
    requires ClientsOk(s, l) && l.pc == Arrived && !l.succeeded
    ensures ClientsOk(s, TurnOf(l))
  {
  }

  lemma TurnStep(s: State, e: Event)
    requires Inv(s) && e.Turn? && e.t < |s.loops|
    ensures StepOk(s, Move(s, e, s.loops[e.t]), e.t)
  {
    var l := s.loops[e.t];
    assert LoopOk(s, l);
    if l.pc == Arrived {
      assert !l.succeeded && Move(s, e, l) == With(s, e.t, TurnOf(l));
      hide StepOk, ClientsOk, BooksOk, Move, TurnOf;
      TurnBooks(l);
      TurnClients(s, l);
      SameCache(s, e.t, TurnOf(l));
    } else {
      assert Move(s, e, l) == s;
      hide StepOk, Move;
      Stutter(s, e.t);
    }
  }

  lemma CallStep(s: State, e: Event)
    requires Inv(s) && e.Call? && e.t < |s.loops|
    ensures StepOk(s, Move(s, e, s.loops[e.t]), e.t)
  {
    hide StepOk;
    var l, r := s.loops[e.t], Move(s, e, s.loops[e.t]);
    assert LoopOk(s, l);
    if r == s { Stutter(s, e.t); } else { SameCache(s, e.t, r.loops[e.t]); }
  }

  lemma RemovalKeepsBooks(l: Loop, pc: Pc, x: Conn)
    requires BooksOk(l) && l.pc == Removing && (pc == Choosing || pc == Looking)
    ensures l.client == None ==> BooksOk(l.(pc := pc))
    ensures l.client == Some(x) ==> BooksOk(l.(pc := pc, gone := l.gone + [x]))
  {
  }

  /** removeClient takes the failed client out of the cache, wherever it was. */
  lemma RemoveStep(s: State, e: Event)
    requires Inv(s) && e.Remove? && e.t < |s.loops|
    ensures StepOk(s, Move(s, e, s.loops[e.t]), e.t)
  {
    var l, r := s.loops[e.t], Move(s, e, s.loops[e.t]);
    assert LoopOk(s, l);
    if l.pc == Removing {
      RemovalKeepsBooks(l, if l.failover then Choosing else Looking, if l.client.Some? then l.client.value else 0);
      hide BooksOk;
      assert l.client.Some? ==> !Cached(r, l.client.value);
      assert OnlyFreshEnter(s, r);
    } else {
      assert r == s;
      hide StepOk, Move;
      Stutter(s, e.t);
    }
  }

  lemma LoopStep(s: State, e: Event)
    requires Inv(s) && (e.Choose? || e.Look? || e.Insert? || e.Turn? || e.Call? || e.Remove?)
    requires e.t < |s.loops|
    ensures StepOk(s, Move(s, e, s.loops[e.t]), e.t)
  {
    hide Move, StepOk, Inv;
    match e {
      case Choose(_, _) => ChooseStep(s, e);
      case Look(_) => LookStep(s, e);
      case Insert(_, _) => InsertStep(s, e);
      case Turn(_) => TurnStep(s, e);
      case Call(_, _) => CallStep(s, e);
      case Remove(_) => RemoveStep(s, e);
    }
  }

  lemma InvKept(s: State, e: Event)
    requires Inv(s)
    ensures Inv(Next(s, e))
  {
    var r := Next(s, e);
    if (e.Choose? || e.Look? || e.Insert? || e.Turn? || e.Call? || e.Remove?) && e.t < |s.loops| {
      LoopStep(s, e);
    } else {
      assert OnlyFreshEnter(s, r);
    }
    hide Move;
    forall t | 0 <= t < |r.loops| ensures LoopOk(r, r.loops[t]) {
      if t < |s.loops| && r.loops[t] == s.loops[t] { OthersAreSafe(s, r, s.loops[t]); }
    }
  }

  lemma {:induction false} EveryRun(es: seq<Event>)
    ensures Inv(Exec(es))
  {
    if es != [] {
      EveryRun(es[..|es| - 1]);
      InvKept(Exec(es[..|es| - 1]), es[|es| - 1]);
    }
  }

  // ------------------------------------------------------------------ the theorems

  /** The cache is injective and holds a client only under the address it was connected to. */
  lemma CacheIsInjective(es: seq<Event>, a: Name, b: Name)
    requires a in Exec(es).cache && b in Exec(es).cache && a != b
    ensures Exec(es).cache[a] != Exec(es).cache[b]
  {
    EveryRun(es);
  }

  /**
    Under every interleaving a retry loop calls no client twice, uses each of its max(retries, 0)
    turns for one attempt unless it has no client, and a client it has given up is down and never
    comes back into the cache.
  */
  lemma NoClientTwice(es: seq<Event>, t: nat)
    requires t < |Exec(es).loops|
    ensures var s := Exec(es); var l := s.loops[t];
            && (forall i, j :: 0 <= i < j < |Tried(l)| ==> Tried(l)[i] != Tried(l)[j])
            && |Tried(l)| + l.empty <= Pos(l.retries)
            && (forall i :: 0 <= i < |l.gone| ==> !Cached(s, l.gone[i]) && l.gone[i] in s.down)
  {
    EveryRun(es);
    assert LoopOk(Exec(es), Exec(es).loops[t]);
    hide Exec;
  }

  /**
    The result of a finished loop: nil after a success, and otherwise the result of the last
    reselection, which is nil when that one succeeded and never the error of a call. Without a
    success every turn was used. Without retries it is nil and nobody was called at all.
  */
  lemma ResultOfLoop(es: seq<Event>, t: nat)
    requires t < |Exec(es).loops| && Exec(es).loops[t].pc == Done && Exec(es).loops[t].entered
    ensures var l := Exec(es).loops[t];
            && (l.succeeded ==> l.err == None && Tried(l) != [])
            && (!l.succeeded ==> l.err == l.picked && l.err != Some(CallFailed))
            && (!l.succeeded ==> |Tried(l)| + l.empty == Pos(l.retries))
            && (l.err == None <==> l.succeeded || l.picked == None)
            && (l.retries <= 0 ==> l.err == None && Tried(l) == [])
  {
    EveryRun(es);
    assert LoopOk(Exec(es), Exec(es).loops[t]);
    hide Exec;
  }

  /** A client is given up only after a call of it failed. */
  lemma GivenUpOnlyAfterFailure(es: seq<Event>, t: nat)
    requires t < |Exec(es).loops| && Exec(es).loops[t].pc == Removing && Exec(es).loops[t].client.Some?
    ensures Exec(es).loops[t].err == Some(CallFailed)
  {
    EveryRun(es);
    assert LoopOk(Exec(es), Exec(es).loops[t]);
    hide Exec;
  }

  /** A client in hand at the head of the loop is called, as long as there are turns left. */
  lemma ClientInHandIsCalled(es: seq<Event>, t: nat)
    requires t < |Exec(es).loops|
    requires var l := Exec(es).loops[t]; l.pc == Arrived && l.client.Some? && l.left > 0
    ensures var l, r := Exec(es).loops[t], Next(Exec(es), Turn(t));
            && r.loops[t].pc == Calling && r.loops[t].client == l.client && r.loops[t].left == l.left - 1
            && r.cache == Exec(es).cache
            && Next(r, Call(t, true)).loops[t].succeeded && Next(r, Call(t, true)).loops[t].err == None
  {
    EveryRun(es);
    assert LoopOk(Exec(es), Exec(es).loops[t]);
    hide Exec;
  }

  /** Nobody is replaced: an address keeps its client until that client is taken out. */
  lemma NobodyIsReplaced(s: State, e: Event, n: Name)
    requires n in s.cache && n in Next(s, e).cache
    ensures Next(s, e).cache[n] == s.cache[n]
  {
  }

  /** An empty choice is an error; any other is looked up. */
  lemma ChoiceIsLookedUp(s: State, t: nat, name: Name)
    requires t < |s.loops| && s.loops[t].pc == Choosing
    ensures var l := Next(s, Choose(t, name)).loops[t];
            if name == "" then l.pc == Arrived && l.client == None && l.err == Some(NoServer)
            else l.pc == Looking && l.cname == name
  {
  }

  /** After a failure failover chooses anew, while failtry goes back to the server it has. */
  lemma AfterRemoval(s: State, t: nat)
    requires t < |s.loops| && s.loops[t].pc == Removing
    ensures var l, r := s.loops[t], Next(s, Remove(t)).loops[t];
            r.cname == l.cname && r.pc == if l.failover then Choosing else Looking
  {
  }

  /** Close of the parent takes every cached client down and empties the cache. */
  lemma CloseTakesAllDown(s: State, n: Name)
    ensures Next(s, CloseAll).cache == map[] && s.down <= Next(s, CloseAll).down
    ensures n in s.cache ==> s.cache[n] in Next(s, CloseAll).down
  {
  }

  /** The first look at the cache returns only clients that are not down. */
  lemma FirstLookIsLive(s: State, t: nat)
    requires t < |s.loops| && s.loops[t].pc == Looking
    ensures var l := Next(s, Look(t)).loops[t];
            if s.loops[t].cname in s.cache && s.cache[s.loops[t].cname] !in s.down
            then l.pc == Arrived && l.client == Some(s.cache[s.loops[t].cname]) && l.err == None
            else l.pc == Inserting
  {
  }

  /** The second one returns whatever is cached, and connects only if nothing is. */
  lemma SecondLook(s: State, t: nat, dialOk: bool)
    requires t < |s.loops| && s.loops[t].pc == Inserting
    ensures var l, r := s.loops[t], Next(s, Insert(t, dialOk));
            && r.loops[t].pc == Arrived
            && (l.cname in s.cache ==>
                  r.loops[t].client == Some(s.cache[l.cname]) && r.loops[t].err == None && r.cache == s.cache)
            && (l.cname !in s.cache && dialOk ==>
                  r.loops[t].client == Some(|s.homes|) && r.loops[t].err == None
                  && r.cache == s.cache[l.cname := |s.homes|])
            && (l.cname !in s.cache && !dialOk ==>
                  r.loops[t].client == None && r.loops[t].err == Some(DialFailed) && r.cache == s.cache)
  {
  }

  /** Extend a run that has reached state s by one event. */
  lemma Then(es: seq<Event>, s: State, e: Event) returns (es': seq<Event>, r: State)
    requires Exec(es) == s
    ensures Exec(es') == r == Next(s, e)
  {
    es', r := es + [e], Next(s, e);
    assert (es + [e])[..|es|] == es;
  }

  /** Loop 0 selects an address that is not cached and connects to it. */
  lemma Connect(es: seq<Event>, s: State, name: Name) returns (es': seq<Event>, r: State)
    requires Exec(es) == s && |s.loops| == 1 && s.loops[0].pc == Choosing && name != "" && name !in s.cache
    ensures Exec(es') == r
    ensures var x := |s.homes|;
            r == s.(cache := s.cache[name := x], homes := s.homes + [name],
                    loops := [Arrive(s.loops[0].(cname := name), Some(x), None)])
  {
    hide Exec;
    es', r := Then(es, s, Choose(0, name));
    es', r := Then(es', r, Look(0));
    assert r == s.(loops := [s.loops[0].(pc := Inserting, cname := name)]);
    es', r := Then(es', r, Insert(0, true));
  }

  /** A failover loop that has one turn left calls its client in vain and gives it up. */
  lemma CallInVain(es: seq<Event>, s: State) returns (es': seq<Event>, r: State)
    requires Exec(es) == s && |s.loops| == 1
    requires var l := s.loops[0]; l.pc == Arrived && l.client.Some? && l.left == 1 && l.err == None && l.failover
    ensures Exec(es') == r && |r.loops| == 1
    ensures forall n :: n in r.cache ==> n in s.cache
    ensures var l := s.loops[0];
            r.loops[0] == l.(entered := true, left := 0, pc := Choosing, err := Some(CallFailed),
                             gone := l.gone + [l.client.value])
  {
    hide Exec;
    var l := s.loops[0];
    es', r := Then(es, s, Turn(0));
    assert r.loops == [l.(entered := true, left := 0, pc := Calling)] && r.cache == s.cache;
    es', r := Then(es', r, Call(0, false));
    assert r.loops == [l.(entered := true, left := 0, pc := Removing, err := Some(CallFailed))] && r.cache == s.cache;
    es', r := Then(es', r, Remove(0));
  }

  /** A nil result does not mean success: one failed call, then a reselection that connects. */
  lemma NilAfterFailure() returns (es: seq<Event>)
    ensures var s := Exec(es);
            && |s.loops| == 1 && s.loops[0].pc == Done && s.loops[0].err == None
            && !s.loops[0].succeeded && Tried(s.loops[0]) == [0]
  {
    var s;
    es, s := Then([], Start(), Begin(true, 1));
    hide Exec;
    es, s := Connect(es, s, "a");
    es, s := CallInVain(es, s);
    es, s := Connect(es, s, "b");
    es, s := LastTurn(es, s);
  }

  lemma LastTurn(es: seq<Event>, s: State) returns (es': seq<Event>, r: State)
    requires Exec(es) == s && |s.loops| == 1 && s.loops[0].pc == Arrived && s.loops[0].left == 0 && s.loops[0].entered
    ensures Exec(es') == r && r.loops == [s.loops[0].(pc := Done)]
  {
    hide Exec;
    es', r := Then(es, s, Turn(0));
  }

  /** A second loop comes to the same address and finds the client there down. */
  lemma SecondLoopLooks(es: seq<Event>, s: State, name: Name) returns (es': seq<Event>, r: State)
    requires Exec(es) == s && |s.loops| == 1 && name != "" && name in s.cache && s.cache[name] in s.down
    ensures Exec(es') == r && r.cache == s.cache && r.down == s.down
    ensures |r.loops| == 2 && r.loops[1].pc == Inserting && r.loops[1].cname == name
  {
    hide Exec;
    es', r := Then(es, s, Begin(true, 1));
    es', r := Then(es', r, Choose(1, name));
    assert r.loops[1].pc == Looking && r.loops[1].cname == name && |r.loops| == 2;
    es', r := Then(es', r, Look(1));
  }

  /** A dead client can be returned, because the second look does not ask again. */
  lemma DeadClientIsReturned() returns (es: seq<Event>)
    ensures var s := Exec(es);
            |s.loops| == 2 && s.loops[1].pc == Arrived && s.loops[1].client == Some(0) && 0 in s.down
  {
    var s;
    es, s := Then([], Start(), Begin(true, 1));
    hide Exec;
    es, s := Connect(es, s, "a");
    es, s := Then(es, s, Fail(0));
    es, s := SecondLoopLooks(es, s, "a");
    es, s := Then(es, s, Insert(1, true));
  }
}
