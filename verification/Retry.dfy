/**
  The client cache and the two retry loops (client/client.go:246-304, client/failmod_failover.go,
  client/failmod_failtry.go), executed by one goroutine.
*/
module Retry {
  import opened Wrappers

  datatype Error = NoServer | DialFailed | CallFailed(text: string)

  /** One connected client; only its identity matters here. */
  class Conn {
    constructor () {}
  }

  /** What the selector, the network and the servers answer: the i-th choice, dial and call. */
  datatype World = World(choice: nat -> string, dials: nat -> bool, calls: nat -> Option<Error>)

  class ClientCache {
    var cached: map<string, Conn>
    var down: set<Conn>            // clients that are closing or shut down

    /** No client is cached under two names. */
    ghost predicate Valid()
      reads this
    {
      forall a, b :: a in cached && b in cached && a != b ==> cached[a] != cached[b]
    }

    ghost predicate Caches(conn: Conn)
      reads this
    {
      exists n :: n in cached && cached[n] == conn
    }

    constructor ()
      ensures Valid() && cached == map[] && down == {}
    {
      cached, down := map[], {};
    }

    method RemoveClient(cname: string, conn: Conn?)
      modifies this
      ensures cached == if conn != null && cname in old(cached) && old(cached)[cname] == conn
                        then old(cached) - {cname} else old(cached)
      ensures down == if conn != null then old(down) + {conn} else old(down)
      ensures old(Valid()) ==> Valid()
    {
      if conn != null {
        if cname in cached && cached[cname] == conn {
          cached := cached - {cname};
        }
        down := down + {conn};
      }
    }

    /** A dead client found by the second look is returned all the same. */
    method GetCachedClient(cname: string, dialOk: bool) returns (conn: Conn?, err: Option<Error>)
      requires Valid()
      modifies this
      ensures Valid() && down == old(down)
      ensures err == if cname in old(cached) || dialOk then None else Some(DialFailed)
      ensures err == None <==> conn != null
      ensures cached == if conn != null then old(cached)[cname := conn] else old(cached)
      ensures conn != null ==> if cname in old(cached) then conn == old(cached)[cname] else fresh(conn)
    {
      if cname in cached && cached[cname] !in down {
        return cached[cname], None;
      }
      if cname in cached {
        return cached[cname], None;
      }
      if !dialOk {
        return null, Some(DialFailed);
      }
      var c := new Conn();
      cached := cached[cname := c];
      return c, None;
    }

    method SelectClient(choice: string, dialOk: bool)
      returns (cname: string, conn: Conn?, err: Option<Error>)
      requires Valid()
      modifies this
      ensures Valid() && down == old(down) && cname == choice
      ensures err == if choice == "" then Some(NoServer)
                     else if choice in old(cached) || dialOk then None else Some(DialFailed)
      ensures err == None <==> conn != null
      ensures cached == if conn != null then old(cached)[cname := conn] else old(cached)
      ensures conn != null ==> if cname in old(cached) then conn == old(cached)[cname] else fresh(conn)
    {
      if choice == "" {
        return "", null, Some(NoServer);
      }
      cname := choice;
      conn, err := GetCachedClient(cname, dialOk);
    }

    /** The clients called so far are pairwise different, closed and not cached any more. */
    ghost predicate Spent(tried: seq<Conn>)
      reads this
    {
      && (forall i, j :: 0 <= i < j < |tried| ==> tried[i] != tried[j])
      && (forall i :: 0 <= i < |tried| ==> !Caches(tried[i]) && tried[i] in down)
    }

    /** What follows a failure: failover selects anew, otherwise the same server is connected to again. */
    method Reselect(failover: bool, cname: string, choice: string, dialOk: bool, ghost tried: seq<Conn>)
      returns (next: string, conn: Conn?, err: Option<Error>)
      requires Valid() && Spent(tried)
      modifies this
      ensures Valid() && Spent(tried) && down == old(down)
      ensures next == if failover then choice else cname
      ensures err == if failover && choice == "" then Some(NoServer)
                     else if next in old(cached) || dialOk then None else Some(DialFailed)
      ensures err == None <==> conn != null
      ensures if conn != null then next in cached && cached[next] == conn else cached == old(cached)
    {
      if failover {
        next, conn, err := SelectClient(choice, dialOk);
      } else {
        next := cname;
        conn, err := GetCachedClient(cname, dialOk);
      }
    }

    /** What follows a failure in one turn: the client is given up and another one looked for. */
    method GiveUp(failover: bool, cname: string, client: Conn?, choice: string, dialOk: bool, ghost before: seq<Conn>)
      returns (next: string, conn: Conn?, err: Option<Error>)
      requires Valid() && Spent(before) && (client != null ==> cname in cached && cached[cname] == client)
      modifies this
      ensures Valid() && Spent(before + if client == null then [] else [client])
      ensures next == if failover then choice else cname
      ensures err == if failover && choice == "" then Some(NoServer)
                     else if (next in old(cached) && (client == null || next != cname)) || dialOk then None
                     else Some(DialFailed)
      ensures err == None <==> conn != null
      ensures conn != null ==> next in cached && cached[next] == conn
      ensures err == Some(DialFailed) ==> next !in cached
    {
      assert client != null ==> Caches(client);
      RemoveClient(cname, client);
      assert Spent(before + if client == null then [] else [client]);
      next, conn, err := Reselect(failover, cname, choice, dialOk, before + if client == null then [] else [client]);
    }

    /** The server the reselection numbered turn asked for. */
    static function Asked(failover: bool, name: string, w: World, turn: nat): string {
      if failover then w.choice(turn) else name
    }

    /** The result of that reselection, by the selector, the network and the cache it leaves. */
    ghost predicate Reselected(failover: bool, name: string, w: World, turn: nat, err: Option<Error>)
      reads this
    {
      var asked := Asked(failover, name, w, turn);
      && err == (if failover && asked == "" then Some(NoServer)
                 else if asked in cached then None else Some(DialFailed))
      && (err == Some(DialFailed) ==> !w.dials(turn))
    }

    /** The clients among those in hand, in order. */
    static ghost function Called(hands: seq<Conn?>): seq<Conn> {
      if hands == [] then []
      else
        var c := hands[|hands| - 1];
        Called(hands[..|hands| - 1]) + if c == null then [] else [c]
    }

    /**
      What a loop had in hand turn by turn and what it was given: the first client first, then a
      client exactly after a reselection that succeeded; tried are those in hand.
    */
    static ghost predicate Story(first: Conn?, hands: seq<Conn?>, picks: seq<Option<Error>>, tried: seq<Conn>) {
      && |picks| <= |hands| <= |picks| + 1
      && tried == Called(hands)
      && (hands != [] ==> hands[0] == first)
      && (forall i :: 0 < i < |hands| ==> (hands[i] != null <==> picks[i - 1] == None))
    }

    static lemma StoryHand(first: Conn?, hands: seq<Conn?>, picks: seq<Option<Error>>, tried: seq<Conn>, c: Conn?)
      requires Story(first, hands, picks, tried) && |hands| == |picks|
      requires if hands == [] then c == first else c != null <==> picks[|picks| - 1] == None
      ensures Story(first, hands + [c], picks, tried + if c == null then [] else [c])
    {
      assert (hands + [c])[..|hands|] == hands;
    }

    static lemma StoryPick(first: Conn?, hands: seq<Conn?>, picks: seq<Option<Error>>, tried: seq<Conn>,
                           err: Option<Error>)
      requires Story(first, hands, picks, tried) && |hands| == |picks| + 1
      ensures Story(first, hands, picks + [err], tried)
    {
    }

    static lemma StoryFirst(first: Conn, hands: seq<Conn?>, picks: seq<Option<Error>>, tried: seq<Conn>)
      requires Story(first, hands, picks, tried) && hands != []
      ensures tried != [] && tried[0] == first
    {
      FirstIsCalled(first, hands);
    }

    static lemma {:induction false} FirstIsCalled(first: Conn, hands: seq<Conn?>)
      requires hands != [] && hands[0] == first
      ensures Called(hands) != [] && Called(hands)[0] == first
    {
      if |hands| > 1 {
        FirstIsCalled(first, hands[..|hands| - 1]);
      } else {
        assert hands[..0] == [];
      }
    }

    /** The head of the loop after some failed turns, with the client in hand and the last result. */
    ghost predicate Head(failover: bool, first: Conn?, name: string, w: World, cname: string, client: Conn?,
                         err: Option<Error>, tried: seq<Conn>, hands: seq<Conn?>, picks: seq<Option<Error>>)
      reads this
    {
      var turns := |picks|;
      && Valid() && Spent(tried) && Story(first, hands, picks, tried) && |hands| == turns
      && |tried| <= turns && (forall i :: 0 <= i < |tried| ==> w.calls(i).Some?)
      && (client != null ==> cname in cached && cached[cname] == client)
      && (!failover ==> cname == name)
      && (turns == 0 ==> err == None && client == first)
      && (turns > 0 ==>
            && err == picks[turns - 1] && Reselected(failover, name, w, turns - 1, err)
            && (client != null <==> err == None)
            && (!failover && first != null ==> (err == None <==> w.dials(turns - 1)))
            && (first != null ==> tried != []))
    }

    /** One turn that does not succeed. */
    method FailedTurn(failover: bool, ghost first: Conn?, ghost name: string, w: World, cname: string, client: Conn?,
                      ghost err: Option<Error>, ghost before: seq<Conn>, ghost hands: seq<Conn?>,
                      ghost picks: seq<Option<Error>>, turns: nat)
      returns (next: string, conn: Conn?, res: Option<Error>)
      requires Head(failover, first, name, w, cname, client, err, before, hands, picks) && turns == |picks|
      requires client != null ==> w.calls(|before|).Some?
      modifies this
      ensures Head(failover, first, name, w, next, conn, res, before + (if client == null then [] else [client]),
                   hands + [client], picks + [res])
    {
      hide Story, Called, Spent;
      StoryHand(first, hands, picks, before, client);
      next, conn, res := GiveUp(failover, cname, client, w.choice(turns), w.dials(turns), before);
      ghost var tried := before + if client == null then [] else [client];
      StoryPick(first, hands + [client], picks, tried, res);
    }

    /**
      One retry loop: failover selects anew after every failure, otherwise the same server is
      connected to again. tried lists the clients called, turns counts the reselections; hands
      lists what was in hand in each turn and picks what each reselection gave.
    */
    method RetryLoop(failover: bool, first: Conn?, name: string, retries: int, w: World)
      returns (err: Option<Error>, tried: seq<Conn>, turns: nat,
               ghost hands: seq<Conn?>, ghost picks: seq<Option<Error>>)
      requires Valid()
      requires first != null ==> name in cached && cached[name] == first
      modifies this
      ensures Valid()
      // at most `retries` attempts, on pairwise different clients
      ensures |tried| <= if retries > 0 then retries else 0
      ensures forall i, j :: 0 <= i < j < |tried| ==> tried[i] != tried[j]
      // a client in hand is called: the given one first, then whatever a reselection delivered
      ensures Story(first, hands, picks, tried) && |picks| == turns && (retries > 0 ==> hands != [])
      ensures retries > 0 && first != null ==> tried != [] && tried[0] == first
      // it stops at the first success, having changed nothing if that is the first call
      ensures forall i :: 0 <= i < |tried| - 1 ==> w.calls(i).Some?
      ensures tried != [] && w.calls(|tried| - 1).None? ==> err == None && |hands| == turns + 1
      ensures retries > 0 && first != null && w.calls(0).None? ==>
                tried == [first] && turns == 0 && err == None && cached == old(cached) && down == old(down)
      // otherwise it uses up its turns and returns what the last reselection gave, never the
      // error of a call
      ensures tried == [] || w.calls(|tried| - 1).Some? ==>
                && turns == (if retries > 0 then retries else 0) && |hands| == turns
                && (turns == 0 ==> err == None)
                && (turns > 0 ==> err == picks[turns - 1] && Reselected(failover, name, w, turns - 1, err))
                && (turns > 0 && !failover && first != null ==> (err == None <==> w.dials(turns - 1)))
      // the clients given up are closed and out of the cache
      ensures forall i :: 0 <= i < |tried| && w.calls(i).Some? ==> !Caches(tried[i]) && tried[i] in down
    {
      var left, cname, client := retries, name, first;
      turns := 0;
      err, tried := None, [];
      hands, picks := [], [];
      assert Story(first, hands, picks, tried);
      hide Story, Called;
      while left > 0
        invariant Head(failover, first, name, w, cname, client, err, tried, hands, picks) && |picks| == turns
        invariant turns + (if left > 0 then left else 0) == (if retries > 0 then retries else 0)
        invariant turns == 0 ==> cached == old(cached) && down == old(down)
      {
        left := left - 1;
        ghost var before, last := tried, err;
        if client != null {
          err := w.calls(|tried|);
          tried := tried + [client];
          if err == None {
            LastHand(failover, first, name, w, cname, client, last, before, hands, picks);
            hands := hands + [client];
            return;
          }
        }
        ghost var had := client;
        assert tried == before + if had == null then [] else [had];
        cname, client, err := FailedTurn(failover, first, name, w, cname, client, last, before, hands, picks, turns);
        hands, picks := hands + [had], picks + [err];
        turns := turns + 1;
      }
      if first != null && turns > 0 { StoryFirst(first, hands, picks, tried); }
    }

    /** The turn that succeeds: its client is new, and the story ends with it. */
    lemma LastHand(failover: bool, first: Conn?, name: string, w: World, cname: string, client: Conn,
                   err: Option<Error>, before: seq<Conn>, hands: seq<Conn?>, picks: seq<Option<Error>>)
      requires Head(failover, first, name, w, cname, client, err, before, hands, picks)
      ensures Story(first, hands + [client], picks, before + [client]) && client !in before
      ensures first != null ==> (before + [client])[0] == first
    {
      StoryHand(first, hands, picks, before, client);
      assert Caches(client);
      if first != null { StoryFirst(first, hands + [client], picks, before + [client]); }
    }
  }
}
