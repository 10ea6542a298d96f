/**
  Smooth weighted round robin (selector/weight.go, selector/selector_weight.go).

  A slot is what one element of the []*Weighted slice holds: None is a nil pointer.
*/
module SmoothWeighted {
  import opened Wrappers
  import opened Sums
  import opened WeightedAccounts

  datatype Entry = Entry(server: string, weight: int, current: int, effective: int)

  type Slots = seq<Option<Entry>>

  // ---------------------------------------------------------------- one pick

  /** The first pass over one slot: charge the current weight, let the effective weight recover. */
  function Charged(slot: Option<Entry>): Option<Entry> {
    match slot
    case None => None
    case Some(e) =>
      Some(e.(current := e.current + e.effective,
              effective := if e.effective < e.weight then e.effective + 1 else e.effective))
  }

  function Charge(s: Slots): (r: Slots)
    ensures |r| == |s|
  {
    seq(|s|, i requires 0 <= i < |s| => Charged(s[i]))
  }

  function Effective(slot: Option<Entry>): int {
    if slot.None? then 0 else slot.value.effective
  }

  function Current(slot: Option<Entry>): int {
    if slot.None? then 0 else slot.value.current
  }

  function Effectives(s: Slots): (r: seq<int>)
    ensures |r| == |s|
  {
    seq(|s|, i requires 0 <= i < |s| => Effective(s[i]))
  }

  function Currents(s: Slots): (r: seq<int>)
    ensures |r| == |s|
  {
    seq(|s|, i requires 0 <= i < |s| => Current(s[i]))
  }

  function Total(s: Slots): int {
    Sum(Effectives(s))
  }

  /** b is the leftmost slot with the greatest current weight among the first n. */
  predicate IsFirstMax(s: Slots, n: nat, b: nat)
    requires n <= |s|
  {
    && b < n
    && s[b].Some?
    && (forall j :: 0 <= j < n && s[j].Some? ==> s[j].value.current <= s[b].value.current)
    && (forall j :: 0 <= j < b && s[j].Some? ==> s[j].value.current < s[b].value.current)
  }

  /** The running `best` of the loop after n slots. */
  function BestOf(s: Slots, n: nat): (b: Option<nat>)
    requires n <= |s|
    ensures b.Some? ==> b.value < n && s[b.value].Some?
  {
    if n == 0 then None
    else
      var b := BestOf(s, n - 1);
      if s[n - 1].None? then b
      else if b.None? || s[n - 1].value.current > s[b.value].value.current then Some(n - 1)
      else b
  }

  /** The loop finds the first maximum, and finds none only when every pointer is nil. */
  lemma {:induction false} BestIsFirstMax(s: Slots, n: nat)
    requires n <= |s|
    ensures match BestOf(s, n)
            case None => forall j :: 0 <= j < n ==> s[j].None?
            case Some(b) => IsFirstMax(s, n, b)
  {
    if n > 0 { BestIsFirstMax(s, n - 1); }
  }

  function Pick(s: Slots): (b: Option<nat>)
    ensures b.Some? ==> b.value < |s|
  {
    BestOf(Charge(s), |s|)
  }

  function Next(s: Slots): (r: Slots)
    ensures |r| == |s|
  {
    var c := Charge(s);
    match Pick(s)
    case None => c
    case Some(b) => c[b := Some(Paid(c[b].value, Total(s)))]
  }

  function Paid(e: Entry, total: int): Entry {
    e.(current := e.current - total)
  }

  /** Unfolded, in the terms of the loop. */
  lemma PickIsBest(s: Slots)
    ensures Pick(s) == BestOf(Charge(s), |s|)
    ensures Pick(s).None? ==> Next(s) == Charge(s)
    ensures Pick(s).Some? ==>
              var b := Pick(s).value;
              Next(s) == Charge(s)[b := Some(Paid(Charge(s)[b].value, Sum(Effectives(s))))]
  {
    hide BestOf, Charge, Effectives, Sum;
  }

  // ------------------------------------------------------- the mutable servers

  class Weighted {
    var server: string
    var weight: int
    var currentWeight: int
    var effectiveWeight: int

    constructor (server: string, weight: int)
      ensures Value() == Entry(server, weight, 0, weight)
    {
      this.server, this.weight, this.currentWeight, this.effectiveWeight := server, weight, 0, weight;
    }

    function Value(): Entry
      reads this
    {
      Entry(server, weight, currentWeight, effectiveWeight)
    }

    /** What the loop of nextWeighted does to one server. */
    method Earn() returns (earned: int)
      modifies this
      ensures Some(Value()) == Charged(Some(old(Value())))
      ensures earned == old(effectiveWeight)
    {
      earned := effectiveWeight;
      currentWeight := currentWeight + effectiveWeight;
      if effectiveWeight < weight {
        effectiveWeight := effectiveWeight + 1;
      }
    }
  }

  function ViewOf(w: Weighted?): Option<Entry>
    reads w
  {
    if w == null then None else Some(w.Value())
  }

  function View(ws: seq<Weighted?>): (s: Slots)
    reads ws
    ensures |s| == |ws|
  {
    seq(|ws|, i requires 0 <= i < |ws| reads ws => ViewOf(ws[i]))
  }

  /** No server object is listed twice; createWeighted allocates one per address. */
  predicate Distinct(ws: seq<Weighted?>) {
    forall i, j :: 0 <= i < j < |ws| && ws[i] != null ==> ws[i] != ws[j]
  }

  method NextWeighted(ws: seq<Weighted?>) returns (best: Weighted?)
    requires Distinct(ws)
    modifies ws
    ensures View(ws) == Next(old(View(ws)))
    ensures match Pick(old(View(ws)))
            case None => best == null
            case Some(b) => best == ws[b] && best != null
  {
    ghost var before := View(ws);
    PickIsBest(before);
    var total;
    best, total := ChargeAll(ws);
    hide Sum, Pick, Next, BestOf, Charge, Effectives;
    if best != null {
      best.currentWeight := best.currentWeight - total;
      assert forall j :: 0 <= j < |ws| ==> ViewOf(ws[j]) == Next(before)[j];
    }
  }

  /** The loop of nextWeighted. */
  method ChargeAll(ws: seq<Weighted?>) returns (best: Weighted?, total: int)
    requires Distinct(ws)
    modifies ws
    ensures View(ws) == Charge(old(View(ws)))
    ensures total == Sum(Effectives(old(View(ws))))
    ensures match BestOf(Charge(old(View(ws))), |ws|)
            case None => best == null
            case Some(b) => best == ws[b] && best != null
  {
    ghost var before := View(ws);
    ghost var charged, effs := Charge(before), Effectives(before);
    ghost var at: nat := 0;
    total := 0;
    best := null;
    assert Sum(effs[..0]) == 0;
    hide Sum;
    for i := 0 to |ws|
      invariant total == Sum(effs[..i])
      invariant forall j :: 0 <= j < i ==> ViewOf(ws[j]) == charged[j]
      invariant forall j :: i <= j < |ws| ==> ViewOf(ws[j]) == before[j]
      invariant best == null <==> BestOf(charged, i).None?
      invariant best != null ==> at < i && best == ws[at] && BestOf(charged, i) == Some(at)
    {
      var w := ws[i];
      SumOfPrefix(effs, i);
      if w == null {
        continue;
      }
      assert ViewOf(w) == before[i];
      var earned := w.Earn();
      total := total + earned;
      assert ViewOf(w) == charged[i];
      if best == null || w.currentWeight > best.currentWeight {
        best, at := w, i;
      }
    }
    assert effs[..|ws|] == effs;
  }

  // ------------------------------------------------------------- the selector

  /** The weight url.ParseQuery and strconv.Atoi give, or the default of 1. */
  function WeightOf(parse: string -> Option<int>, metadata: string): int {
    match parse(metadata)
    case None => 1
    case Some(w) => w
  }

  /** Freshly built slots: nothing charged yet, effective weight at its ceiling. */
  predicate Fresh(s: Slots) {
    forall i :: 0 <= i < |s| && s[i].Some? ==>
      s[i].value.current == 0 && s[i].value.effective == s[i].value.weight
  }

  /** The slice lists every address of the map once, with the weight its metadata states. */
  predicate Lists(s: Slots, parse: string -> Option<int>, servers: map<string, string>) {
    && (forall i :: 0 <= i < |s| ==> s[i].Some? && s[i].value.server in servers)
    && (forall i :: 0 <= i < |s| ==>
          match parse(servers[s[i].value.server])
          case None => s[i].value.weight == 1
          case Some(w) => s[i].value.weight == w)
    && (forall i, j :: 0 <= i < j < |s| ==> s[i].value.server != s[j].value.server)
    && (forall k :: k in servers ==> exists i :: 0 <= i < |s| && s[i].value.server == k)
  }

  method CreateWeighted(parse: string -> Option<int>, servers: map<string, string>)
    returns (ws: seq<Weighted?>)
    ensures Distinct(ws)
    ensures fresh(set w | w in ws && w != null)
    ensures Fresh(View(ws)) && Lists(View(ws), parse, servers)
    // a stated weight is the weight, and the effective weight; without one both are 1
    ensures forall i :: 0 <= i < |ws| ==>
              && ws[i] != null && ws[i].server in servers && ws[i].currentWeight == 0
              && match parse(servers[ws[i].server])
                 case None => ws[i].weight == ws[i].effectiveWeight == 1
                 case Some(w) => ws[i].weight == ws[i].effectiveWeight == w
  {
    ws := [];
    var left := servers.Keys;
    while left != {}
      invariant left <= servers.Keys
      invariant fresh(set w | w in ws && w != null)
      invariant Distinct(ws) && null !in ws
      invariant Fresh(View(ws))
      invariant Lists(View(ws), parse, servers - left)
      decreases left
    {
      var k :| k in left;
      var w := new Weighted(k, WeightOf(parse, servers[k]));
      ghost var old_ws := ws;
      ws := ws + [w];
      ListsGrow(View(old_ws), w.Value(), parse, servers, left, k);
      assert View(ws) == View(old_ws) + [Some(w.Value())];
      left := left - {k};
    }
    assert servers - {} == servers;
    assert forall i :: 0 <= i < |ws| ==> View(ws)[i] == ViewOf(ws[i]);
  }

  lemma ListsGrow(s: Slots, e: Entry, parse: string -> Option<int>, servers: map<string, string>,
                  left: set<string>, k: string)
    requires k in left && left <= servers.Keys
    requires e.server == k && e.weight == WeightOf(parse, servers[k])
    requires Lists(s, parse, servers - left)
    ensures Lists(s + [Some(e)], parse, servers - (left - {k}))
  {
    var t := s + [Some(e)];
    forall x | x in servers - (left - {k})
      ensures exists i :: 0 <= i < |t| && t[i].value.server == x
    {
      if x == k {
        assert t[|s|].value.server == x;
      } else {
        assert x in servers - left;
        var i :| 0 <= i < |s| && s[i].value.server == x;
        assert t[i].value.server == x;
      }
    }
  }

  class WeightedSelector {
    var servers: seq<Weighted?>

    ghost predicate Valid()
      reads this
    {
      Distinct(servers)
    }

    constructor (parse: string -> Option<int>, servers: map<string, string>)
      ensures Valid() && fresh(set w | w in this.servers && w != null)
      ensures Fresh(View(this.servers)) && Lists(View(this.servers), parse, servers)
    {
      var ws := CreateWeighted(parse, servers);
      this.servers := ws;
    }

    method Select() returns (name: string)
      requires Valid()
      modifies servers
      ensures View(servers) == Next(old(View(servers)))
      ensures name == match Pick(old(View(servers)))
                      case None => ""
                      case Some(b) => old(View(servers))[b].value.server
      ensures name == NameOf(old(View(servers)))
    {
      if |servers| == 0 {
        return "";
      }
      var w := NextWeighted(servers);
      if w == null {
        return "";
      }
      assert ViewOf(w) == View(servers)[Pick(old(View(servers))).value];
      return w.server;
    }

    method UpdateServer(parse: string -> Option<int>, servers: map<string, string>)
      modifies this
      ensures Valid() && fresh(set w | w in this.servers && w != null)
      ensures Fresh(View(this.servers)) && Lists(View(this.servers), parse, servers)
    {
      var ws := CreateWeighted(parse, servers);
      this.servers := ws;
    }
  }

  // ------------------------------------------------------------- whole schedules

  function Weights(s: Slots): (r: seq<int>)
    ensures |r| == |s|
  {
    seq(|s|, i requires 0 <= i < |s| => if s[i].None? then 0 else s[i].value.weight)
  }

  function Ups(s: Slots): (r: seq<bool>)
    ensures |r| == |s|
  {
    seq(|s|, i requires 0 <= i < |s| => s[i].Some?)
  }

  predicate Live(s: Slots) {
    exists i :: 0 <= i < |s| && s[i].Some?
  }

  predicate NonNegative(s: Slots) {
    forall i :: 0 <= i < |s| && s[i].Some? ==> 0 <= s[i].value.weight
  }

  /** Everything but the current weights is as in s, with effective weights at their ceiling. */
  predicate SameServers(s: Slots, r: Slots) {
    && |r| == |s|
    && forall i :: 0 <= i < |s| ==>
         match s[i]
         case None => r[i] == None
         case Some(e) => r[i] == Some(e.(current := Current(r[i]), effective := e.weight))
  }

  lemma OnePick(s: Slots, r: Slots)
    requires Live(s) && SameServers(s, r)
    ensures SameServers(s, Next(r)) && Pick(r).Some?
    ensures Step(Weights(s), Ups(s), Currents(r), Pick(r).value, Currents(Next(r)))
  {
    assert Effectives(r) == Weights(s);
    var i :| 0 <= i < |s| && s[i].Some?;
    assert Charge(r)[i].Some?;
    BestIsFirstMax(Charge(r), |s|);
  }

  /** The slots after k picks. */
  function Run(s: Slots, k: nat): Slots {
    Iterate(Next, s, k)
  }

  lemma {:induction false} RunKeepsServers(s: Slots, k: nat)
    requires Fresh(s) && Live(s)
    ensures SameServers(s, Run(s, k))
  {
    if k > 0 {
      RunKeepsServers(s, k - 1);
      OnePick(s, Run(s, k - 1));
    }
  }

  /** The slots chosen by the first k picks. */
  function Picks(s: Slots, k: nat): (bs: seq<nat>)
    requires Fresh(s) && Live(s)
    ensures |bs| == k
  {
    if k == 0 then []
    else
      RunKeepsServers(s, k - 1);
      OnePick(s, Run(s, k - 1));
      Picks(s, k - 1) + [Pick(Run(s, k - 1)).value]
  }

  /** The current weights before the first pick and after each of k picks. */
  function History(s: Slots, k: nat): (cs: seq<seq<int>>)
    ensures |cs| == k + 1
    ensures cs[k] == Currents(Run(s, k))
  {
    if k == 0 then [Currents(s)] else History(s, k - 1) + [Currents(Run(s, k))]
  }

  lemma {:induction false} RunIsSchedule(s: Slots, k: nat)
    requires Fresh(s) && Live(s)
    ensures Schedule(Weights(s), Ups(s), History(s, k), Picks(s, k))
  {
    if k > 0 {
      RunIsSchedule(s, k - 1);
      RunKeepsServers(s, k - 1);
      OnePick(s, Run(s, k - 1));
      hide Schedule, Step, Fresh, Live, SameServers, Next, Pick;
      Longer(Weights(s), Ups(s), History(s, k - 1), Picks(s, k - 1),
             Pick(Run(s, k - 1)).value, Currents(Run(s, k)));
    }
  }

  function Picked(s: Slots, k: nat, i: nat): nat
    requires Fresh(s) && Live(s)
  {
    Count(Picks(s, k), i)
  }

  /** After any k picks the account of a server is what it earned less what it paid. */
  lemma AccountOf(s: Slots, k: nat, i: nat)
    requires Fresh(s) && Live(s)
    requires i < |s| && s[i].Some?
    ensures SameServers(s, Run(s, k))
    ensures Current(Run(s, k)[i]) == k * s[i].value.weight - Total(s) * Picked(s, k, i)
    ensures Sum(Currents(Run(s, k))) == 0
  {
    RunIsSchedule(s, k);
    RunKeepsServers(s, k);
    assert Effectives(s) == Weights(s);
    Account(Weights(s), Ups(s), History(s, k), Picks(s, k), i);
    Balanced(Weights(s), Ups(s), History(s, k), Picks(s, k));
  }

  /** Every account stays within the number of servers times the total, so int never overflows. */
  lemma AccountBounds(s: Slots, k: nat, i: nat)
    requires Fresh(s) && Live(s) && NonNegative(s) && Total(s) > 0
    requires i < |s| && s[i].Some?
    ensures SameServers(s, Run(s, k))
    ensures -Total(s) < Current(Run(s, k)[i]) <= (|s| - 1) * (Total(s) - 1)
  {
    RunKeepsServers(s, k);
    var w := Weights(s);
    assert Schedule(w, Ups(s), History(s, k), Picks(s, k)) by { RunIsSchedule(s, k); }
    assert Sum(w) == Total(s) by { assert Effectives(s) == w; }
    Bounded(w, Ups(s), History(s, k), Picks(s, k), i);
  }

  /**
    Prefix fairness: after any k picks the number of times a server was picked is less than one
    above its share k * weight / total, and at most the number of servers below it. A server of
    weight zero is never picked.
  */
  lemma PrefixFairness(s: Slots, k: nat, i: nat)
    requires Fresh(s) && Live(s) && NonNegative(s) && Total(s) > 0
    requires i < |s| && s[i].Some?
    ensures k * s[i].value.weight - (|s| - 1) * (Total(s) - 1) <= Total(s) * Picked(s, k, i)
    ensures Total(s) * Picked(s, k, i) < k * s[i].value.weight + Total(s)
    ensures s[i].value.weight == 0 ==> Picked(s, k, i) == 0
  {
    AccountOf(s, k, i);
    AccountBounds(s, k, i);
    if s[i].value.weight == 0 {
      RunIsSchedule(s, k);
      assert Effectives(s) == Weights(s);
      ZeroWeightNeverPicked(Weights(s), Ups(s), History(s, k), Picks(s, k), i);
    }
  }

  /** A server is picked exactly as often as its weight says. */
  predicate ExactShares(s: Slots, k: nat)
    requires Fresh(s) && Live(s)
  {
    forall i :: 0 <= i < |s| && s[i].Some? ==> Picked(s, k, i) == s[i].value.weight
  }

  /** One round of Total picks serves every server exactly its weight and restores the start. */
  lemma ExactRound(s: Slots)
    requires Fresh(s) && NonNegative(s) && Total(s) > 0
    ensures Live(s) && ExactShares(s, Total(s))
    ensures Run(s, Total(s)) == s
  {
    var k := Total(s);
    if !Live(s) { SumOfZeros(Effectives(s)); }
    RunIsSchedule(s, k);
    RunKeepsServers(s, k);
    assert Effectives(s) == Weights(s);
    FullRound(Weights(s), Ups(s), History(s, k), Picks(s, k));
    var r := Run(s, k);
    forall i | 0 <= i < |s| ensures r[i] == s[i] {
      assert Currents(r)[i] == 0;
    }
    forall i | 0 <= i < |s| && s[i].Some? ensures Picked(s, k, i) == s[i].value.weight {
      assert Weights(s)[i] == s[i].value.weight;
    }
  }

  // ---------------------------------------------------------------------- by name

  /** What Select returns on slots r. */
  function NameOf(r: Slots): string {
    match Pick(r)
    case None => ""
    case Some(b) => if r[b].Some? then r[b].value.server else ""
  }

  /** What k calls of Select return, one after the other. */
  function Names(s: Slots, k: nat): (ns: seq<string>)
    ensures |ns| == k
  {
    if k == 0 then [] else Names(s, k - 1) + [NameOf(Run(s, k - 1))]
  }

  function Times(ns: seq<string>, name: string): nat {
    if ns == [] then 0
    else Times(ns[..|ns| - 1], name) + (if ns[|ns| - 1] == name then 1 else 0)
  }

  /** The name returned is that of the slot picked. */
  lemma NameOfPick(s: Slots, r: Slots)
    requires Live(s) && SameServers(s, r)
    ensures Pick(r).Some? && s[Pick(r).value].Some? && NameOf(r) == s[Pick(r).value].value.server
  {
    OnePick(s, r);
    BestIsFirstMax(Charge(r), |r|);
    hide Pick, BestOf;
  }

  lemma {:induction false} NamesArePicks(s: Slots, k: nat, i: nat)
    requires Fresh(s) && Live(s) && i < |s| && s[i].Some?
    requires forall j :: 0 <= j < |s| && s[j].Some? && j != i ==> s[j].value.server != s[i].value.server
    ensures Times(Names(s, k), s[i].value.server) == Picked(s, k, i)
  {
    if k > 0 {
      NamesArePicks(s, k - 1, i);
      RunKeepsServers(s, k - 1);
      NameOfPick(s, Run(s, k - 1));
      var b := Pick(Run(s, k - 1)).value;
      assert Names(s, k)[..k - 1] == Names(s, k - 1);
      assert Picks(s, k) == Picks(s, k - 1) + [b] && Picks(s, k)[..k - 1] == Picks(s, k - 1);
      hide Pick, Run, NameOf, Fresh, Live, SameServers;
    }
  }

  /**
    From the listing of a selector, with no negative weight and a positive total, Total calls of
    Select return every name exactly as often as its metadata says, once where it says nothing.
  */
  lemma RoundByName(s: Slots, parse: string -> Option<int>, servers: map<string, string>, name: string)
    requires Fresh(s) && Lists(s, parse, servers) && Total(s) > 0 && name in servers
    requires forall n :: n in servers && parse(servers[n]).Some? ==> parse(servers[n]).value >= 0
    ensures Times(Names(s, Total(s)), name) == match parse(servers[name]) case None => 1 case Some(w) => w
  {
    var i :| 0 <= i < |s| && s[i].value.server == name;
    assert NonNegative(s);
    ExactRound(s);
    NamesArePicks(s, Total(s), i);
    hide Names, Times, Picked, Total;
  }

  // ------------------------------------------------------------------- effective weights

  /** One pick lets an effective weight recover by one, up to the weight. */
  lemma OneRecovery(s: Slots, i: nat)
    requires i < |s| && s[i].Some?
    ensures Next(s)[i].Some?
    ensures var e, r := s[i].value, Next(s)[i].value;
            && r.server == e.server && r.weight == e.weight
            && r.effective == if e.effective < e.weight then e.effective + 1 else e.effective
  {
    PickIsBest(s);
    hide Next, Pick, BestOf, Sum, Effectives;
  }

  /** A server whose effective weight was lowered has it back after as many picks as it was lowered by. */
  lemma {:induction false} EffectiveRecovers(s: Slots, k: nat, i: nat)
    requires i < |s| && s[i].Some?
    ensures |Run(s, k)| == |s| && Run(s, k)[i].Some?
    ensures var e, r := s[i].value, Run(s, k)[i].value;
            && r.server == e.server && r.weight == e.weight
            && r.effective == (if e.effective >= e.weight then e.effective
                               else if e.effective + k <= e.weight then e.effective + k else e.weight)
  {
    if k > 0 {
      EffectiveRecovers(s, k - 1, i);
      OneRecovery(Run(s, k - 1), i);
      assert Run(s, k) == Next(Run(s, k - 1));
      hide Next, Run;
    }
  }

  /** The schedule repeats with period Total, for ever. */
  lemma Periodic(s: Slots, k: nat)
    requires Fresh(s) && NonNegative(s) && Total(s) > 0
    ensures Run(s, Total(s) + k) == Run(s, k)
  {
    assert Run(s, Total(s)) == s by { ExactRound(s); }
    IteratePeriodic(Next, s, Total(s), k);
  }

  lemma SharesIffNonNegative(s: Slots)
    requires Fresh(s) && Live(s) && Total(s) >= 0
    ensures ExactShares(s, Total(s)) <==> NonNegative(s)
  {
    if NonNegative(s) {
      if Total(s) > 0 {
        ExactRound(s);
      } else {
        forall i | 0 <= i < |s| && s[i].Some? ensures s[i].value.weight == 0 {
          TermAtMost(Effectives(s), 0, i);
          assert Effectives(s)[i] == s[i].value.weight;
        }
      }
    } else {
      var i :| 0 <= i < |s| && s[i].Some? && s[i].value.weight < 0;
      assert Picked(s, Total(s), i) != s[i].value.weight;
    }
  }

  lemma SameFactor(t: int, k: int, w: int, n: int)
    requires t >= 0 && k > 0 && n >= 0 && k * w == t * n
    ensures w >= 0 && (t == 0 ==> w == 0)
  {
    assert t * n >= 0;
    assert w < 0 ==> k * w < 0;
    assert w > 0 ==> k * w > 0;
  }

  /** If the slots return to the start, everyone was served in proportion, so nobody owes. */
  lemma ReturnMeansNonNegative(s: Slots, k: nat)
    requires Fresh(s) && Live(s) && Total(s) >= 0 && k > 0 && Run(s, k) == s
    ensures NonNegative(s)
  {
    forall i | 0 <= i < |s| && s[i].Some? ensures 0 <= s[i].value.weight {
      AccountOf(s, k, i);
      SameFactor(Total(s), k, s[i].value.weight, Picked(s, k, i));
    }
  }

  /** Without any weight a pick changes nothing. */
  lemma WeightlessPick(s: Slots)
    requires Fresh(s) && Live(s) && Total(s) == 0 && NonNegative(s)
    ensures Run(s, 1) == s
  {
    RunKeepsServers(s, 1);
    var r := Run(s, 1);
    forall i | 0 <= i < |s| ensures r[i] == s[i] {
      if s[i].Some? {
        TermAtMost(Effectives(s), 0, i);
        assert Effectives(s)[i] == s[i].value.weight;
        AccountOf(s, 1, i);
      }
    }
  }

  // ------------------------------------------------------------- a negative total

  lemma {:induction false} CountsOfOne(bs: seq<nat>, b: nat, j: nat)
    requires forall t :: 0 <= t < |bs| ==> bs[t] == b
    ensures Count(bs, j) == if j == b then |bs| else 0
  {
    if bs != [] { CountsOfOne(bs[..|bs| - 1], b, j); }
  }

  /** A server that is paid for being picked stays ahead of every server it was ahead of. */
  lemma StaysAhead(m: int, wb: int, wj: int, t: int)
    requires m > 0 && t < 0 && wj <= wb
    ensures m * wb - t * m + wb > m * wj + wj
  {
    assert m * (wb - wj) >= 0;
    assert m * (wb - wj) == m * wb - m * wj;
    assert t * m < 0;
  }

  /** All picks so far chose b. */
  predicate OnlyPicked(s: Slots, k: nat, b: nat)
    requires Fresh(s) && Live(s)
  {
    forall t :: 0 <= t < k ==> Picks(s, k)[t] == b
  }

  lemma OnlyPickedAccounts(s: Slots, k: nat, b: nat, j: nat)
    requires Fresh(s) && Live(s) && OnlyPicked(s, k, b) && j < |s| && s[j].Some?
    ensures SameServers(s, Run(s, k))
    ensures Current(Run(s, k)[j]) == k * s[j].value.weight - (if j == b then Total(s) * k else 0)
  {
    hide SameServers, Run, Total, Current;
    AccountOf(s, k, j);
    CountsOfOne(Picks(s, k), b, j);
    hide Picks, Count;
    var n := Picked(s, k, j);
    assert n == if j == b then k else 0;
  }

  /** The next pick after k picks of b, k > 0, is b again. */
  lemma PickedAgain(s: Slots, k: nat, b: nat)
    requires Fresh(s) && Live(s) && Total(s) < 0 && k > 0 && OnlyPicked(s, k, b)
    requires b < |s| && s[b].Some?
    requires forall j :: 0 <= j < |s| && s[j].Some? ==> s[j].value.weight <= s[b].value.weight
    ensures Pick(Run(s, k)) == Some(b)
  {
    var r := Run(s, k);
    RunKeepsServers(s, k);
    OnePick(s, r);
    BestIsFirstMax(Charge(r), |s|);
    var p := Pick(r).value;
    OnlyPickedAccounts(s, k, b, b);
    if p != b {
      OnlyPickedAccounts(s, k, b, p);
      StaysAhead(k, s[b].value.weight, s[p].value.weight, Total(s));
      assert false;
    }
  }

  /** The first pick is a heaviest server. */
  lemma FirstIsHeaviest(s: Slots) returns (b: nat)
    requires Fresh(s) && Live(s)
    ensures b < |s| && s[b].Some? && Pick(s) == Some(b)
    ensures forall j :: 0 <= j < |s| && s[j].Some? ==> s[j].value.weight <= s[b].value.weight
  {
    OnePick(s, s);
    BestIsFirstMax(Charge(s), |s|);
    b := Pick(s).value;
    forall j | 0 <= j < |s| && s[j].Some? ensures s[j].value.weight <= s[b].value.weight {
      assert Charge(s)[j].value.current <= Charge(s)[b].value.current;
    }
  }

  /** With a negative total the first server picked is picked for ever. */
  lemma {:induction false} FirstForEver(s: Slots, k: nat, b: nat)
    requires Fresh(s) && Live(s) && Total(s) < 0 && b < |s| && s[b].Some? && Pick(s) == Some(b)
    requires forall j :: 0 <= j < |s| && s[j].Some? ==> s[j].value.weight <= s[b].value.weight
    ensures OnlyPicked(s, k, b)
  {
    if k > 0 {
      FirstForEver(s, k - 1, b);
      if k > 1 { PickedAgain(s, k - 1, b); }
      assert Picks(s, k) == Picks(s, k - 1) + [b];
      hide Picks, Fresh, Live, Pick;
    }
  }

  /** Exactly one slot holds a server. */
  predicate Alone(s: Slots, b: nat) {
    b < |s| && forall j :: 0 <= j < |s| ==> (s[j].Some? <==> j == b)
  }

  lemma ReturnMeansAlone(s: Slots, k: nat)
    requires Fresh(s) && Live(s) && Total(s) < 0 && k > 0 && Run(s, k) == s
    ensures exists b :: 0 <= b < |s| && Alone(s, b)
  {
    var b := FirstIsHeaviest(s);
    FirstForEver(s, k, b);
    OnlyPickedAccounts(s, k, b, b);
    assert k * s[b].value.weight == k * Total(s);
    SameFactors(k, s[b].value.weight, Total(s));
    forall j | 0 <= j < |s| ensures s[j].Some? <==> j == b {
      if s[j].Some? && j != b {
        OnlyPickedAccounts(s, k, b, j);
        SameFactors(k, s[j].value.weight, 0);
        assert false;
      }
    }
    assert Alone(s, b);
  }

  lemma SameFactors(k: int, a: int, b: int)
    requires k > 0 && k * a == k * b
    ensures a == b
  {
    assert k * (a - b) == 0;
    assert a > b ==> k * (a - b) > 0;
    assert a < b ==> k * (a - b) < 0;
  }

  lemma {:induction false} SumOfOne(xs: seq<int>, b: nat)
    requires b < |xs| && forall j :: 0 <= j < |xs| && j != b ==> xs[j] == 0
    ensures Sum(xs) == xs[b]
  {
    var n := |xs| - 1;
    if b == n { SumOfZeros(xs[..n]); } else { SumOfOne(xs[..n], b); }
  }

  /** A server alone earns what it pays. */
  lemma AloneReturns(s: Slots, b: nat)
    requires Fresh(s) && Alone(s, b)
    ensures Run(s, 1) == s
  {
    assert s[b].Some?;
    SumOfOne(Effectives(s), b);
    RunKeepsServers(s, 1);
    OnePick(s, s);
    assert Run(s, 0) == s && Run(s, 1) == Next(s);
    var r := Run(s, 1);
    forall i | 0 <= i < |s| ensures r[i] == s[i] {
      assert Currents(Next(s))[i] == Current(r[i]);
      assert i == b ==> Currents(s)[b] == 0;
    }
  }

  /**
    Weights come from strconv.Atoi and may be negative. For every fresh list with a server, the
    selector comes back to its start after some number of picks if and only if no weight is
    negative, or the total is and a single server is listed. For a positive total it then comes
    back after exactly that many picks, having served everyone exactly.
  */
  lemma ExactIffNonNegative(s: Slots)
    requires Fresh(s) && Live(s)
    ensures (exists k: nat :: k > 0 && Run(s, k) == s)
            <==> if Total(s) >= 0 then NonNegative(s) else exists b :: 0 <= b < |s| && Alone(s, b)
    ensures Total(s) > 0 ==> (Run(s, Total(s)) == s <==> NonNegative(s))
    ensures Total(s) >= 0 ==> (ExactShares(s, Total(s)) <==> NonNegative(s))
  {
    if Total(s) >= 0 {
      SharesIffNonNegative(s);
      if NonNegative(s) {
        if Total(s) > 0 { ExactRound(s); } else { WeightlessPick(s); }
      }
      forall k: nat | k > 0 && Run(s, k) == s ensures NonNegative(s) {
        ReturnMeansNonNegative(s, k);
      }
    } else {
      if b :| 0 <= b < |s| && Alone(s, b) { AloneReturns(s, b); }
      forall k: nat | k > 0 && Run(s, k) == s ensures exists b :: 0 <= b < |s| && Alone(s, b) {
        ReturnMeansAlone(s, k);
      }
    }
  }

  /** A negative weight really does break the round: servers of weight 3 and -1. */
  lemma NegativeWeightBreaksRound()
    ensures var s := [Some(Entry("a", 3, 0, 3)), Some(Entry("b", -1, 0, -1))];
            && Fresh(s) && Live(s) && Total(s) == 2 && !ExactShares(s, Total(s))
            && forall k: nat :: k > 0 ==> Run(s, k) != s
  {
    var s: Slots := [Some(Entry("a", 3, 0, 3)), Some(Entry("b", -1, 0, -1))];
    assert s[0].Some?;
    assert Effectives(s) == [3, -1];
    assert [3, -1][..1] == [3] && [3][..0] == [];
    assert Sum([3, -1]) == 2;
    assert s[1].value.weight < 0;
    ExactIffNonNegative(s);
  }
}
