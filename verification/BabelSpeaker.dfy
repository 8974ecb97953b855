/** The speaker: its peers, the prefixes it originates, its tables and its run loop.
    Every entry point is one move of the machine in BabelRunLoop. */
module BabelSpeaker {
  import opened BabelOrder
  import opened BabelSources
  import opened BabelSelection
  import opened BabelTable
  import opened BabelRoutes
  import opened BabelRequests
  import opened BabelRunLoop
  import BabelLedger
  import BabelNetwork
  import opened Deadlines
  import opened Wrappers

  /** The Hellos expected and not come, then the three promises that lapse. */
  method SweepLink(l: Link, now: Time) returns (r: Link)
    ensures r == SweptLink(l, now)
  {
    r := l;
    var i := 0;
    while i < HISTORY_DEPTH && r.helloInterval > 0 && r.nextHelloDue != 0 && now >= r.nextHelloDue
      invariant 0 <= i <= HISTORY_DEPTH && r == l.(nextHelloDue := r.nextHelloDue)
      invariant Overdue(r.nextHelloDue, l.helloInterval, now, HISTORY_DEPTH - i)
             == Overdue(l.nextHelloDue, l.helloInterval, now, HISTORY_DEPTH)
    {
      r := r.(nextHelloDue := r.nextHelloDue + r.helloInterval);
      i := i + 1;
    }
    if r.alive && !(now < r.helloExpiry) {
      r := r.(alive := false, haveCost := false);
      r := r.(helloInterval := 0, helloExpiry := 0, nextHelloDue := 0);
    }
    if r.haveCost && now >= r.ihuExpiry {
      r := r.(haveCost := false);
    }
    if r.haveRtt && now >= r.rttExpiry {
      r := r.(haveRtt := false);
    }
  }

  /** What one TLV of a packet comes to. */
  datatype Item =
    | Heard(link: Link)
    | Advertised(key: RouteKey, adv: Advertisement, hold: nat)
    | RetractAll
    | Answer(key: RouteKey)
    | Forward(i: SourceKey, seqno: U16)
    | Raise

  /** One prefix spoken of to one neighbor. */
  datatype Telling = Telling(to: Peer, key: RouteKey)

  /** What is on record once it has been: a finite advertisement, charged to the peer
      it was selected from. */
  function Spoken(x: BabelNetwork.Node, s: Sources, t: Telling, now: Time): Sources {
    Observed(s, t.key, BabelNetwork.AdvertisementFor(x, t.to, t.key), BabelNetwork.SelectedPeer(x, t.key), now)
  }

  function AllSpoken(x: BabelNetwork.Node, s: Sources, log: seq<Telling>, now: Time): Sources {
    if log == [] then s
    else Spoken(x, AllSpoken(x, s, log[..|log| - 1], now), log[|log| - 1], now)
  }

  lemma {:induction false} SpokenJoins(x: BabelNetwork.Node, s: Sources, a: seq<Telling>, b: seq<Telling>, now: Time)
    ensures AllSpoken(x, s, a + b, now) == AllSpoken(x, AllSpoken(x, s, a, now), b, now)
  {
    if b == [] {
      assert a + b == a;
    } else {
      SpokenJoins(x, s, a, b[..|b| - 1], now);
      assert (a + b)[..|a + b| - 1] == a + b[..|b| - 1];
    }
  }

  function Tellings(to: Peer, keys: seq<RouteKey>): (log: seq<Telling>)
    ensures |log| == |keys| && forall t :: t in log <==> t.to == to && t.key in keys
  {
    if keys == [] then []
    else
      assert keys == keys[..|keys| - 1] + [keys[|keys| - 1]];
      Tellings(to, keys[..|keys| - 1]) + [Telling(to, keys[|keys| - 1])]
  }

  lemma SpokenOne(x: BabelNetwork.Node, s: Sources, to: Peer, keys: seq<RouteKey>, i: nat, now: Time)
    requires i < |keys|
    ensures AllSpoken(x, s, Tellings(to, keys[..i + 1]), now)
         == Spoken(x, AllSpoken(x, s, Tellings(to, keys[..i]), now), Telling(to, keys[i]), now)
  {
    var log, t := Tellings(to, keys[..i]), Telling(to, keys[i]);
    assert keys[..i + 1][..i] == keys[..i];
    assert Tellings(to, keys[..i + 1]) == log + [t];
    assert (log + [t])[..|log|] == log;
  }

  /** What one neighbor is told: everything in a dump, otherwise what changed and what
      it is still owed. */
  function DueTo(n: Peer, dump: bool, all: set<RouteKey>, owed: map<Peer, set<RouteKey>>,
                 dirty: set<RouteKey>): set<RouteKey>
  {
    if dump then all else dirty + if n in owed then owed[n] else {}
  }

  lemma SpeakingFollows(a: Tabs, walked: Tabs, swept: Tabs, spoken: Tabs, p: Pass)
    requires TabsOk(a) && OpStep(a, walked, Routing(TimePassed, p)) && OpStep(walked, swept, SweepRequests(p.now))
    requires Reaches(swept, spoken, Speaking, p.now)
    ensures TabsOk(spoken)
  {
    OpKeeps(a, walked, Routing(TimePassed, p));
    OpKeeps(walked, swept, SweepRequests(p.now));
    ReachesKeeps(swept, spoken, Speaking, p.now);
  }

  /** The parts of a pass, put together. */
  lemma TurnIsAMove(s: World, t: World, m: Move, done: Stage, sleepUntil: Time)
    requires TabsOk(s.tabs) && m.Turn? && !s.asleep && (m.retryAt == 0 || m.retryAt > m.p.now)
    requires t == World(s.config, true, s.token, ClockAfter(s.clock, s.config, m.p.now, m.retryAt), sleepUntil,
                        done.tabs, done.work)
    requires Sweeps(Stage(s.tabs, s.work), m.walked, m.swept, s.config.trigger, m.p)
    requires Speaks(m.swept, m.spoken, m.p.now >= s.clock.nextUpdate || s.work.updatePending, m.p.now)
    requires AsksStarved(m.spoken, m.asked, m.p.now) && Repeats(m.asked, m.repeated, done, m.p.now)
    requires IsEarliest(TimersOf(ClockAfter(s.clock, s.config, m.p.now, m.retryAt), done.tabs), sleepUntil)
    ensures Next(s, t, m) && TabsOk(t.tabs)
  {
    PassSettles(s, t, m);
  }

  lemma ChangeIsAMove(s: World, t: World, now: Time)
    requires TabsOk(s.tabs) && Reaches(s.tabs, t.tabs, Configuring, now)
    requires t == s.(token := true, clock := s.clock.(links := t.clock.links), tabs := t.tabs, work := t.work)
    ensures Next(s, t, Change(now)) && TabsOk(t.tabs)
  {
    ReachesKeeps(s.tabs, t.tabs, Configuring, now);
  }

  lemma ReceiveIsAMove(s: World, t: World, now: Time, d: Time)
    requires TabsOk(s.tabs) && Reaches(s.tabs, t.tabs, Packet, now)
    requires t == s.(token := t.token, clock := s.clock.(retryAt := t.clock.retryAt, links := t.clock.links),
                     tabs := t.tabs, work := t.work)
    requires IsEarliest(TimersOf(t.clock, t.tabs), d)
    requires t.token <==> s.token || NeedsWaking(t.work, t.sleepUntil, d)
    ensures Next(s, t, Move.Receive(now, d)) && TabsOk(t.tabs)
  {
    ReachesKeeps(s.tabs, t.tabs, Packet, now);
  }

  function HopFor(forwarding: map<RouteKey, Hop>, k: RouteKey): Option<Hop> {
    if k in forwarding then Some(forwarding[k]) else None
  }

  /** What is originated is held, what no longer is is let go, and the rest stays. */
  ghost predicate Held(was: map<RouteKey, Hop>, now: map<RouteKey, Hop>, before: set<RouteKey>, wanted: set<RouteKey>) {
    forall k ::
      HopFor(now, k) == if k in wanted then Some(Unreachable) else if k in before then None else HopFor(was, k)
  }

  ghost predicate Removed(n: Peer, s: World, t: World, m: Move, mid: Tabs, p: Pass) {
    && m.Change? && Next(s, t, m)
    && OpStep(s.tabs, mid, Forget(n)) && OpStep(mid, t.tabs, Routing(PeerGone(n), p))
  }

  /** The repeat was due, and has been put off. */
  predicate PutOff(s: Starving, t: Starving, i: SourceKey) {
    i in s.retries && i in t.retries && t.retries[i] != s.retries[i]
  }

  class Speaker {
    const config: Config
    const id: RouterId
    const transit: bool
    const routes: RouteTable
    const requests: RequestTable
    const starving: StarveTable
    var seqno: U16
    var neighbors: map<Peer, Link>
    var originate: set<RouteKey>
    var updatePending: bool
    var nextHello: Time
    var nextUpdate: Time
    var retryAt: Time
    var sleepUntil: Time
    var token: bool
    ghost var asleep: bool

    ghost function TabsNow(): Tabs
      reads routes, routes.sources, requests, starving
    {
      Tabs(routes.Snap(), requests.View(), starving.View())
    }

    ghost function State(): World
      reads this, routes, routes.sources, requests, starving
    {
      World(config, asleep, token, ClockNow(), sleepUntil, TabsNow(), Work(updatePending, routes.Work()))
    }

    function ClockNow(): Clock
      reads this
    {
      Clock(nextHello, nextUpdate, retryAt, neighbors)
    }

    ghost function StageNow(): Stage
      reads this, routes, routes.sources, requests, starving
    {
      Stage(TabsNow(), Work(updatePending, routes.Work()))
    }

    function TimersNow(): Timers
      reads this, routes, requests, starving
    {
      Timers(nextHello, nextUpdate, retryAt, routes.nextExpiryAt, starving.nextRetry, requests.nextSweep, neighbors)
    }

    /** The shares of the source table are exact, and nothing is learned for a prefix
        this node originates. */
    ghost predicate Sound()
      reads this, routes, routes.sources
    {
      routes.trigger == config.trigger && routes.sources.Valid() && originate !! routes.entries.Keys
    }

    ghost predicate Valid()
      reads this, routes, routes.sources, requests, starving
    {
      Sound() && TabsOk(TabsNow())
    }

    constructor (config: Config, id: RouterId, transit: bool, now: Time)
      ensures Valid() && fresh(routes) && fresh(routes.sources) && fresh(requests) && fresh(starving)
      ensures !State().asleep && State().tabs == EMPTY && State().config == config
    {
      this.config, this.id, this.transit := config, id, transit;
      var sources := new SourceTable();
      routes := new RouteTable(sources, config.trigger);
      requests := new RequestTable();
      starving := new StarveTable();
      seqno, neighbors, originate := 1, map[], {};
      updatePending, nextHello, nextUpdate := false, now, now;
      retryAt, sleepUntil, token, asleep := 0, 0, false, false;
      new;
      EmptyIsOk();
    }

    // ----- telling -----

    /** This node as the one that speaks; what it has on record plays no part in that. */
    function Voice(): BabelNetwork.Node
      reads this, routes
    {
      BabelNetwork.Node(id, transit, Snapshot(map[], routes.Table(), {}), originate, seqno)
    }

    /** One prefix toward one neighbor: a finite advertisement is put on record
        before it leaves. */
    method Tell(to: Peer, key: RouteKey, p: Pass, ghost start: Tabs, ghost phase: Phase)
      requires Sound() && p.now > 0 && (phase.Speaking? || phase.Packet?) && Reaches(start, TabsNow(), phase, p.now)
      modifies routes.sources
      ensures Sound() && Reaches(start, TabsNow(), phase, p.now)
      ensures routes.sources.sources == Spoken(Voice(), old(routes.sources.sources), Telling(to, key), p.now)
    {
      var adv, from := BabelNetwork.AdvertisementFor(Voice(), to, key), BabelNetwork.SelectedPeer(Voice(), key);
      if adv.metric != INFINITY {
        ghost var before := TabsNow();
        routes.sources.Observe(key, adv, from, p.now);
        ReachesThen(start, before, TabsNow(), Routing(Said(key, adv, from), p), phase, p.now);
      }
    }

    method TellAll(to: Peer, keys: seq<RouteKey>, p: Pass, ghost start: Tabs, ghost phase: Phase)
      requires Sound() && p.now > 0 && (phase.Speaking? || phase.Packet?) && Reaches(start, TabsNow(), phase, p.now)
      modifies routes.sources
      ensures Sound() && Reaches(start, TabsNow(), phase, p.now)
      ensures routes.sources.sources == AllSpoken(Voice(), old(routes.sources.sources), Tellings(to, keys), p.now)
    {
      ghost var x, s := Voice(), routes.sources.sources;
      for i := 0 to |keys|
        invariant Sound() && Reaches(start, TabsNow(), phase, p.now)
        invariant routes.sources.sources == AllSpoken(x, s, Tellings(to, keys[..i]), p.now)
      {
        Tell(to, keys[i], p, start, phase);
        SpokenOne(x, s, to, keys, i, p.now);
      }
      assert keys[..|keys|] == keys;
    }

    /** Every neighbor is told exactly what is due to it: in a dump everything this node
        has or anyone was told. */
    method Speak(dump: bool, told: seq<set<RouteKey>>, owed: map<Peer, set<RouteKey>>, p: Pass)
      returns (ghost log: seq<Telling>, ghost all: set<RouteKey>)
      requires Sound() && p.now > 0
      modifies this`updatePending, routes`dirty, routes.sources
      ensures Sound() && Reaches(old(TabsNow()), TabsNow(), Speaking, p.now)
      ensures routes.dirty == {} && updatePending == (!dump && old(updatePending))
      ensures forall k :: k in all <==> k in originate || k in routes.entries || BabelLedger.ToldToSome(told, k)
      ensures forall t :: t in log <==> t.to in neighbors && t.key in DueTo(t.to, dump, all, owed, old(routes.dirty))
      ensures routes.sources.sources == AllSpoken(Voice(), old(routes.sources.sources), log, p.now)
    {
      var keys := BabelLedger.AdvertisableKeys(originate, routes.entries.Keys, told);
      all := set k | k in keys;
      var dirty := routes.TakeDirty();
      log := TellEach(dump, keys, all, owed, dirty, p);
      if dump {
        updatePending := false;
      }
    }

    method TellEach(dump: bool, keys: seq<RouteKey>, ghost all: set<RouteKey>, owed: map<Peer, set<RouteKey>>,
                    dirty: set<RouteKey>, p: Pass)
      returns (ghost log: seq<Telling>)
      requires Sound() && p.now > 0 && forall k :: k in keys <==> k in all
      modifies routes.sources
      ensures Sound() && Reaches(old(TabsNow()), TabsNow(), Speaking, p.now)
      ensures forall t :: t in log <==> t.to in neighbors && t.key in DueTo(t.to, dump, all, owed, dirty)
      ensures routes.sources.sources == AllSpoken(Voice(), old(routes.sources.sources), log, p.now)
    {
      ghost var start, x, s := TabsNow(), Voice(), routes.sources.sources;
      ReachesSelf(start, Speaking, p.now);
      log := [];
      var todo := neighbors.Keys;
      while todo != {}
        invariant Sound() && Reaches(start, TabsNow(), Speaking, p.now)
        invariant forall t :: t in log <==>
          t.to in neighbors && t.to !in todo && t.key in DueTo(t.to, dump, all, owed, dirty)
        invariant routes.sources.sources == AllSpoken(x, s, log, p.now)
        decreases todo
      {
        var n :| n in todo;
        todo := todo - {n};
        var due := keys;
        if !dump {
          due := BabelLedger.AddAll([], dirty + if n in owed then owed[n] else {});
        }
        TellAll(n, due, p, start, Speaking);
        SpokenJoins(x, s, log, Tellings(n, due), p.now);
        log := log + Tellings(n, due);
      }
    }

    // ----- asking -----

    /** Asks one neighbor for a newer number, unless it was asked lately. */
    method AskOne(n: Peer, i: SourceKey, wanted: U16, now: Time, ghost start: Tabs,
                  ghost phase: Phase) returns (ok: bool)
      requires now > 0 && (phase.Packet? || phase.Starved? || phase.Repeating?)
      requires Reaches(start, TabsNow(), phase, now)
      modifies requests
      ensures Reaches(start, TabsNow(), phase, now)
      ensures requests.asked.Keys == old(requests.asked).Keys + {BabelRequests.Asked(i, n)}
    {
      var q := BabelRequests.Asked(i, n);
      ghost var before := TabsNow();
      ok := requests.AllowAsk(q, now);
      if ok {
        ReachesThen(start, before, TabsNow(), Ask(q, now), phase, now);
        ghost var between := TabsNow();
        var recorded := requests.Allow(i, wanted, "", now);
        if recorded {
          ReachesThen(start, between, TabsNow(), Request(i, wanted, "", now), phase, now);
        }
      }
    }

    /** A neighbor that can be asked for this has been, now or within the window. */
    ghost predicate AskedFor(r: StarveRequest)
      reads this, requests
    {
      r.peer in neighbors ==> BabelRequests.Asked(SourceKey(r.key, r.id), r.peer) in requests.asked
    }

    /** Turns the prefixes that lost their selection into requests, each repeated
        later if it was sent. */
    method AskStarved(now: Time, ghost start: Tabs, ghost phase: Phase)
      requires now > 0 && (phase.Packet? || phase.Starved?) && Reaches(start, TabsNow(), phase, now)
      modifies routes`starved, requests, starving
      ensures Reaches(start, TabsNow(), phase, now) && routes.starved == []
      ensures forall j | 0 <= j < |old(routes.starved)| :: AskedFor(old(routes.starved)[j])
    {
      var wanted := routes.TakeStarved();
      for k := 0 to |wanted|
        invariant Reaches(start, TabsNow(), phase, now) && routes.starved == []
        invariant forall j | 0 <= j < k :: AskedFor(wanted[j])
      {
        AskFor(wanted[k], now, start, phase);
      }
    }

    method AskFor(r: StarveRequest, now: Time, ghost start: Tabs, ghost phase: Phase)
      requires now > 0 && (phase.Packet? || phase.Starved?) && Reaches(start, TabsNow(), phase, now)
      modifies requests, starving
      ensures Reaches(start, TabsNow(), phase, now)
      ensures old(requests.asked).Keys <= requests.asked.Keys && AskedFor(r)
    {
      if r.peer in neighbors {
        var i := SourceKey(r.key, r.id);
        var ok := AskOne(r.peer, i, r.seqno, now, start, phase);
        if ok {
          ghost var before := TabsNow();
          starving.Remember(i, r.seqno, r.peer, now);
          ReachesThen(start, before, TabsNow(), Remember(i, r.seqno, r.peer, now), phase, now);
        }
      }
    }

    /** Live, and with a route for the prefix. */
    predicate CanAsk(n: Peer, key: RouteKey)
      reads this, routes
    {
      n in neighbors && neighbors[n].alive && key in routes.entries && n in routes.entries[key].routes
    }

    /** Repeats what is due, to every neighbor that can be asked. */
    method RepeatStarved(now: Time) returns (ghost mid: Tabs)
      requires StarvingOk(starving.View()) && now > 0
      modifies requests, starving
      ensures OpStep(old(TabsNow()), mid, Repeat(now)) && Reaches(mid, TabsNow(), Repeating, now)
      ensures starving.View() == mid.starving
      ensures forall q :: q in requests.asked <==>
        || q in old(requests.asked)
        || (PutOff(old(starving.View()), mid.starving, q.source) && CanAsk(q.neighbor, q.source.route))
    {
      var reachable := set k | k in routes.entries && routes.entries[k].selected.Via?;
      assert reachable == Reachable(routes.Snap());
      var asks := starving.RetryStarved(now, reachable);
      mid := TabsNow();
      ReachesSelf(mid, Repeating, now);
      AskAll(asks, now, mid);
    }

    method AskAll(asks: set<SourceKey>, now: Time, ghost start: Tabs)
      requires now > 0 && Reaches(start, TabsNow(), Repeating, now) && asks <= starving.retries.Keys
      modifies requests
      ensures Reaches(start, TabsNow(), Repeating, now)
      ensures forall q :: q in requests.asked <==>
        q in old(requests.asked) || (q.source in asks && CanAsk(q.neighbor, q.source.route))
    {
      var todo := asks;
      while todo != {}
        invariant todo <= asks && Reaches(start, TabsNow(), Repeating, now)
        invariant forall q :: q in requests.asked <==>
          q in old(requests.asked) || (q.source in asks - todo && CanAsk(q.neighbor, q.source.route))
        decreases todo
      {
        var i :| i in todo;
        todo := todo - {i};
        AskAround(i, starving.retries[i].seqno, now, start);
      }
    }

    method AskAround(i: SourceKey, wanted: U16, now: Time, ghost start: Tabs)
      requires now > 0 && Reaches(start, TabsNow(), Repeating, now)
      modifies requests
      ensures Reaches(start, TabsNow(), Repeating, now)
      ensures forall q :: q in requests.asked <==>
        q in old(requests.asked) || (q.source == i && CanAsk(q.neighbor, i.route))
    {
      var todo := neighbors.Keys;
      while todo != {}
        invariant Reaches(start, TabsNow(), Repeating, now) && todo <= neighbors.Keys
        invariant forall q :: q in requests.asked <==>
          q in old(requests.asked) || (q.source == i && q.neighbor !in todo && CanAsk(q.neighbor, i.route))
        decreases todo
      {
        var n :| n in todo;
        todo := todo - {n};
        if CanAsk(n, i.route) {
          var _ := AskOne(n, i, wanted, now, start, Repeating);
        }
      }
    }

    // ----- the run loop -----

    method SweepLinks(now: Time)
      modifies this`neighbors
      ensures neighbors == SweptLinks(old(neighbors), now)
    {
      var todo := neighbors.Keys;
      while todo != {}
        invariant neighbors.Keys == old(neighbors).Keys && todo <= neighbors.Keys
        invariant forall n | n in todo :: neighbors[n] == old(neighbors)[n]
        invariant forall n | n in neighbors && n !in todo :: neighbors[n] == SweptLink(old(neighbors)[n], now)
        decreases todo
      {
        var n :| n in todo;
        todo := todo - {n};
        var l := SweepLink(neighbors[n], now);
        neighbors := neighbors[n := l];
      }
    }

    /** Routes, then requests. */
    method SweepTables(p: Pass) returns (ghost walked: Tabs, ghost swept: Stage)
      requires Sound() && RequestsOk(requests.View()) && p.now > 0
      modifies routes, routes.sources, requests
      ensures Sound() && swept == StageNow() && Sweeps(old(StageNow()), walked, swept, config.trigger, p)
    {
      routes.SweepExpired(p);
      walked := TabsNow();
      StepKeys(old(routes.Snap()), routes.Snap(), TimePassed, p);
      requests.Sweep(p.now);
      swept := StageNow();
    }

    /** Links first: their costs decide what the routes are worth. */
    method SweepAll(p: Pass) returns (ghost walked: Tabs, ghost swept: Stage)
      requires Sound() && RequestsOk(requests.View()) && p.now > 0
      modifies this`neighbors, routes, routes.sources, requests
      ensures Sound() && swept == StageNow() && Sweeps(old(StageNow()), walked, swept, config.trigger, p)
      ensures ClockNow() == old(ClockNow()).(links := SweptLinks(old(neighbors), p.now))
      ensures updatePending == swept.work.updatePending == old(updatePending)
    {
      SweepLinks(p.now);
      walked, swept := SweepTables(p);
    }

    /** The Hello and Update timers, and what is told on them. */
    method SpeakInTurn(told: seq<set<RouteKey>>, owed: map<Peer, set<RouteKey>>, p: Pass) returns (ghost spoken: Stage)
      requires Sound() && p.now > 0
      modifies this`updatePending, this`nextHello, this`nextUpdate, routes`dirty, routes.sources
      ensures Sound() && spoken == StageNow()
      ensures Speaks(old(StageNow()), spoken, p.now >= old(nextUpdate) || old(updatePending), p.now)
      ensures ClockNow() == old(ClockNow()).(
                nextHello := if p.now >= old(nextHello) then p.now + config.hello else old(nextHello),
                nextUpdate := if p.now >= old(nextUpdate) then p.now + config.update else old(nextUpdate))
    {
      if p.now >= nextHello {
        nextHello := p.now + config.hello;
      }
      ghost var _, _ := Speak(p.now >= nextUpdate || updatePending, told, owed, p);
      if p.now >= nextUpdate {
        nextUpdate := p.now + config.update;
      }
      spoken := StageNow();
    }

    method AskInTurn(now: Time) returns (ghost asked: Stage, ghost repeated: Tabs, ghost done: Stage)
      requires TabsOk(TabsNow()) && now > 0
      modifies routes`starved, requests, starving
      ensures done == StageNow() && AsksStarved(old(StageNow()), asked, now) && Repeats(asked, repeated, done, now)
    {
      ReachesSelf(TabsNow(), Starved, now);
      AskStarved(now, TabsNow(), Starved);
      asked := StageNow();
      ReachesKeeps(old(TabsNow()), asked.tabs, Starved, now);
      repeated := RepeatStarved(now);
      done := StageNow();
    }

    /** The sweep, and what is told after it. */
    method SweepAndSpeak(told: seq<set<RouteKey>>, owed: map<Peer, set<RouteKey>>, p: Pass)
      returns (ghost walked: Tabs, ghost swept: Stage, ghost spoken: Stage)
      requires Valid() && p.now > 0
      modifies this`neighbors, this`updatePending, this`nextHello, this`nextUpdate
      modifies routes, routes.sources, requests
      ensures Sound() && TabsOk(spoken.tabs) && spoken == StageNow()
      ensures Sweeps(old(StageNow()), walked, swept, config.trigger, p)
      ensures Speaks(swept, spoken, p.now >= old(nextUpdate) || old(updatePending), p.now)
      ensures ClockNow() == ClockAfter(old(ClockNow()), config, p.now, retryAt)
    {
      walked, swept := SweepAll(p);
      spoken := SpeakInTurn(told, owed, p);
      SpeakingFollows(old(TabsNow()), walked, swept.tabs, spoken.tabs, p);
    }

    /** All of a pass but its end. */
    method DoTurn(told: seq<set<RouteKey>>, owed: map<Peer, set<RouteKey>>, p: Pass)
      returns (ghost walked: Tabs, ghost swept: Stage, ghost spoken: Stage, ghost asked: Stage, ghost repeated: Tabs,
               ghost done: Stage)
      requires Valid() && p.now > 0
      modifies this`neighbors, this`updatePending, this`nextHello, this`nextUpdate
      modifies routes, routes.sources, requests, starving
      ensures Sound() && Sweeps(old(StageNow()), walked, swept, config.trigger, p)
      ensures Speaks(swept, spoken, p.now >= old(nextUpdate) || old(updatePending), p.now)
      ensures AsksStarved(spoken, asked, p.now) && Repeats(asked, repeated, done, p.now)
      ensures State() == old(State()).(
                clock := ClockAfter(old(ClockNow()), config, p.now, retryAt), tabs := done.tabs, work := done.work)
    {
      walked, swept, spoken := SweepAndSpeak(told, owed, p);
      asked, repeated, done := AskInTurn(p.now);
    }

    /** A refused packet is tried again soon, and only the last attempt counts; the
        loop sleeps until the earliest timer. */
    method Settle(refused: Option<Time>, retry: Time)
      modifies this`retryAt, this`sleepUntil, this`asleep
      ensures retryAt == if refused.Some? then refused.value + retry else 0
      ensures State() == old(State()).(
                asleep := true, clock := old(ClockNow()).(retryAt := retryAt), sleepUntil := sleepUntil)
      ensures IsEarliest(TimersOf(old(ClockNow()).(retryAt := retryAt), old(TabsNow())), sleepUntil)
    {
      retryAt := 0;
      if refused.Some? {
        retryAt := Earlier(retryAt, refused.value + retry);
      }
      asleep := true;
      sleepUntil := Deadline(TimersNow());
    }

    /** One pass. What it knows of the peers' ledgers and of the transport comes as
        arguments: what each neighbor was told and is owed, and when a packet was
        refused, if one was, which is no earlier than the pass. */
    method Turn(told: seq<set<RouteKey>>, owed: map<Peer, set<RouteKey>>, refused: Option<Time>, retry: Time, p: Pass)
      returns (ghost m: Move)
      requires Valid() && p.now > 0 && !asleep
      requires retry > 0 && (refused.Some? ==> refused.value >= p.now)
      modifies this, routes, routes.sources, requests, starving
      ensures Valid() && m.Turn? && Next(old(State()), State(), m)
      ensures retryAt == if refused.Some? then refused.value + retry else 0
    {
      ghost var s := State();
      ghost var walked, swept, spoken, asked, repeated, done := DoTurn(told, owed, p);
      Settle(refused, retry);
      m := Move.Turn(p, retryAt, walked, swept, spoken, asked, repeated);
      TurnIsAMove(s, State(), m, done, sleepUntil);
    }

    method WakeUp() returns (ghost m: Move)
      requires Valid() && asleep
      modifies this
      ensures Valid() && m.WakeUp? && Next(old(State()), State(), m)
    {
      asleep, token, m := false, false, Move.WakeUp;
    }

    // ----- packets -----

    /** An Update without an interval is ignored unless it is a retraction, a directly
        attached prefix always wins, and this node's own router-id is only ever a
        reflection. */
    method Learn(n: Peer, key: RouteKey, adv: Advertisement, hold: nat, p: Pass, ghost start: Tabs)
      requires Sound() && p.now > 0 && Reaches(start, TabsNow(), Packet, p.now)
      modifies routes
      ensures Sound() && Reaches(start, TabsNow(), Packet, p.now)
    {
      if (hold > 0 || adv.metric == INFINITY) && key !in originate && adv.id != id {
        ghost var before := TabsNow();
        routes.Update(n, key, adv, hold, p);
        StepKeys(before.snap, routes.Snap(), Learned(n, key, adv, hold), p);
        ReachesThen(start, before, TabsNow(), Routing(Learned(n, key, adv, hold), p), Packet, p.now);
      }
    }

    method Withdraw(n: Peer, p: Pass, ghost start: Tabs)
      requires Sound() && p.now > 0 && Reaches(start, TabsNow(), Packet, p.now)
      modifies routes
      ensures Sound() && Reaches(start, TabsNow(), Packet, p.now)
    {
      ghost var before := TabsNow();
      routes.RetractNeighbor(n, p);
      StepKeys(before.snap, routes.Snap(), PeerRetracted(n), p);
      ReachesThen(start, before, TabsNow(), Routing(PeerRetracted(n), p), Packet, p.now);
    }

    method Handle(n: Peer, item: Item, p: Pass, ghost start: Tabs)
      requires Sound() && p.now > 0 && Reaches(start, TabsNow(), Packet, p.now)
      modifies this`neighbors, this`seqno, routes, routes.sources, requests
      ensures Sound() && Reaches(start, TabsNow(), Packet, p.now)
    {
      match item
      case Heard(link) => neighbors := neighbors[n := link];
      case Advertised(key, adv, hold) => Learn(n, key, adv, hold, p, start);
      case RetractAll => Withdraw(n, p, start);
      case Answer(key) => Tell(n, key, p, start, Packet);
      case Forward(i, wanted) =>
        ghost var before := TabsNow();
        var ok := requests.Allow(i, wanted, n, p.now);
        if ok {
          ReachesThen(start, before, TabsNow(), Request(i, wanted, n, p.now), Packet, p.now);
        }
      case Raise =>
        seqno := (seqno + 1) % 0x1_0000;
        routes.dirty := routes.dirty + originate;
    }

    /** A packet from a neighbor: its TLVs in order, one reselection if they touched
        the link, the requests they led to, and the wake it deserves. Nobody else is
        listened to. */
    method Receive(n: Peer, items: seq<Item>, refused: Option<Time>, retry: Time, p: Pass) returns (ghost m: Move)
      requires Valid() && p.now > 0
      modifies this, routes, routes.sources, requests, starving
      ensures Valid()
      ensures if n in old(neighbors) then m.Receive? && Next(old(State()), State(), m) && routes.starved == []
              else State() == old(State())
    {
      m := Move.Receive(p.now, 0);
      if n in neighbors {
        HandleAndAsk(n, items, p);
        ghost var d := WakeIfNeeded(refused, retry);
        m := Move.Receive(p.now, d);
        ReceiveIsAMove(old(State()), State(), p.now, d);
      }
    }

    method HandleAndAsk(n: Peer, items: seq<Item>, p: Pass)
      requires Sound() && p.now > 0
      modifies this`neighbors, this`seqno, routes, routes.sources, requests, starving
      ensures Sound() && Reaches(old(TabsNow()), TabsNow(), Packet, p.now) && routes.starved == []
    {
      HandleAll(n, items, p);
      AskStarved(p.now, old(TabsNow()), Packet);
    }

    method WakeIfNeeded(refused: Option<Time>, retry: Time) returns (ghost d: Time)
      modifies this`retryAt, this`token
      ensures State() == old(State()).(token := token, clock := old(ClockNow()).(retryAt := retryAt))
      ensures IsEarliest(TimersOf(old(ClockNow()).(retryAt := retryAt), old(TabsNow())), d)
      ensures token <==> old(token) || NeedsWaking(Work(updatePending, routes.Work()), sleepUntil, d)
    {
      if refused.Some? {
        retryAt := Earlier(retryAt, refused.value + retry);
      }
      var wake;
      wake, d := WakeForPacket(Work(updatePending, routes.Work()), TimersNow(), sleepUntil);
      token := token || wake;
    }

    method HandleAll(n: Peer, items: seq<Item>, p: Pass)
      requires Sound() && p.now > 0
      modifies this`neighbors, this`seqno, routes, routes.sources, requests
      ensures Sound() && Reaches(old(TabsNow()), TabsNow(), Packet, p.now)
    {
      ghost var start := TabsNow();
      ReachesSelf(start, Packet, p.now);
      var linkChanged := false;
      for i := 0 to |items|
        invariant Sound() && Reaches(start, TabsNow(), Packet, p.now)
      {
        Handle(n, items[i], p, start);
        linkChanged := linkChanged || items[i].Heard?;
      }
      if linkChanged {
        ghost var before := TabsNow();
        routes.RecomputeNeighbor(n, p);
        StepKeys(before.snap, routes.Snap(), LinkChanged(n), p);
        ReachesThen(start, before, TabsNow(), Routing(LinkChanged(n), p), Packet, p.now);
      }
    }

    // ----- peers and originated prefixes -----

    method ExpirePeer(n: Peer, p: Pass, ghost start: Tabs)
      requires Sound() && p.now > 0 && Reaches(start, TabsNow(), Configuring, p.now)
      modifies routes
      ensures Sound() && Reaches(start, TabsNow(), Configuring, p.now)
      ensures OpStep(old(TabsNow()), TabsNow(), Routing(PeerGone(n), p))
    {
      ghost var before := TabsNow();
      routes.ExpireNeighbor(n, p);
      StepKeys(before.snap, routes.Snap(), PeerGone(n), p);
      ReachesThen(start, before, TabsNow(), Routing(PeerGone(n), p), Configuring, p.now);
    }

    /** The routes of whoever held the name before go with it. */
    method AddPeer(n: Peer, p: Pass) returns (ghost m: Move)
      requires Valid() && p.now > 0
      modifies this, routes
      ensures Valid() && m.Change? && Next(old(State()), State(), m)
      ensures neighbors == old(neighbors)[n := FRESH_LINK] && updatePending
      ensures if n in old(neighbors) then OpStep(old(TabsNow()), TabsNow(), Routing(PeerGone(n), p))
              else TabsNow() == old(TabsNow())
    {
      ghost var start := TabsNow();
      ReachesSelf(start, Configuring, p.now);
      if n in neighbors {
        ExpirePeer(n, p, start);
      }
      neighbors := neighbors[n := FRESH_LINK];
      updatePending, token := true, true;
      m := Change(p.now);
      ChangeIsAMove(old(State()), State(), p.now);
    }

    /** With a neighbor go the windows it was asked in and its routes; one that is not
        there is not removed twice. */
    method RemovePeer(n: Peer, p: Pass) returns (ghost m: Move, ghost mid: Tabs)
      requires Valid() && p.now > 0
      modifies this, routes, requests
      ensures Valid() && neighbors == old(neighbors) - {n}
      ensures n in old(neighbors) ==> Removed(n, old(State()), State(), m, mid, p)
      ensures n !in old(neighbors) ==> State() == old(State())
    {
      m, mid := Change(p.now), TabsNow();
      if n in neighbors {
        m, mid := Remove(n, p);
      }
    }

    method Remove(n: Peer, p: Pass) returns (ghost m: Move, ghost mid: Tabs)
      requires Valid() && p.now > 0
      modifies this, routes, requests
      ensures Valid() && neighbors == old(neighbors) - {n}
      ensures Removed(n, old(State()), State(), m, mid, p)
    {
      neighbors := neighbors - {n};
      mid := ForgetAndExpire(n, p);
      token := true;
      m := Change(p.now);
      ChangeIsAMove(old(State()), State(), p.now);
    }

    method ForgetAndExpire(n: Peer, p: Pass) returns (ghost mid: Tabs)
      requires Sound() && p.now > 0
      modifies routes, requests
      ensures Sound() && Reaches(old(TabsNow()), TabsNow(), Configuring, p.now)
      ensures OpStep(old(TabsNow()), mid, Forget(n)) && OpStep(mid, TabsNow(), Routing(PeerGone(n), p))
    {
      ghost var start := TabsNow();
      ReachesSelf(start, Configuring, p.now);
      requests.ForgetNeighbor(n);
      mid := TabsNow();
      ReachesThen(start, start, mid, Forget(n), Configuring, p.now);
      ExpirePeer(n, p, start);
    }

    method OriginateFrom(key: RouteKey, p: Pass) returns (ghost m: Move)
      requires Valid() && p.now > 0
      modifies this, routes
      ensures Valid() && m.Change? && Next(old(State()), State(), m)
      ensures originate == old(originate) + {key} && updatePending
      ensures Held(old(routes.forwarding), routes.forwarding, {}, {key})
      ensures routes.entries.Keys == old(routes.entries.Keys) - {key}
    {
      TakeOver(key, p);
      updatePending, token := true, true;
      m := Change(p.now);
      ChangeIsAMove(old(State()), State(), p.now);
    }

    method TakeOver(key: RouteKey, p: Pass)
      requires Sound() && p.now > 0
      modifies this`originate, routes`entries, routes`forwarding
      ensures Sound() && originate == old(originate) + {key} && Reaches(old(TabsNow()), TabsNow(), Configuring, p.now)
      ensures Held(old(routes.forwarding), routes.forwarding, {}, {key})
      ensures routes.entries.Keys == old(routes.entries.Keys) - {key}
    {
      ReachesSelf(TabsNow(), Configuring, p.now);
      AdoptAll({key}, p, TabsNow());
      originate := originate + {key};
    }

    /** The whole originated set replaced: what is no longer wanted is given back
        before what is wanted is taken over. */
    method SetOriginated(wanted: set<RouteKey>, p: Pass) returns (ghost m: Move)
      requires Valid() && p.now > 0
      modifies this, routes
      ensures Valid() && originate == wanted
      ensures if wanted == old(originate) then State() == old(State())
              else m.Change? && Next(old(State()), State(), m) && updatePending
      ensures wanted != old(originate) ==> Held(old(routes.forwarding), routes.forwarding, old(originate), wanted)
    {
      m := Change(p.now);
      if wanted != originate {
        ReplaceOriginated(wanted, p);
        updatePending, token := true, true;
        ChangeIsAMove(old(State()), State(), p.now);
      }
    }

    method ReplaceOriginated(wanted: set<RouteKey>, p: Pass)
      requires Sound() && p.now > 0
      modifies this`originate, routes`entries, routes`forwarding
      ensures Sound() && originate == wanted && Reaches(old(TabsNow()), TabsNow(), Configuring, p.now)
      ensures Held(old(routes.forwarding), routes.forwarding, old(originate), wanted)
    {
      ghost var start := TabsNow();
      ReachesSelf(start, Configuring, p.now);
      ReleaseAll(originate - wanted, p, start);
      originate := wanted;
      AdoptAll(wanted, p, start);
    }

    method ReleaseAll(keys: set<RouteKey>, p: Pass, ghost start: Tabs)
      requires Sound() && p.now > 0 && keys <= originate && Reaches(start, TabsNow(), Configuring, p.now)
      modifies routes`forwarding
      ensures Sound() && Reaches(start, TabsNow(), Configuring, p.now)
      ensures routes.forwarding == old(routes.forwarding) - keys
    {
      var todo := keys;
      while todo != {}
        invariant Sound() && todo <= keys && Reaches(start, TabsNow(), Configuring, p.now)
        invariant routes.forwarding == old(routes.forwarding) - (keys - todo)
        decreases todo
      {
        var k :| k in todo;
        todo := todo - {k};
        ghost var before := TabsNow();
        routes.ReleaseOriginated(k, p);
        ReachesThen(start, before, TabsNow(), Routing(Unoriginated(k), p), Configuring, p.now);
      }
    }

    method AdoptAll(keys: set<RouteKey>, p: Pass, ghost start: Tabs)
      requires p.now > 0 && Reaches(start, TabsNow(), Configuring, p.now)
      modifies routes`entries, routes`forwarding
      ensures Reaches(start, TabsNow(), Configuring, p.now)
      ensures routes.entries.Keys == old(routes.entries.Keys) - keys
      ensures Held(old(routes.forwarding), routes.forwarding, {}, keys)
    {
      var todo := keys;
      while todo != {}
        invariant todo <= keys && routes.entries.Keys == old(routes.entries.Keys) - (keys - todo)
        invariant Reaches(start, TabsNow(), Configuring, p.now)
        invariant Held(old(routes.forwarding), routes.forwarding, {}, keys - todo)
        decreases todo
      {
        var k :| k in todo;
        todo := todo - {k};
        ghost var before := TabsNow();
        routes.AdoptOriginated(k, p);
        ReachesThen(start, before, TabsNow(), Routing(Originated(k), p), Configuring, p.now);
      }
    }
  }
}
