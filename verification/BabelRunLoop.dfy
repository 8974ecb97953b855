/** When the run loop sleeps, and what wakes it: a machine whose every move is made
    of operations on the tables. */
module BabelRunLoop {
  import opened BabelOrder
  import opened BabelSources
  import opened BabelSelection
  import opened BabelTable
  import opened BabelRequests
  import opened Deadlines

  // ----- the deadline -----

  /** The timers one neighbor contributes; those of a state it is not in do not count. */
  datatype Link = Link(
    alive: bool, helloInterval: nat, helloExpiry: Time, nextHelloDue: nat, haveCost: bool, ihuExpiry: Time,
    haveRtt: bool, rttExpiry: Time)

  const FRESH_LINK := Link(false, 0, 0, 0, false, 0, false, 0)

  datatype Timers = Timers(
    nextHello: Time, nextUpdate: Time, retryAt: Time, nextExpiry: Time, nextStarve: Time, nextSweep: Time,
    links: map<Peer, Link>)

  predicate LinkTerm(l: Link, x: Time) {
    || (l.alive && (x == l.helloExpiry || x == l.nextHelloDue))
    || (l.haveCost && x == l.ihuExpiry)
    || (l.haveRtt && x == l.rttExpiry)
  }

  predicate OwnTerm(t: Timers, x: Time) {
    || x == t.nextHello || x == t.nextUpdate || x == t.retryAt
    || x == t.nextExpiry || x == t.nextStarve || x == t.nextSweep
  }

  ghost predicate Term(t: Timers, x: Time) {
    OwnTerm(t, x) || exists p :: p in t.links && LinkTerm(t.links[p], x)
  }

  /** No timer is due before d, and d is one of them unless there is none. */
  ghost predicate IsEarliest(t: Timers, d: Time) {
    (forall x | Term(t, x) :: NotLater(d, x)) && (d == 0 || Term(t, d))
  }

  function WithLink(d: Time, l: Link): (r: Time)
    ensures NotLater(r, d) && (forall x | LinkTerm(l, x) :: NotLater(r, x))
    ensures r == d || LinkTerm(l, r)
  {
    var a := if l.alive then Earlier(Earlier(d, l.helloExpiry), l.nextHelloDue) else d;
    var b := if l.haveCost then Earlier(a, l.ihuExpiry) else a;
    if l.haveRtt then Earlier(b, l.rttExpiry) else b
  }

  ghost predicate Bounds(d: Time, l: Link) {
    forall x | LinkTerm(l, x) :: NotLater(d, x)
  }

  lemma EarlierStillBounds(d: Time, e: Time, l: Link)
    requires Bounds(d, l) && NotLater(e, d)
    ensures Bounds(e, l)
  {}

  method Deadline(t: Timers) returns (d: Time)
    ensures IsEarliest(t, d)
  {
    d := Earlier(Earlier(t.nextHello, t.nextUpdate), t.nextExpiry);
    d := Earlier(Earlier(d, t.nextStarve), t.retryAt);
    d := Earlier(d, t.nextSweep);
    var todo := t.links.Keys;
    while todo != {}
      invariant forall p | p in todo :: p in t.links
      invariant forall x | OwnTerm(t, x) :: NotLater(d, x)
      invariant forall p | p in t.links && p !in todo :: Bounds(d, t.links[p])
      invariant d == 0 || Term(t, d)
      decreases todo
    {
      var p :| p in todo;
      todo := todo - {p};
      var e := WithLink(d, t.links[p]);
      forall q | q in t.links && q !in todo
        ensures Bounds(e, t.links[q])
      {
        if q != p {
          EarlierStillBounds(d, e, t.links[q]);
        }
      }
      d := e;
    }
    forall x | Term(t, x)
      ensures NotLater(d, x)
    {
      if !OwnTerm(t, x) {
        var p :| p in t.links && LinkTerm(t.links[p], x);
        assert Bounds(d, t.links[p]);
      }
    }
  }

  // ----- the sweep of one link -----

  const HISTORY_DEPTH := 16

  /** Every Hello that is overdue is a loss, and the next is expected one interval on. */
  function Overdue(due: nat, interval: nat, now: Time, n: nat): nat
    decreases n
  {
    if n == 0 || interval == 0 || due == 0 || now < due then due else Overdue(due + interval, interval, now, n - 1)
  }

  /** However late the sweep, at most n of them are counted. */
  lemma {:induction false} OverdueStaysBehind(due: nat, interval: nat, now: Time, n: nat)
    ensures 0 != Overdue(due, interval, now, n) <= now
       <==> 0 != due <= now && (interval == 0 || due + n * interval <= now)
    decreases n
  {
    if n == 0 || interval == 0 || due == 0 || now < due {
    } else {
      OverdueStaysBehind(due + interval, interval, now, n - 1);
      assert due + n * interval == due + interval + (n - 1) * interval;
    }
  }

  function SweptLink(l: Link, now: Time): Link {
    var due := l.(nextHelloDue := Overdue(l.nextHelloDue, l.helloInterval, now, HISTORY_DEPTH));
    var up := if due.alive && now >= due.helloExpiry
              then due.(alive := false, haveCost := false, helloInterval := 0, helloExpiry := 0, nextHelloDue := 0)
              else due;
    up.(haveCost := up.haveCost && now < up.ihuExpiry, haveRtt := up.haveRtt && now < up.rttExpiry)
  }

  /** A sweep leaves a link up, a cost or a round-trip time known, exactly while each is in
      date, and no cost of a link it takes down, nor any Hello to wait for. */
  lemma SweptLinkIs(l: Link, now: Time)
    ensures var s := SweptLink(l, now);
      && (s.alive <==> l.alive && now < l.helloExpiry)
      && (s.haveCost <==> l.haveCost && now < l.ihuExpiry && (l.alive ==> now < l.helloExpiry))
      && (s.haveRtt <==> l.haveRtt && now < l.rttExpiry)
      && (l.alive && !s.alive ==> s.helloInterval == s.helloExpiry == s.nextHelloDue == 0)
      && (l.alive == s.alive ==> s.helloInterval == l.helloInterval && s.helloExpiry == l.helloExpiry)
  {}

  function SweptLinks(links: map<Peer, Link>, now: Time): map<Peer, Link> {
    map p | p in links :: SweptLink(links[p], now)
  }

  /** A neighbor still held to be alive whose Hellos are overdue by a whole history. */
  predicate LongOverdue(l: Link, now: Time) {
    && l.alive && now < l.helloExpiry && 0 != l.nextHelloDue <= now
    && (l.helloInterval == 0 || l.nextHelloDue + HISTORY_DEPTH * l.helloInterval <= now)
  }

  /** A swept link keeps no lapsed promise, but for one long overdue. */
  lemma SweptLinkIsAhead(l: Link, now: Time)
    ensures (exists x :: LinkTerm(SweptLink(l, now), x) && 0 != x <= now) <==> LongOverdue(l, now)
  {
    OverdueStaysBehind(l.nextHelloDue, l.helloInterval, now, HISTORY_DEPTH);
    var swept := SweptLink(l, now);
    if LongOverdue(l, now) {
      assert LinkTerm(swept, swept.nextHelloDue);
    }
  }

  // ----- the tables and what is done to them -----

  datatype Tabs = Tabs(snap: Snapshot, requests: Requests, starving: Starving)

  ghost predicate TabsOk(t: Tabs) {
    SnapshotOk(t.snap) && RequestsOk(t.requests) && StarvingOk(t.starving)
  }

  const EMPTY := Tabs(
    Snapshot(map[], Tables(map[], map[], 0), {}), Requests(map[], map[], map[], 0), Starving(map[], map[], 0))

  lemma EmptyIsOk()
    ensures TabsOk(EMPTY)
  {
    assert forall p: Peer :: HeldBy(Askers(map[]), p) == {} && HeldBy(Starvers(map[]), p) == {};
  }

  /** The prefixes with a selected route. */
  function Reachable(x: Snapshot): set<RouteKey> {
    set k | k in x.table.entries && x.table.entries[k].selected.Via?
  }

  datatype Op =
    | Routing(ev: Event, p: Pass)
    | Request(i: SourceKey, seqno: U16, asker: Peer, now: Time)
    | Ask(a: BabelRequests.Asked, now: Time)
    | Forget(n: Peer)
    | Remember(i: SourceKey, seqno: U16, asker: Peer, now: Time)
    | SweepRequests(now: Time)
    | Repeat(now: Time)

  /** One operation on one table. */
  ghost predicate OpStep(a: Tabs, b: Tabs, op: Op) {
    match op
    case Routing(ev, p) => Step(a.snap, b.snap, ev, p) && b == a.(snap := b.snap)
    case Request(i, seqno, asker, now) =>
      && now > 0 && WithinShare(a.requests.pending, a.requests.byAsker, i, asker)
      && b == a.(requests := Recorded(a.requests, i, Pending(seqno, now, asker)))
    case Ask(q, now) => now > 0 && b == a.(requests := Asking(a.requests, q, now))
    case Forget(n) => b == a.(requests := Forgotten(a.requests, n))
    case Remember(i, seqno, asker, now) =>
      now > 0 && b == a.(starving := Remembered(a.starving, i, seqno, asker, now))
    case SweepRequests(now) => SweepStep(a.requests, b.requests, now) && b == a.(requests := b.requests)
    case Repeat(now) =>
      now > 0 && RepeatStep(a.starving, b.starving, Reachable(a.snap), now) && b == a.(starving := b.starving)
  }

  lemma OpKeeps(a: Tabs, b: Tabs, op: Op)
    requires TabsOk(a) && OpStep(a, b, op)
    ensures TabsOk(b)
  {
    match op
    case Routing(ev, p) => StepKeepsTable(a.snap, b.snap, ev, p);
    case Request(i, seqno, asker, now) => RecordKeeps(a.requests, i, Pending(seqno, now, asker));
    case Ask(q, now) => AskingKeeps(a.requests, q, now);
    case Forget(n) => ForgettingKeeps(a.requests, n);
    case Remember(i, seqno, asker, now) => RememberKeeps(a.starving, i, seqno, asker, now);
    case SweepRequests(now) => SweepKeeps(a.requests, b.requests, now);
    case Repeat(now) => RepeatKeeps(a.starving, b.starving, Reachable(a.snap), now);
  }

  /** Where the speaker is: handling a packet, changing its peers or its own
      prefixes, telling, or asking for newer numbers, once or again. */
  datatype Phase = Packet | Configuring | Speaking | Starved | Repeating

  /** An operation belongs to the moment it is part of. */
  predicate At(op: Op, now: Time) {
    match op
    case Routing(_, p) => p.now == now
    case Forget(_) => true
    case _ => op.now == now
  }

  /** An update that is not ignored: only a retraction may promise no interval. */
  predicate Heeded(ev: Event) {
    ev.Learned? && ev.hold >= 0 && (ev.hold > 0 || ev.adv.metric == INFINITY)
  }

  /** What each of them does. */
  predicate Allowed(phase: Phase, op: Op) {
    match phase
    case Packet =>
      || (op.Routing? && (Heeded(op.ev) || op.ev.LinkChanged? || op.ev.PeerRetracted? || op.ev.Said?))
      || op.Request? || op.Ask? || op.Remember?
    case Configuring =>
      op.Forget? || (op.Routing? && (op.ev.PeerGone? || op.ev.Originated? || op.ev.Unoriginated?))
    case Speaking => op.Routing? && op.ev.Said?
    case Starved => op.Request? || op.Ask? || op.Remember?
    case Repeating => op.Request? || op.Ask?
  }

  ghost predicate Through(mids: seq<Tabs>, ops: seq<Op>, phase: Phase, now: Time) {
    && |mids| == |ops| + 1
    && forall i | 0 <= i < |ops| :: Allowed(phase, ops[i]) && At(ops[i], now) && OpStep(mids[i], mids[i + 1], ops[i])
  }

  /** Some operations of this phase lead from one state of the tables to the other. */
  ghost predicate Reaches(a: Tabs, b: Tabs, phase: Phase, now: Time) {
    exists mids, ops :: Through(mids, ops, phase, now) && mids[0] == a && mids[|ops|] == b
  }

  lemma ReachesSelf(a: Tabs, phase: Phase, now: Time)
    ensures Reaches(a, a, phase, now)
  {
    assert Through([a], [], phase, now) && [a][0] == a;
  }

  lemma ReachesThen(a: Tabs, b: Tabs, c: Tabs, op: Op, phase: Phase, now: Time)
    requires Reaches(a, b, phase, now) && Allowed(phase, op) && At(op, now) && OpStep(b, c, op)
    ensures Reaches(a, c, phase, now)
  {
    var mids, ops :| Through(mids, ops, phase, now) && mids[0] == a && mids[|ops|] == b;
    var more, longer := mids + [c], ops + [op];
    forall i | 0 <= i < |longer|
      ensures Allowed(phase, longer[i]) && At(longer[i], now) && OpStep(more[i], more[i + 1], longer[i])
    {
      if i < |ops| {
        assert longer[i] == ops[i] && more[i] == mids[i] && more[i + 1] == mids[i + 1];
      }
    }
    assert Through(more, longer, phase, now) && more[0] == a && more[|longer|] == c;
  }

  lemma ThroughStep(mids: seq<Tabs>, ops: seq<Op>, phase: Phase, now: Time, n: nat)
    requires Through(mids, ops, phase, now) && 0 < n < |mids|
    ensures Allowed(phase, ops[n - 1]) && At(ops[n - 1], now) && OpStep(mids[n - 1], mids[n], ops[n - 1])
  {
    var i := n - 1;
    assert OpStep(mids[i], mids[i + 1], ops[i]);
  }

  lemma ThroughKeepsOne(mids: seq<Tabs>, ops: seq<Op>, phase: Phase, now: Time, n: nat)
    requires Through(mids, ops, phase, now) && 0 < n < |mids| && TabsOk(mids[n - 1])
    ensures TabsOk(mids[n])
  {
    ThroughStep(mids, ops, phase, now, n);
    OpKeeps(mids[n - 1], mids[n], ops[n - 1]);
  }

  lemma {:induction false} ThroughKeeps(mids: seq<Tabs>, ops: seq<Op>, phase: Phase, now: Time, n: nat)
    requires Through(mids, ops, phase, now) && n < |mids| && TabsOk(mids[0])
    ensures TabsOk(mids[n])
  {
    if n == 0 {
    } else {
      ThroughKeeps(mids, ops, phase, now, n - 1);
      ThroughKeepsOne(mids, ops, phase, now, n);
    }
  }

  /** Whatever the operations do, the tables stay in order. */
  lemma ReachesKeeps(a: Tabs, b: Tabs, phase: Phase, now: Time)
    requires TabsOk(a) && Reaches(a, b, phase, now)
    ensures TabsOk(b)
  {
    var mids, ops :| Through(mids, ops, phase, now) && mids[0] == a && mids[|ops|] == b;
    ThroughKeeps(mids, ops, phase, now, |ops|);
  }

  // ----- the loop as a machine -----

  /** Work that arrived since the last pass. */
  datatype Work = Work(updatePending: bool, owed: Owed)

  predicate HasWork(w: Work) {
    w.updatePending || w.owed.dirty != {} || w.owed.starved != []
  }

  /** The timers no table keeps. */
  datatype Clock = Clock(nextHello: Time, nextUpdate: Time, retryAt: Time, links: map<Peer, Link>)

  datatype Config = Config(hello: Time, update: Time, trigger: U16)

  datatype World = World(
    config: Config, asleep: bool, token: bool, clock: Clock, sleepUntil: Time, tabs: Tabs, work: Work)

  function TimersOf(c: Clock, t: Tabs): Timers {
    Timers(c.nextHello, c.nextUpdate, c.retryAt, t.snap.table.at, t.starving.nextRetry, t.requests.nextSweep, c.links)
  }

  /** What a packet is tested for once it has been handled: the deadline d as it
      stands then against the one the loop sleeps on. */
  predicate NeedsWaking(work: Work, sleepUntil: Time, d: Time) {
    HasWork(work) || sleepUntil == 0 || d < sleepUntil
  }

  method WakeForPacket(work: Work, timers: Timers, sleepUntil: Time) returns (wake: bool, ghost d: Time)
    ensures IsEarliest(timers, d) && (wake <==> NeedsWaking(work, sleepUntil, d))
    ensures !wake ==> !HasWork(work) && sleepUntil != 0 && forall x | Term(timers, x) && x != 0 :: sleepUntil <= x
    ensures wake ==> HasWork(work) || sleepUntil == 0 || exists x :: Term(timers, x) && x < sleepUntil
  {
    var at := Deadline(timers);
    wake, d := HasWork(work) || sleepUntil == 0 || at < sleepUntil, at;
    assert Term(timers, timers.nextHello);
  }

  /** The tables and the work, part way through a pass. */
  datatype Stage = Stage(tabs: Tabs, work: Work)

  /** The sweep walks the routes, then the requests. It owes what the walk stirred. */
  ghost predicate Sweeps(a: Stage, mid: Tabs, b: Stage, trigger: U16, p: Pass) {
    && OpStep(a.tabs, mid, Routing(TimePassed, p)) && OpStep(mid, b.tabs, SweepRequests(p.now))
    && b.work.updatePending == a.work.updatePending
    && Told(a.tabs.snap.sources, Sweep, a.tabs.snap.table.(at := 0), mid.snap.table, trigger,
            a.work.owed, b.work.owed, p)
  }

  /** Speaking takes every dirty prefix, and a dump answers whoever asked for one. */
  ghost predicate Speaks(a: Stage, b: Stage, dump: bool, now: Time) {
    && Reaches(a.tabs, b.tabs, Speaking, now)
    && b.work == Work(!dump && a.work.updatePending, a.work.owed.(dirty := {}))
  }

  ghost predicate AsksStarved(a: Stage, b: Stage, now: Time) {
    Reaches(a.tabs, b.tabs, Starved, now) && b.work == a.work.(owed := a.work.owed.(starved := []))
  }

  /** Every repeat is walked once, and whoever may be asked again is. */
  ghost predicate Repeats(a: Stage, mid: Tabs, b: Stage, now: Time) {
    OpStep(a.tabs, mid, Repeat(now)) && Reaches(mid, b.tabs, Repeating, now) && b.work == a.work
  }

  /** The clock after a pass that ended at `now`, refused or not. */
  function ClockAfter(c: Clock, config: Config, now: Time, retryAt: Time): Clock {
    Clock(
      if now >= c.nextHello then now + config.hello else c.nextHello,
      if now >= c.nextUpdate then now + config.update else c.nextUpdate,
      retryAt, SweptLinks(c.links, now))
  }

  datatype Move =
    | Receive(now: Time, deadline: Time)
    | Change(now: Time)
    | Lost
    | WakeUp
    | Turn(p: Pass, retryAt: Time, walked: Tabs, swept: Stage, spoken: Stage, asked: Stage, repeated: Tabs)

  /** Packets, peer changes and originations, losses reported by senders, and the
      loop's own turns, in any interleaving. */
  ghost predicate Next(s: World, t: World, m: Move) {
    t.config == s.config &&
    match m
    case Receive(now, d) =>
      && t.asleep == s.asleep && t.sleepUntil == s.sleepUntil && Reaches(s.tabs, t.tabs, Packet, now)
      && t.clock.nextHello == s.clock.nextHello && t.clock.nextUpdate == s.clock.nextUpdate
      && IsEarliest(TimersOf(t.clock, t.tabs), d)
      && (t.token <==> s.token || NeedsWaking(t.work, t.sleepUntil, d))
    case Change(now) =>
      && t.asleep == s.asleep && t.sleepUntil == s.sleepUntil && Reaches(s.tabs, t.tabs, Configuring, now)
      && t.clock == s.clock.(links := t.clock.links) && t.token
    case Lost => t == s.(token := t.token) && (s.token ==> t.token)
    case WakeUp => s.asleep && t == s.(asleep := false, token := false)
    case Turn(p, retryAt, walked, swept, spoken, asked, repeated) =>
      && !s.asleep && t.asleep && (s.token ==> t.token)
      && Sweeps(Stage(s.tabs, s.work), walked, swept, s.config.trigger, p)
      && Speaks(swept, spoken, p.now >= s.clock.nextUpdate || s.work.updatePending, p.now)
      && AsksStarved(spoken, asked, p.now) && Repeats(asked, repeated, Stage(t.tabs, t.work), p.now)
      && t.clock == ClockAfter(s.clock, s.config, p.now, retryAt) && (retryAt == 0 || retryAt > p.now)
      && IsEarliest(TimersOf(t.clock, t.tabs), t.sleepUntil)
  }

  predicate RouteDue(x: Snapshot, k: RouteKey, n: Peer, at: Time) {
    k in x.table.entries && n in x.table.entries[k].routes && at == x.table.entries[k].routes[n].expiresAt
  }

  /** Something the loop would be late for if it slept past it. */
  ghost predicate Live(w: World, x: Time) {
    || x == w.clock.nextHello || x == w.clock.nextUpdate || x == w.clock.retryAt
    || (exists p :: p in w.clock.links && LinkTerm(w.clock.links[p], x))
    || (exists k, n :: RouteDue(w.tabs.snap, k, n, x))
    || (exists i :: i in w.tabs.starving.retries && x == w.tabs.starving.retries[i].nextAt)
    || (exists i :: i in w.tabs.requests.pending && x == w.tabs.requests.pending[i].sentAt + SUPPRESS)
    || (exists a :: a in w.tabs.requests.asked && x == w.tabs.requests.asked[a] + SUPPRESS)
  }

  /** Asleep, the loop has been told to wake, or has nothing to do before it will
      wake by itself; a sleep until zero ends at once. */
  ghost predicate Restful(w: World) {
    w.asleep && !w.token ==>
      !HasWork(w.work) && forall x | Term(TimersOf(w.clock, w.tabs), x) && x != 0 :: w.sleepUntil <= x
  }

  lemma RouteIsCovered(x: Snapshot, k: RouteKey, n: Peer)
    requires SnapshotOk(x) && k in x.table.entries && n in x.table.entries[k].routes
    ensures NotLater(x.table.at, x.table.entries[k].routes[n].expiresAt)
  {
    assert KeyOk(x.sources, x.table, k, x.retracted);
  }

  /** The kept minima stand in for every deadline in the tables. */
  lemma MinimaCover(w: World, x: Time)
    requires TabsOk(w.tabs) && Live(w, x)
    ensures exists y :: Term(TimersOf(w.clock, w.tabs), y) && NotLater(y, x)
  {
    var timers := TimersOf(w.clock, w.tabs);
    if OwnTerm(timers, x) || exists p :: p in timers.links && LinkTerm(timers.links[p], x) {
      assert Term(timers, x) && NotLater(x, x);
    } else if exists k, n :: RouteDue(w.tabs.snap, k, n, x) {
      var k, n :| RouteDue(w.tabs.snap, k, n, x);
      RouteIsCovered(w.tabs.snap, k, n);
      assert Term(timers, timers.nextExpiry);
    } else if i :| i in w.tabs.starving.retries && x == w.tabs.starving.retries[i].nextAt {
      assert Term(timers, timers.nextStarve);
    } else {
      assert Term(timers, timers.nextSweep);
    }
  }

  /** A pass leaves the tables in order and no work behind. */
  lemma PassSettles(s: World, t: World, m: Move)
    requires TabsOk(s.tabs) && m.Turn? && Next(s, t, m)
    ensures TabsOk(t.tabs) && !HasWork(t.work)
  {
    OpKeeps(s.tabs, m.walked, Routing(TimePassed, m.p));
    OpKeeps(m.walked, m.swept.tabs, SweepRequests(m.p.now));
    ReachesKeeps(m.swept.tabs, m.spoken.tabs, Speaking, m.p.now);
    ReachesKeeps(m.spoken.tabs, m.asked.tabs, Starved, m.p.now);
    OpKeeps(m.asked.tabs, m.repeated, Repeat(m.p.now));
    ReachesKeeps(m.repeated, t.tabs, Repeating, m.p.now);
  }

  /** A packet that wakes nobody leaves nothing to wake for. */
  lemma PacketSettles(s: World, t: World, m: Move)
    requires m.Receive? && Next(s, t, m)
    ensures Restful(t)
  {
    if !t.token {
      forall x | Term(TimersOf(t.clock, t.tabs), x) && x != 0
        ensures t.sleepUntil <= x
      {
        assert NotLater(m.deadline, x);
      }
    }
  }

  lemma StepKeeps(s: World, t: World, m: Move)
    requires TabsOk(s.tabs) && Restful(s) && Next(s, t, m)
    ensures TabsOk(t.tabs) && Restful(t)
  {
    match m
    case Receive(now, _) =>
      ReachesKeeps(s.tabs, t.tabs, Packet, now);
      PacketSettles(s, t, m);
    case Change(now) => ReachesKeeps(s.tabs, t.tabs, Configuring, now);
    case Turn(_, _, _, _, _, _, _) => PassSettles(s, t, m);
    case _ =>
  }

  /** A speaker starts awake, with empty tables. */
  ghost predicate Run(trace: seq<World>, moves: seq<Move>) {
    && |trace| == |moves| + 1 && !trace[0].asleep && trace[0].tabs == EMPTY
    && forall i | 0 <= i < |moves| :: Next(trace[i], trace[i + 1], moves[i])
  }

  lemma {:induction false} EveryRunIsRestful(trace: seq<World>, moves: seq<Move>, n: nat)
    requires Run(trace, moves) && n < |trace|
    ensures TabsOk(trace[n].tabs) && Restful(trace[n])
  {
    if n == 0 {
      EmptyIsOk();
    } else {
      EveryRunIsRestful(trace, moves, n - 1);
      assert Next(trace[n - 1], trace[n], moves[n - 1]);
      StepKeeps(trace[n - 1], trace[n], moves[n - 1]);
    }
  }

  /** In every interleaving, while the loop sleeps untold, no work is waiting and
      nothing it is responsible for falls due before it wakes. */
  lemma NeverOversleeps(trace: seq<World>, moves: seq<Move>, n: nat, x: Time)
    requires Run(trace, moves) && n < |trace| && trace[n].asleep && !trace[n].token
    requires Live(trace[n], x) && x != 0
    ensures !HasWork(trace[n].work) && trace[n].sleepUntil <= x
  {
    EveryRunIsRestful(trace, moves, n);
    MinimaCover(trace[n], x);
  }
}
