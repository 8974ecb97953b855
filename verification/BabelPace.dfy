/** The other half of the sleep: exactly when a pass leaves something already due, so
    that the loop does not sleep at all. */
module BabelPace {
  import opened BabelOrder
  import opened BabelSources
  import opened BabelSelection
  import opened BabelTable
  import opened BabelRequests
  import opened BabelRunLoop
  import opened Deadlines

  // ----- routes that expire are held for a while -----

  ghost predicate Lasting(e: Entry) {
    forall n | n in e.routes && e.routes[n].rx != INFINITY :: e.routes[n].hold > 0
  }

  ghost predicate AllLasting(t: Tables) {
    forall k | k in t.entries :: Lasting(t.entries[k])
  }

  /** A selection keeps every hold, and leaves no route of its prefix due. */
  lemma SelectionLooksAhead(s: Sources, b: Tables, a: Tables, k: RouteKey, e: Entry, p: Pass)
    requires KeySelected(s, b, a, k, e, p) && Lasting(e) && k in a.entries
    ensures Lasting(a.entries[k]) && forall n | n in a.entries[k].routes :: a.entries[k].routes[n].expiresAt > p.now
  {
    var next :| SelectStep(s, k, e, next, p) && Became(b, a, k, e.selected, next);
    assert a.entries[k].routes == AfterPass(e.routes, p);
  }

  lemma WalkLasts(s: Sources, edit: Edit, b: Tables, a: Tables, p: Pass)
    requires AllLasting(b) && WalkStep(s, edit, b, a, p)
    ensures AllLasting(a)
  {
    forall k | k in a.entries ensures Lasting(a.entries[k]) {
      assert Walked(s, edit, b, a, k, p);
      if k in b.entries && Touches(edit, b.entries[k]) {
        SelectionLooksAhead(s, b, a, k, Edited(edit, b.entries[k], p.now), p);
      }
    }
  }

  lemma UpdateLasts(s: Sources, b: Tables, a: Tables, n: Peer, key: RouteKey, adv: Advertisement, hold: Time, p: Pass)
    requires AllLasting(b) && UpdateStep(s, b, a, n, key, adv, hold, p)
    requires hold > 0 || adv.metric == INFINITY
    ensures AllLasting(a)
  {
    forall k | k in a.entries ensures Lasting(a.entries[k]) {
      if k != key {
        assert KeySame(b, a, k);
      } else if Admits(s, b.entries, n, key, adv, hold) {
        SelectionLooksAhead(s, b, a, key, Acquired(b.entries, n, key, adv, hold, p.now), p);
      }
    }
  }

  lemma StepLasts(x: Snapshot, y: Snapshot, ev: Event, p: Pass)
    requires AllLasting(x.table) && Step(x, y, ev, p) && (ev.Learned? ==> Heeded(ev))
    ensures AllLasting(y.table)
  {
    match ev
    case Learned(n, key, adv, hold) => UpdateLasts(x.sources, x.table, y.table, n, key, adv, hold, p);
    case LinkChanged(n) => WalkLasts(x.sources, Recompute(n), x.table, y.table, p);
    case PeerGone(n) => WalkLasts(x.sources, Expire(n), x.table, y.table, p);
    case PeerRetracted(n) =>
      if n !in x.retracted {
        WalkLasts(x.sources, Retract(n), x.table, y.table, p);
      }
    case TimePassed => WalkLasts(x.sources, Sweep, x.table.(at := 0), y.table, p);
    case _ =>
  }

  lemma OpLasts(a: Tabs, b: Tabs, op: Op)
    requires AllLasting(a.snap.table) && OpStep(a, b, op) && (op.Routing? && op.ev.Learned? ==> Heeded(op.ev))
    ensures AllLasting(b.snap.table)
  {
    if op.Routing? {
      StepLasts(a.snap, b.snap, op.ev, op.p);
    }
  }

  lemma {:induction false} ThroughLasts(mids: seq<Tabs>, ops: seq<Op>, phase: Phase, now: Time, n: nat)
    requires Through(mids, ops, phase, now) && n < |mids| && AllLasting(mids[0].snap.table)
    ensures AllLasting(mids[n].snap.table)
  {
    if n == 0 {
    } else {
      ThroughLasts(mids, ops, phase, now, n - 1);
      ThroughStep(mids, ops, phase, now, n);
      OpLasts(mids[n - 1], mids[n], ops[n - 1]);
    }
  }

  lemma ReachesLasts(a: Tabs, b: Tabs, phase: Phase, now: Time)
    requires AllLasting(a.snap.table) && Reaches(a, b, phase, now)
    ensures AllLasting(b.snap.table)
  {
    var mids, ops :| Through(mids, ops, phase, now) && mids[0] == a && mids[|ops|] == b;
    ThroughLasts(mids, ops, phase, now, |ops|);
  }

  lemma MoveLasts(s: World, t: World, m: Move)
    requires AllLasting(s.tabs.snap.table) && Next(s, t, m)
    ensures AllLasting(t.tabs.snap.table)
  {
    match m
    case Receive(now, _) => ReachesLasts(s.tabs, t.tabs, Packet, now);
    case Change(now) => ReachesLasts(s.tabs, t.tabs, Configuring, now);
    case Turn(p, _, walked, swept, spoken, asked, repeated) =>
      OpLasts(s.tabs, walked, Routing(TimePassed, p));
      ReachesLasts(swept.tabs, spoken.tabs, Speaking, p.now);
      ReachesLasts(spoken.tabs, asked.tabs, Starved, p.now);
      ReachesLasts(repeated, t.tabs, Repeating, p.now);
    case _ =>
  }

  // ----- the kept deadlines after a pass -----

  predicate Ahead(x: Time, now: Time) {
    x == 0 || x > now
  }

  lemma SweepLooksAhead(x: Snapshot, y: Snapshot, p: Pass)
    requires AllLasting(x.table) && Step(x, y, TimePassed, p)
    ensures Ahead(y.table.at, p.now)
  {
    if y.table.at != 0 {
      var b := x.table.(at := 0);
      var k :| DueAt(y.table.at, y.table, k);
      assert Walked(x.sources, Sweep, b, y.table, k, p);
      SelectionLooksAhead(x.sources, b, y.table, k, b.entries[k], p);
    }
  }

  lemma RepeatLooksAhead(s: Starving, t: Starving, reachable: set<RouteKey>, now: Time)
    requires RepeatStep(s, t, reachable, now)
    ensures Ahead(t.nextRetry, now)
  {
    if t.nextRetry != 0 {
      var i :| i in t.retries && t.nextRetry == t.retries[i].nextAt;
      assert RepeatedAt(s.retries, t.retries, i, reachable, now);
    }
  }

  /** What is told and asked after the sweep brings no deadline nearer than a window. */
  ghost predicate TablesAhead(t: Tabs, now: Time) {
    Ahead(t.snap.table.at, now) && Ahead(t.requests.nextSweep, now)
  }

  lemma OpStaysAhead(a: Tabs, b: Tabs, op: Op, phase: Phase, now: Time)
    requires TablesAhead(a, now) && now > 0 && OpStep(a, b, op) && Allowed(phase, op) && At(op, now)
    requires phase.Speaking? || phase.Starved? || phase.Repeating?
    ensures TablesAhead(b, now) && (phase.Repeating? ==> b.starving == a.starving)
  {
  }

  lemma {:induction false} ThroughStaysAhead(mids: seq<Tabs>, ops: seq<Op>, phase: Phase, now: Time, n: nat)
    requires Through(mids, ops, phase, now) && n < |mids| && TablesAhead(mids[0], now) && now > 0
    requires phase.Speaking? || phase.Starved? || phase.Repeating?
    ensures TablesAhead(mids[n], now) && (phase.Repeating? ==> mids[n].starving == mids[0].starving)
  {
    if n == 0 {
    } else {
      ThroughStaysAhead(mids, ops, phase, now, n - 1);
      ThroughStep(mids, ops, phase, now, n);
      OpStaysAhead(mids[n - 1], mids[n], ops[n - 1], phase, now);
    }
  }

  lemma ReachesStaysAhead(a: Tabs, b: Tabs, phase: Phase, now: Time)
    requires Reaches(a, b, phase, now) && TablesAhead(a, now) && now > 0
    requires phase.Speaking? || phase.Starved? || phase.Repeating?
    ensures TablesAhead(b, now) && (phase.Repeating? ==> b.starving == a.starving)
  {
    var mids, ops :| Through(mids, ops, phase, now) && mids[0] == a && mids[|ops|] == b;
    ThroughStaysAhead(mids, ops, phase, now, |ops|);
  }

  lemma TurnLeavesTablesAhead(s: World, t: World, m: Move)
    requires m.Turn? && Next(s, t, m) && AllLasting(s.tabs.snap.table)
    ensures TablesAhead(t.tabs, m.p.now) && Ahead(t.tabs.starving.nextRetry, m.p.now)
  {
    SweepLooksAhead(s.tabs.snap, m.walked.snap, m.p);
    ReachesStaysAhead(m.swept.tabs, m.spoken.tabs, Speaking, m.p.now);
    ReachesStaysAhead(m.spoken.tabs, m.asked.tabs, Starved, m.p.now);
    RepeatLooksAhead(m.asked.tabs.starving, m.repeated.starving, Reachable(m.asked.tabs.snap), m.p.now);
    ReachesStaysAhead(m.repeated, t.tabs, Repeating, m.p.now);
  }

  ghost predicate SomeLongOverdue(links: map<Peer, Link>, now: Time) {
    exists q :: q in links && LongOverdue(links[q], now)
  }

  lemma LinkBringsItBack(s: World, t: World, m: Move, q: Peer)
    requires m.Turn? && Next(s, t, m) && q in s.clock.links && LongOverdue(s.clock.links[q], m.p.now)
    ensures t.sleepUntil <= m.p.now
  {
    SweptLinkIsAhead(s.clock.links[q], m.p.now);
    var x :| LinkTerm(SweptLink(s.clock.links[q], m.p.now), x) && 0 != x <= m.p.now;
    var timers := TimersOf(t.clock, t.tabs);
    assert q in timers.links && LinkTerm(timers.links[q], x);
    assert Term(timers, x);
  }

  /** The sleep a pass settles on is over already exactly when some Hello is overdue by
      a whole history on a link that is still held to be alive. */
  lemma PassLooksAhead(s: World, t: World, m: Move)
    requires m.Turn? && Next(s, t, m) && AllLasting(s.tabs.snap.table)
    requires s.config.hello > 0 && s.config.update > 0
    ensures t.sleepUntil != 0
    ensures t.sleepUntil <= m.p.now <==> SomeLongOverdue(s.clock.links, m.p.now)
  {
    TurnLeavesTablesAhead(s, t, m);
    var timers, x := TimersOf(t.clock, t.tabs), t.sleepUntil;
    assert Term(timers, timers.nextHello);
    if x <= m.p.now {
      assert !OwnTerm(timers, x);
      var q :| q in timers.links && LinkTerm(timers.links[q], x);
      SweptLinkIsAhead(s.clock.links[q], m.p.now);
      assert LongOverdue(s.clock.links[q], m.p.now);
    }
    if SomeLongOverdue(s.clock.links, m.p.now) {
      var q :| q in s.clock.links && LongOverdue(s.clock.links[q], m.p.now);
      LinkBringsItBack(s, t, m, q);
    }
  }

  lemma {:induction false} EveryRunLasts(trace: seq<World>, moves: seq<Move>, n: nat)
    requires Run(trace, moves) && n < |trace|
    ensures AllLasting(trace[n].tabs.snap.table) && trace[n].config == trace[0].config
  {
    if n == 0 {
    } else {
      EveryRunLasts(trace, moves, n - 1);
      MoveLasts(trace[n - 1], trace[n], moves[n - 1]);
    }
  }

  /** In every run, a pass leaves the loop with a timer already due exactly then. */
  lemma SpinsExactlyWhen(trace: seq<World>, moves: seq<Move>, n: nat)
    requires Run(trace, moves) && n < |moves| && moves[n].Turn?
    requires trace[0].config.hello > 0 && trace[0].config.update > 0
    ensures trace[n + 1].sleepUntil <= moves[n].p.now <==> SomeLongOverdue(trace[n].clock.links, moves[n].p.now)
  {
    EveryRunLasts(trace, moves, n);
    PassLooksAhead(trace[n], trace[n + 1], moves[n]);
  }

  // ----- a run in which it does -----

  const IDLE := Work(false, Owed({}, []))

  lemma EmptySweeps(p: Pass, trigger: U16)
    requires p.now > 0
    ensures Sweeps(Stage(EMPTY, IDLE), EMPTY, Stage(EMPTY, IDLE), trigger, p)
  {
    var x := EMPTY.snap;
    assert BabelSources.Swept(x.sources, p.now) == x.sources;
    forall k: RouteKey ensures Walked(x.sources, Sweep, x.table, x.table, k, p) {
    }
    assert WalkNeeds(x.sources, Sweep, x.table, x.table, {}, p) == {};
    assert multiset(IDLE.owed.starved[0..]) == multiset{};
    forall q: Peer ensures HeldBy(Askers(map[]), q) == {} {
    }
    assert StillPending(map[], p.now) == map[] && StillAsked(map[], p.now) == map[];
  }

  lemma EmptyRepeats(now: Time)
    requires now > 0
    ensures Repeats(Stage(EMPTY, IDLE), EMPTY, Stage(EMPTY, IDLE), now)
  {
    forall q: Peer ensures HeldBy(Starvers(map[]), q) == {} {
    }
    ReachesSelf(EMPTY, Repeating, now);
  }

  /** A neighbor last heard of at time 1, when it promised a Hello every two seconds to
      all and one every ten minutes to this node alone. */
  const BUSY := Link(true, 2, 2101, 4, false, 0, false, 0)

  lemma SixteenCounted()
    ensures Overdue(4, 2, 100, HISTORY_DEPTH) == 36
  {
    assert Overdue(4, 2, 100, 16) == Overdue(12, 2, 100, 12) == Overdue(20, 2, 100, 8) == Overdue(28, 2, 100, 4);
  }

  lemma BusyIsDue(c: Clock)
    requires c == Clock(104, 116, 0, map["peer" := SweptLink(BUSY, 100)])
    ensures IsEarliest(TimersOf(c, EMPTY), 36)
  {
    SixteenCounted();
    var timers := TimersOf(c, EMPTY);
    assert "peer" in timers.links && LinkTerm(timers.links["peer"], 36);
  }

  /** With nothing in the tables a pass leaves nothing in them. */
  lemma IdleTurn(s: World, t: World, p: Pass)
    requires p.now > 0 && !s.asleep && s.tabs == EMPTY && s.work == IDLE
    requires t == s.(asleep := true, clock := ClockAfter(s.clock, s.config, p.now, 0), sleepUntil := t.sleepUntil)
    requires IsEarliest(TimersOf(t.clock, EMPTY), t.sleepUntil)
    ensures Next(s, t, Turn(p, 0, EMPTY, Stage(EMPTY, IDLE), Stage(EMPTY, IDLE), Stage(EMPTY, IDLE), EMPTY))
  {
    ReachesSelf(EMPTY, Speaking, p.now);
    ReachesSelf(EMPTY, Starved, p.now);
    EmptySweeps(p, s.config.trigger);
    EmptyRepeats(p.now);
  }

  lemma HeardIsDue(c: Clock)
    requires c == Clock(1, 1, 0, map["peer" := BUSY])
    ensures IsEarliest(TimersOf(c, EMPTY), 1)
  {
    assert Term(TimersOf(c, EMPTY), 1);
  }

  /** The neighbor joins and is heard. A pass as late as time 100 counts sixteen of the
      Hellos due since, finds the next one due at 36, and the loop does not sleep. */
  lemma LatePassSpins(p: Pass, trigger: U16)
    requires p.now == 100
    ensures exists trace: seq<World>, moves: seq<Move> ::
      && Run(trace, moves) && |moves| == 3 && moves[2].Turn? && moves[2].p == p && trace[3].sleepUntil == 36
      && SomeLongOverdue(trace[2].clock.links, 100)
  {
    var s := World(Config(4, 16, trigger), false, false, Clock(1, 1, 0, map[]), 0, EMPTY, IDLE);
    var joined := s.(token := true, clock := s.clock.(links := map["peer" := FRESH_LINK]));
    var heard := joined.(clock := s.clock.(links := map["peer" := BUSY]));
    var after := ClockAfter(heard.clock, s.config, 100, 0);
    var late := heard.(asleep := true, clock := after, sleepUntil := 36);
    ReachesSelf(EMPTY, Configuring, 1);
    ReachesSelf(EMPTY, Packet, 1);
    HeardIsDue(heard.clock);
    assert SweptLinks(heard.clock.links, 100) == map["peer" := SweptLink(BUSY, 100)];
    BusyIsDue(after);
    IdleTurn(heard, late, p);
    var stage := Stage(EMPTY, IDLE);
    var trace := [s, joined, heard, late];
    var moves := [Change(1), Receive(1, 1), Turn(p, 0, EMPTY, stage, stage, stage, EMPTY)];
    assert Run(trace, moves);
    assert LongOverdue(heard.clock.links["peer"], 100);
  }
}
