/** What the steps of the route table mean for a route and for its prefix: when an
    advertised route is there, until when, and over what link it is used. */
module BabelMeaning {
  import opened BabelOrder
  import opened BabelSources
  import opened BabelSelection
  import opened BabelTable
  import opened Deadlines
  import opened Wrappers

  ghost predicate Has(t: Tables, k: RouteKey, n: Peer) {
    k in t.entries && n in t.entries[k].routes
  }

  function RouteAt(t: Tables, k: RouteKey, n: Peer): Route
    requires k in t.entries && n in t.entries[k].routes
  {
    t.entries[k].routes[n]
  }

  /** The route says this, lasts so long and is due then, however it is smoothed. */
  predicate Says(r: Route, adv: Advertisement, hold: Time, expiresAt: Time) {
    r.Advertised() == adv && r.hold == hold && r.expiresAt == expiresAt
  }

  // ----- the life of one route -----

  /** What a pass does to a route: nothing until it is due, then it is held at infinity
      for as long as it was to last, and then it is gone. */
  lemma PassAges(r: Route, link: U16, p: Pass)
    ensures p.now < r.expiresAt ==>
      Stepped(r, link, p).Some? && Says(Stepped(r, link, p).value, r.Advertised(), r.hold, r.expiresAt)
    ensures r.expiresAt <= p.now && r.rx != INFINITY ==>
      && Stepped(r, link, p).Some?
      && Says(Stepped(r, link, p).value, r.Advertised().(metric := INFINITY), r.hold, p.now + r.hold)
    ensures r.expiresAt <= p.now && r.rx == INFINITY ==> Stepped(r, link, p).None?
  {
  }

  /** A selection leaves exactly the routes that outlive the pass, aged by it. */
  lemma SelectionAges(s: Sources, b: Tables, a: Tables, k: RouteKey, e: Entry, n: Peer, p: Pass)
    requires KeySelected(s, b, a, k, e, p)
    ensures Has(a, k, n) <==> n in e.routes && Stepped(e.routes[n], p.links(n), p).Some?
    ensures Has(a, k, n) ==> Some(RouteAt(a, k, n)) == Stepped(e.routes[n], p.links(n), p)
  {
    var next :| SelectStep(s, k, e, next, p) && Became(b, a, k, e.selected, next);
    assert next.routes == AfterPass(e.routes, p);
    if n in next.routes {
      assert next.routes != map[] && a.EntryAt(k) == Some(next);
    }
  }

  /** In a sweep every route goes through that life, in every prefix. */
  lemma SweepAges(x: Snapshot, y: Snapshot, k: RouteKey, n: Peer, p: Pass)
    requires Step(x, y, TimePassed, p)
    ensures Has(y.table, k, n) ==> Has(x.table, k, n)
    ensures Has(x.table, k, n) ==>
      var r := RouteAt(x.table, k, n);
      && (Has(y.table, k, n) <==> p.now < r.expiresAt || r.rx != INFINITY)
      && (p.now < r.expiresAt ==> Says(RouteAt(y.table, k, n), r.Advertised(), r.hold, r.expiresAt))
      && (r.expiresAt <= p.now && r.rx != INFINITY ==>
            Says(RouteAt(y.table, k, n), r.Advertised().(metric := INFINITY), r.hold, p.now + r.hold))
  {
    var b := x.table.(at := 0);
    assert Walked(x.sources, Sweep, b, y.table, k, p);
    if k in b.entries {
      SelectionAges(x.sources, b, y.table, k, b.entries[k], n, p);
      if n in b.entries[k].routes {
        PassAges(b.entries[k].routes[n], p.links(n), p);
      }
    }
  }

  // ----- acquisition -----

  /** An Update that is taken and finite is what the table then has of that neighbor,
      until the hold it came with is over. A renewal starts the hold again. */
  lemma FiniteUpdateIsKept(s: Sources, b: Tables, a: Tables, n: Peer, key: RouteKey, adv: Advertisement, hold: Time,
                           p: Pass)
    requires UpdateStep(s, b, a, n, key, adv, hold, p) && Admits(s, b.entries, n, key, adv, hold)
    requires adv.metric != INFINITY && hold > 0
    ensures Has(a, key, n) && Says(RouteAt(a, key, n), adv, hold, p.now + hold)
  {
    var e := Acquired(b.entries, n, key, adv, hold, p.now);
    SelectionAges(s, b, a, key, e, n, p);
    PassAges(e.routes[n], p.links(n), p);
  }

  /** If it is feasible and the link carries it, the prefix has a selected route. */
  lemma FeasibleUpdateIsSelected(s: Sources, b: Tables, a: Tables, n: Peer, key: RouteKey, adv: Advertisement,
                                 hold: Time, p: Pass)
    requires UpdateStep(s, b, a, n, key, adv, hold, p) && Admits(s, b.entries, n, key, adv, hold) && hold > 0
    requires FeasibleIn(s, key, adv, n) && p.links(n) != INFINITY
    requires AtLeastOne(p.links(n)) + adv.metric < INFINITY
    ensures key in a.entries && a.entries[key].selected.Via?
  {
    FiniteUpdateIsKept(s, b, a, n, key, adv, hold, p);
    var e := Acquired(b.entries, n, key, adv, hold, p.now);
    var next :| SelectStep(s, key, e, next, p) && Became(b, a, key, e.selected, next);
    CostFollowsBoth(next.routes[n], next.routes[n], p.links(n), p.links(n));
    assert Usable(s, key, next.routes, n, p);
    ChoiceIsRight(s, key, next.routes, e.selected, p, next.selected);
  }

  /** And the prefix is forwarded to whoever was selected. */
  lemma FeasibleUpdateIsForwarded(x: Snapshot, y: Snapshot, n: Peer, key: RouteKey, adv: Advertisement, hold: Time,
                                  p: Pass)
    requires SnapshotOk(x) && Step(x, y, Learned(n, key, adv, hold), p)
    requires Admits(x.sources, x.table.entries, n, key, adv, hold) && hold > 0
    requires FeasibleIn(x.sources, key, adv, n) && p.links(n) != INFINITY
    requires AtLeastOne(p.links(n)) + adv.metric < INFINITY
    ensures key in y.table.entries && y.table.entries[key].selected.Via?
    ensures y.table.HopAt(key) == Some(To(y.table.entries[key].selected.peer))
  {
    FeasibleUpdateIsSelected(x.sources, x.table, y.table, n, key, adv, hold, p);
    StepKeepsTable(x, y, Learned(n, key, adv, hold), p);
    assert KeyOk(y.sources, y.table, key, y.retracted);
  }

  /** The first retraction of a route starts the hold of section 3.5.4, for as long as
      the Update it replaces was to last. */
  lemma RetractionStartsTheHold(s: Sources, b: Tables, a: Tables, n: Peer, key: RouteKey, adv: Advertisement,
                                hold: Time, p: Pass)
    requires UpdateStep(s, b, a, n, key, adv, hold, p) && adv.metric == INFINITY
    requires Has(b, key, n) && RouteAt(b, key, n).rx != INFINITY && RouteAt(b, key, n).hold > 0
    ensures Has(a, key, n)
    ensures Says(RouteAt(a, key, n), adv, RouteAt(b, key, n).hold, p.now + RouteAt(b, key, n).hold)
  {
    var e := Acquired(b.entries, n, key, adv, hold, p.now);
    SelectionAges(s, b, a, key, e, n, p);
    PassAges(e.routes[n], p.links(n), p);
  }

  /** Repeated, it moves nothing: the hold runs out when it was going to. */
  lemma RepeatedRetractionMovesNothing(s: Sources, b: Tables, a: Tables, n: Peer, key: RouteKey, adv: Advertisement,
                                       hold: Time, p: Pass)
    requires UpdateStep(s, b, a, n, key, adv, hold, p) && adv.metric == INFINITY
    requires Has(b, key, n) && RouteAt(b, key, n).rx == INFINITY
    ensures var r := RouteAt(b, key, n);
      && (Has(a, key, n) <==> p.now < r.expiresAt)
      && (Has(a, key, n) ==> Says(RouteAt(a, key, n), adv, r.hold, r.expiresAt))
  {
    var e := Acquired(b.entries, n, key, adv, hold, p.now);
    SelectionAges(s, b, a, key, e, n, p);
    PassAges(e.routes[n], p.links(n), p);
  }

  /** One neighbor's Update changes no other's route but by its age. */
  lemma UpdateSparesOthers(s: Sources, b: Tables, a: Tables, n: Peer, key: RouteKey, adv: Advertisement, hold: Time,
                           p: Pass, m: Peer)
    requires UpdateStep(s, b, a, n, key, adv, hold, p) && m != n
    ensures Has(a, key, m) ==> Has(b, key, m)
    ensures Has(b, key, m) && p.now < RouteAt(b, key, m).expiresAt ==>
      var r := RouteAt(b, key, m);
      Has(a, key, m) && Says(RouteAt(a, key, m), r.Advertised(), r.hold, r.expiresAt)
  {
    if Admits(s, b.entries, n, key, adv, hold) {
      var e := Acquired(b.entries, n, key, adv, hold, p.now);
      SelectionAges(s, b, a, key, e, m, p);
      if m in e.routes {
        PassAges(e.routes[m], p.links(m), p);
      }
    }
  }

  /** A wildcard retraction starts the same hold for every route of the neighbor. */
  lemma WildcardStartsTheHold(x: Snapshot, y: Snapshot, k: RouteKey, n: Peer, p: Pass)
    requires Step(x, y, PeerRetracted(n), p) && n !in x.retracted
    requires Has(x.table, k, n) && RouteAt(x.table, k, n).rx != INFINITY && RouteAt(x.table, k, n).hold > 0
    ensures Has(y.table, k, n)
    ensures var r := RouteAt(x.table, k, n);
      Says(RouteAt(y.table, k, n), r.Advertised().(metric := INFINITY), r.hold, p.now + r.hold)
  {
    assert Walked(x.sources, Retract(n), x.table, y.table, k, p);
    var e := Edited(Retract(n), x.table.entries[k], p.now);
    SelectionAges(x.sources, x.table, y.table, k, e, n, p);
    PassAges(e.routes[n], p.links(n), p);
  }

  /** A neighbor that is gone leaves no route behind, and takes no other's. */
  lemma GoneLeavesNothing(x: Snapshot, y: Snapshot, k: RouteKey, n: Peer, m: Peer, p: Pass)
    requires Step(x, y, PeerGone(n), p)
    ensures !Has(y.table, k, n)
    ensures m != n && Has(x.table, k, m) && p.now < RouteAt(x.table, k, m).expiresAt ==> Has(y.table, k, m)
  {
    assert Walked(x.sources, Expire(n), x.table, y.table, k, p);
    if k in x.table.entries && Touches(Expire(n), x.table.entries[k]) {
      var e := Edited(Expire(n), x.table.entries[k], p.now);
      SelectionAges(x.sources, x.table, y.table, k, e, n, p);
      SelectionAges(x.sources, x.table, y.table, k, e, m, p);
      if m in e.routes {
        PassAges(e.routes[m], p.links(m), p);
      }
    }
  }

  // ----- the link -----

  /** The steps that select again for a prefix. */
  ghost predicate Reselects(x: Snapshot, ev: Event, k: RouteKey) {
    match ev
    case Learned(n, key, adv, hold) => key == k && Admits(x.sources, x.table.entries, n, key, adv, hold)
    case LinkChanged(n) => Has(x.table, k, n)
    case PeerGone(n) => Has(x.table, k, n)
    case PeerRetracted(n) => n !in x.retracted && Has(x.table, k, n)
    case TimePassed => k in x.table.entries
    case _ => false
  }

  /** Which entry such a step starts from. */
  ghost function StartsFrom(x: Snapshot, ev: Event, k: RouteKey, now: Time): Entry
    requires Reselects(x, ev, k)
  {
    match ev
    case Learned(n, key, adv, hold) => Acquired(x.table.entries, n, key, adv, hold, now)
    case LinkChanged(n) => x.table.entries[k]
    case PeerGone(n) => Edited(Expire(n), x.table.entries[k], now)
    case PeerRetracted(n) => Edited(Retract(n), x.table.entries[k], now)
    case TimePassed => x.table.entries[k]
  }

  lemma ReselectingSelects(x: Snapshot, y: Snapshot, ev: Event, k: RouteKey, p: Pass)
    requires Step(x, y, ev, p) && Reselects(x, ev, k)
    ensures var b := if ev.TimePassed? then x.table.(at := 0) else x.table;
      KeySelected(x.sources, b, y.table, k, StartsFrom(x, ev, k, p.now), p)
  {
    match ev
    case Learned(n, key, adv, hold) =>
    case LinkChanged(n) => assert Walked(x.sources, Recompute(n), x.table, y.table, k, p);
    case PeerGone(n) => assert Walked(x.sources, Expire(n), x.table, y.table, k, p);
    case PeerRetracted(n) => assert Walked(x.sources, Retract(n), x.table, y.table, k, p);
    case TimePassed => assert Walked(x.sources, Sweep, x.table.(at := 0), y.table, k, p);
  }

  /** Whatever step selects again for a prefix, the neighbor selected is one whose link
      is up in that pass, at a cost that is the link's and the metric it gave. */
  lemma SelectedOverALink(x: Snapshot, y: Snapshot, ev: Event, k: RouteKey, p: Pass)
    requires Step(x, y, ev, p) && Reselects(x, ev, k)
    requires k in y.table.entries && y.table.entries[k].selected.Via?
    ensures var sel := y.table.entries[k].selected;
      && p.links(sel.peer) != INFINITY && p.links(sel.peer) <= sel.cost < INFINITY && Has(y.table, k, sel.peer)
      && sel.cost == AtLeastOne(p.links(sel.peer)) + RouteAt(y.table, k, sel.peer).rx
      && p.now < RouteAt(y.table, k, sel.peer).expiresAt
  {
    ReselectingSelects(x, y, ev, k, p);
    var e := StartsFrom(x, ev, k, p.now);
    var b := if ev.TimePassed? then x.table.(at := 0) else x.table;
    var next :| SelectStep(x.sources, k, e, next, p) && Became(b, y.table, k, e.selected, next);
    ChoiceIsRight(x.sources, k, next.routes, e.selected, p, next.selected);
    var n := next.selected.peer;
    CostFollowsBoth(next.routes[n], next.routes[n], p.links(n), p.links(n));
    PassAges(e.routes[n], p.links(n), p);
  }

  /** Between usable routes of one metric a challenger is taken for the cheaper link, and
      an incumbent is left only for one. */
  lemma CheaperLinkIsTaken(s: Sources, k: RouteKey, e: Entry, next: Entry, p: Pass, m: Peer)
    requires SelectStep(s, k, e, next, p) && next.selected.Via? && Usable(s, k, next.routes, m, p)
    requires !(e.selected.Via? && e.selected.peer == next.selected.peer)
    requires m != next.selected.peer && next.routes[m].rx == next.routes[next.selected.peer].rx
    ensures AtLeastOne(p.links(next.selected.peer)) <= AtLeastOne(p.links(m))
    ensures e.selected.Via? && e.selected.peer == m ==>
      AtLeastOne(p.links(next.selected.peer)) < AtLeastOne(p.links(m))
  {
    ChoiceIsRight(s, k, next.routes, e.selected, p, next.selected);
    var n := next.selected.peer;
    CostFollowsBoth(next.routes[n], next.routes[n], p.links(n), p.links(n));
    CostFollowsBoth(next.routes[m], next.routes[m], p.links(m), p.links(m));
  }

  /** A neighbor whose link is gone is not selected, whoever was before. */
  lemma DeadLinkIsLeft(x: Snapshot, y: Snapshot, ev: Event, k: RouteKey, n: Peer, p: Pass)
    requires Step(x, y, ev, p) && Reselects(x, ev, k) && p.links(n) == INFINITY
    ensures k in y.table.entries && y.table.entries[k].selected.Via? ==> y.table.entries[k].selected.peer != n
  {
    if k in y.table.entries && y.table.entries[k].selected.Via? {
      SelectedOverALink(x, y, ev, k, p);
    }
  }

  // ----- the number a prefix is retracted under -----

  /** While a route is selected, a retraction would carry its router-id and number. */
  ghost predicate RetractsAsSelected(e: Entry) {
    e.selected.Via? ==> e.retractId == e.selected.id && e.retractSeqno == e.selected.seqno
  }

  ghost predicate AllRetractAsSelected(t: Tables) {
    forall k | k in t.entries :: RetractsAsSelected(t.entries[k])
  }

  lemma SelectingRetracts(s: Sources, b: Tables, a: Tables, k: RouteKey, e: Entry, p: Pass)
    requires KeySelected(s, b, a, k, e, p) && k in a.entries
    ensures RetractsAsSelected(a.entries[k])
    ensures a.entries[k].selected.NoRoute? ==>
      a.entries[k].retractId == e.retractId && a.entries[k].retractSeqno == e.retractSeqno
  {
    var next :| SelectStep(s, k, e, next, p) && Became(b, a, k, e.selected, next);
  }

  lemma KeyRetracts(x: Snapshot, y: Snapshot, ev: Event, k: RouteKey, p: Pass)
    requires Step(x, y, ev, p) && !Reselects(x, ev, k) && k in y.table.entries
    ensures k in x.table.entries && y.table.entries[k] == x.table.entries[k]
  {
    StepKeys(x, y, ev, p);
    match ev
    case Learned(n, key, adv, hold) => assert k != key ==> KeySame(x.table, y.table, k);
    case LinkChanged(n) => assert Walked(x.sources, Recompute(n), x.table, y.table, k, p);
    case PeerGone(n) => assert Walked(x.sources, Expire(n), x.table, y.table, k, p);
    case PeerRetracted(n) =>
      if n !in x.retracted {
        assert Walked(x.sources, Retract(n), x.table, y.table, k, p);
      }
    case _ =>
  }

  /** Every step keeps it, and a prefix that loses its route is retracted under the
      router-id and the number it was last selected with. */
  lemma StepRetractsAsSelected(x: Snapshot, y: Snapshot, ev: Event, p: Pass)
    requires Step(x, y, ev, p) && AllRetractAsSelected(x.table)
    ensures AllRetractAsSelected(y.table)
    ensures forall k | k in x.table.entries && k in y.table.entries
        && x.table.entries[k].selected.Via? && y.table.entries[k].selected.NoRoute? ::
      && y.table.entries[k].retractId == x.table.entries[k].selected.id
      && y.table.entries[k].retractSeqno == x.table.entries[k].selected.seqno
  {
    forall k | k in y.table.entries
      ensures RetractsAsSelected(y.table.entries[k])
      ensures k in x.table.entries && x.table.entries[k].selected.Via? && y.table.entries[k].selected.NoRoute? ==>
        && y.table.entries[k].retractId == x.table.entries[k].selected.id
        && y.table.entries[k].retractSeqno == x.table.entries[k].selected.seqno
    {
      if Reselects(x, ev, k) {
        ReselectingSelects(x, y, ev, k, p);
        var b := if ev.TimePassed? then x.table.(at := 0) else x.table;
        SelectingRetracts(x.sources, b, y.table, k, StartsFrom(x, ev, k, p.now), p);
      } else {
        KeyRetracts(x, y, ev, k, p);
      }
    }
  }

  // ----- how much is kept -----

  lemma SmallerSet<T>(a: set<T>, b: set<T>)
    requires a <= b
    ensures |a| <= |b|
  {
    assert b == a + (b - a);
  }

  lemma StepKeepsRoom(x: Snapshot, y: Snapshot, ev: Event, p: Pass)
    requires Step(x, y, ev, p) && |x.table.entries| <= MAX_ROUTE_KEYS
    ensures |y.table.entries| <= MAX_ROUTE_KEYS
  {
    var was, now := x.table.entries.Keys, y.table.entries.Keys;
    StepKeys(x, y, ev, p);
    if now <= was {
      SmallerSet(now, was);
    } else {
      assert ev.Learned? && Admits(x.sources, x.table.entries, ev.peer, ev.key, ev.adv, ev.hold);
      SmallerSet(now, was + {ev.key});
    }
  }

  /** Whatever neighbors send, the table never holds more prefixes than its cap. */
  lemma {:induction false} EveryRunKeepsRoom(run: seq<Snapshot>, evs: seq<Event>, ps: seq<Pass>)
    requires |run| == |evs| + 1 == |ps| + 1
    requires run[0] == Snapshot(map[], Tables(map[], map[], 0), {})
    requires forall i | 0 <= i < |evs| :: Step(run[i], run[i + 1], evs[i], ps[i])
    ensures |run[|evs|].table.entries| <= MAX_ROUTE_KEYS
  {
    var n := |evs|;
    if n == 0 {
    } else {
      EveryRunKeepsRoom(run[..n], evs[..n - 1], ps[..n - 1]);
      StepKeepsRoom(run[n - 1], run[n], evs[n - 1], ps[n - 1]);
    }
  }
}
