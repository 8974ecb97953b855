/** How far the source table grows: however many origins neighbors name for a prefix, a
    node records no more than the cap, besides itself; and the whole table outgrows its
    own cap by no more than the routes that were selected before it was reached. */
module BabelOrigins {
  import opened BabelOrder
  import opened BabelSources
  import opened BabelSelection
  import opened BabelTable
  import opened BabelMeaning
  import opened BabelNetwork
  import opened Deadlines
  import opened Wrappers

  /** The origins recorded for a prefix, other than the node itself. */
  ghost function Foreign(s: Sources, k: RouteKey, own: RouterId): set<SourceKey> {
    OriginsOf(s, k) - {SourceKey(k, own)}
  }

  /** One more is to come: the route selected, once it is advertised. */
  predicate ToCome(s: Sources, t: Tables, k: RouteKey, own: RouterId) {
    && k in t.entries && t.entries[k].selected.Via?
    && t.entries[k].selected.id != own && SourceKey(k, t.entries[k].selected.id) !in s
  }

  ghost predicate WithinCap(s: Sources, t: Tables, k: RouteKey, own: RouterId) {
    |Foreign(s, k, own)| + (if ToCome(s, t, k, own) then 1 else 0) <= MAX_ORIGINS_PER_PREFIX
  }

  /** A route is only selected with room to record its origin. */
  lemma SelectingStaysWithin(s: Sources, b: Tables, a: Tables, k: RouteKey, e: Entry, p: Pass, own: RouterId)
    requires KeySelected(s, b, a, k, e, p) && |Foreign(s, k, own)| <= MAX_ORIGINS_PER_PREFIX
    ensures WithinCap(s, a, k, own)
  {
    var next :| SelectStep(s, k, e, next, p) && Became(b, a, k, e.selected, next);
    if k in a.entries {
      assert a.EntryAt(k) == Some(next);
      ChoiceIsRight(s, k, next.routes, e.selected, p, next.selected);
      SmallerSet(Foreign(s, k, own), OriginsOf(s, k));
    }
  }

  lemma WalkingStaysWithin(s: Sources, edit: Edit, b: Tables, a: Tables, k: RouteKey, p: Pass, own: RouterId)
    requires Walked(s, edit, b, a, k, p) && WithinCap(s, b, k, own)
    ensures WithinCap(s, a, k, own)
  {
    if k in b.entries && Touches(edit, b.entries[k]) {
      SelectingStaysWithin(s, b, a, k, Edited(edit, b.entries[k], p.now), p, own);
    } else {
      assert a.EntryAt(k) == b.EntryAt(k);
    }
  }

  lemma UpdateStaysWithin(s: Sources, b: Tables, a: Tables, n: Peer, key: RouteKey, adv: Advertisement, hold: Time,
                          k: RouteKey, p: Pass, own: RouterId)
    requires UpdateStep(s, b, a, n, key, adv, hold, p) && WithinCap(s, b, k, own)
    ensures WithinCap(s, a, k, own)
  {
    if k != key {
      assert KeySame(b, a, k);
      assert a.EntryAt(k) == b.EntryAt(k);
    } else if Admits(s, b.entries, n, key, adv, hold) {
      SelectingStaysWithin(s, b, a, k, Acquired(b.entries, n, key, adv, hold, p.now), p, own);
    }
  }

  /** What is collected may be to come again, and then left a place. */
  lemma CollectingStaysWithin(s: Sources, t: Tables, k: RouteKey, now: Time, own: RouterId)
    requires WithinCap(s, t, k, own)
    ensures WithinCap(Swept(s, now), t, k, own)
  {
    var rest := Swept(s, now);
    if ToCome(rest, t, k, own) && !ToCome(s, t, k, own) {
      var i := SourceKey(k, t.entries[k].selected.id);
      assert i in Foreign(s, k, own) && i !in Foreign(rest, k, own);
      SmallerSet(Foreign(rest, k, own), Foreign(s, k, own) - {i});
    } else {
      SmallerSet(Foreign(rest, k, own), Foreign(s, k, own));
    }
  }

  /** A node says its own word or that of its selected route. */
  predicate Sayable(t: Tables, key: RouteKey, adv: Advertisement, own: RouterId) {
    || adv.metric == INFINITY
    || adv.id == own
    || (key in t.entries && t.entries[key].selected.Via? && adv.id == t.entries[key].selected.id)
  }

  lemma ObservedForeign(s: Sources, key: RouteKey, adv: Advertisement, from: Peer, now: Time, k: RouteKey,
                        own: RouterId)
    ensures Foreign(Observed(s, key, adv, from, now), k, own)
         == Foreign(s, k, own)
            + if adv.metric != INFINITY && key == k && adv.id != own then {SourceKey(k, adv.id)} else {}
  {}

  lemma SayingStaysWithin(s: Sources, t: Tables, key: RouteKey, adv: Advertisement, from: Peer, now: Time, k: RouteKey,
                          own: RouterId)
    requires WithinCap(s, t, k, own) && Sayable(t, key, adv, own)
    ensures WithinCap(Observed(s, key, adv, from, now), t, k, own)
  {
    ObservedForeign(s, key, adv, from, now, k, own);
  }

  lemma StepStaysWithin(x: Snapshot, y: Snapshot, ev: Event, p: Pass, k: RouteKey, own: RouterId)
    requires Step(x, y, ev, p) && WithinCap(x.sources, x.table, k, own)
    requires ev.Said? ==> Sayable(x.table, ev.key, ev.adv, own)
    ensures WithinCap(y.sources, y.table, k, own)
  {
    match ev
    case Learned(n, key, adv, hold) =>
      UpdateStaysWithin(x.sources, x.table, y.table, n, key, adv, hold, k, p, own);
    case LinkChanged(n) => WalkingStaysWithin(x.sources, Recompute(n), x.table, y.table, k, p, own);
    case PeerGone(n) => WalkingStaysWithin(x.sources, Expire(n), x.table, y.table, k, p, own);
    case PeerRetracted(n) =>
      if n !in x.retracted {
        WalkingStaysWithin(x.sources, Retract(n), x.table, y.table, k, p, own);
      }
    case TimePassed =>
      WalkingStaysWithin(x.sources, Sweep, x.table.(at := 0), y.table, k, p, own);
      CollectingStaysWithin(x.sources, y.table, k, p.now, own);
    case Said(key, adv, from) => SayingStaysWithin(x.sources, x.table, key, adv, from, p.now, k, own);
    case Originated(_) =>
    case Unoriginated(_) =>
  }

  ghost predicate NodeWithin(x: Node, k: RouteKey) {
    WithinCap(x.snap.sources, x.snap.table, k, x.id)
  }

  ghost predicate NetWithin(net: Net, k: RouteKey) {
    forall x | x in net.nodes :: NodeWithin(net.nodes[x], k)
  }

  lemma NodeStaysWithin(a: Net, b: Net, mv: Move, p: Pass, x: Peer, k: RouteKey)
    requires NetStep(a, b, mv, p) && x in a.nodes && x in b.nodes && NodeWithin(a.nodes[x], k)
    ensures NodeWithin(b.nodes[x], k)
  {
    var m, n := a.nodes[x], b.nodes[x];
    if n != m {
      match mv
      case Deliver(d) =>
        StepStaysWithin(m.snap, n.snap, Learned(d.from, d.key, d.adv, d.hold), p, k, m.id);
      case Advertise(_, to, key, _) =>
        StepStaysWithin(m.snap, n.snap, Said(key, AdvertisementFor(m, to, key), SelectedPeer(m, key)), p, k, m.id);
      case Local(_, ev) => StepStaysWithin(m.snap, n.snap, ev, p, k, m.id);
      case Drop(_) =>
      case RaiseSeqno(_) =>
    }
  }

  lemma {:induction false} HistoryStaysWithin(run: seq<Net>, mvs: seq<Move>, ps: seq<Pass>, i: nat, k: RouteKey)
    requires History(run, mvs, ps) && i < |run|
    ensures NetWithin(run[i], k)
  {
    if i == 0 {
      forall x | x in run[0].nodes ensures NodeWithin(run[0].nodes[x], k) {
        assert OriginsOf(run[0].nodes[x].snap.sources, k) == {};
      }
    } else {
      HistoryStaysWithin(run, mvs, ps, i - 1, k);
      assert NetStep(run[i - 1], run[i], mvs[i - 1], ps[i - 1]);
      forall x | x in run[i].nodes ensures NodeWithin(run[i].nodes[x], k) {
        TransitStays(run[i - 1], run[i], mvs[i - 1], ps[i - 1], x);
        NodeStaysWithin(run[i - 1], run[i], mvs[i - 1], ps[i - 1], x, k);
      }
    }
  }

  /** In every run, whatever its neighbors name as origins of a prefix, no node records
      more of them than the cap, and one more for itself. */
  lemma OriginsAreCapped(run: seq<Net>, mvs: seq<Move>, ps: seq<Pass>, i: nat, x: Peer, k: RouteKey)
    requires History(run, mvs, ps) && i < |run| && x in run[i].nodes
    ensures var n := run[i].nodes[x];
      && |OriginsOf(n.snap.sources, k)| <= MAX_ORIGINS_PER_PREFIX + 1
      && (SourceKey(k, n.id) !in n.snap.sources ==> |OriginsOf(n.snap.sources, k)| <= MAX_ORIGINS_PER_PREFIX)
  {
    HistoryStaysWithin(run, mvs, ps, i, k);
    var n := run[i].nodes[x];
    assert NodeWithin(n, k);
    SmallerSet(OriginsOf(n.snap.sources, k), Foreign(n.snap.sources, k, n.id) + {SourceKey(k, n.id)});
    if SourceKey(k, n.id) !in n.snap.sources {
      assert Foreign(n.snap.sources, k, n.id) == OriginsOf(n.snap.sources, k);
    }
  }

  // ----- the whole table -----

  ghost function AllForeign(s: Sources, own: RouterId): set<SourceKey> {
    set i | i in s && i.id != own
  }

  ghost function AllToCome(s: Sources, t: Tables, own: RouterId): set<RouteKey> {
    set k | k in t.entries && ToCome(s, t, k, own)
  }

  const MOST_SOURCES := MAX_SOURCES + MAX_ROUTE_KEYS

  ghost predicate TableWithin(s: Sources, t: Tables, own: RouterId) {
    |t.entries| <= MAX_ROUTE_KEYS && |AllForeign(s, own)| + |AllToCome(s, t, own)| <= MOST_SOURCES
  }

  /** A route of an unknown origin is only selected while the table has room. */
  lemma SelectingNeedsRoom(s: Sources, b: Tables, a: Tables, k: RouteKey, e: Entry, p: Pass, own: RouterId)
    requires KeySelected(s, b, a, k, e, p) && ToCome(s, a, k, own)
    ensures |s| < MAX_SOURCES
  {
    var next :| SelectStep(s, k, e, next, p) && Became(b, a, k, e.selected, next);
    assert a.EntryAt(k) == Some(next);
    ChoiceIsRight(s, k, next.routes, e.selected, p, next.selected);
  }

  lemma SelectedWithin(s: Sources, b: Tables, a: Tables, own: RouterId)
    requires TableWithin(s, b, own) && |a.entries| <= MAX_ROUTE_KEYS
    requires forall k | ToCome(s, a, k, own) :: |s| < MAX_SOURCES || ToCome(s, b, k, own)
    ensures TableWithin(s, a, own)
  {
    if |s| < MAX_SOURCES {
      SmallerSet(AllForeign(s, own), s.Keys);
      SmallerSet(AllToCome(s, a, own), a.entries.Keys);
    } else {
      SmallerSet(AllToCome(s, a, own), AllToCome(s, b, own));
    }
  }

  lemma WalkStaysWithin(s: Sources, edit: Edit, b: Tables, a: Tables, p: Pass, own: RouterId)
    requires WalkStep(s, edit, b, a, p) && TableWithin(s, b, own) && |a.entries| <= MAX_ROUTE_KEYS
    ensures TableWithin(s, a, own)
  {
    forall k | ToCome(s, a, k, own) ensures |s| < MAX_SOURCES || ToCome(s, b, k, own) {
      assert Walked(s, edit, b, a, k, p);
      if k in b.entries && Touches(edit, b.entries[k]) {
        SelectingNeedsRoom(s, b, a, k, Edited(edit, b.entries[k], p.now), p, own);
      } else {
        assert a.EntryAt(k) == b.EntryAt(k);
      }
    }
    SelectedWithin(s, b, a, own);
  }

  lemma LearningStaysWithin(s: Sources, b: Tables, a: Tables, n: Peer, key: RouteKey, adv: Advertisement, hold: Time,
                            p: Pass, own: RouterId)
    requires UpdateStep(s, b, a, n, key, adv, hold, p) && TableWithin(s, b, own) && |a.entries| <= MAX_ROUTE_KEYS
    ensures TableWithin(s, a, own)
  {
    if Admits(s, b.entries, n, key, adv, hold) {
      forall k | ToCome(s, a, k, own) ensures |s| < MAX_SOURCES || ToCome(s, b, k, own) {
        if k == key {
          SelectingNeedsRoom(s, b, a, k, Acquired(b.entries, n, key, adv, hold, p.now), p, own);
        } else {
          assert KeySame(b, a, k);
          assert a.EntryAt(k) == b.EntryAt(k);
        }
      }
      SelectedWithin(s, b, a, own);
    }
  }

  /** The origin of each selected route, one for each prefix. */
  ghost function OriginsSelected(t: Tables, ks: set<RouteKey>): set<SourceKey>
    requires forall k | k in ks :: k in t.entries && t.entries[k].selected.Via?
  {
    set k | k in ks :: SourceKey(k, t.entries[k].selected.id)
  }

  lemma {:induction false} OneOriginEach(t: Tables, ks: set<RouteKey>)
    requires forall k | k in ks :: k in t.entries && t.entries[k].selected.Via?
    ensures |OriginsSelected(t, ks)| == |ks|
    decreases |ks|
  {
    if ks == {} {
    } else {
      var k :| k in ks;
      OneOriginEach(t, ks - {k});
      assert OriginsSelected(t, ks) == OriginsSelected(t, ks - {k}) + {SourceKey(k, t.entries[k].selected.id)};
    }
  }

  lemma SweepingStaysWithin(s: Sources, t: Tables, now: Time, own: RouterId)
    requires TableWithin(s, t, own)
    ensures TableWithin(Swept(s, now), t, own)
  {
    var rest := Swept(s, now);
    var anew := AllToCome(rest, t, own) - AllToCome(s, t, own);
    var lost := OriginsSelected(t, anew);
    OneOriginEach(t, anew);
    assert lost <= AllForeign(s, own) && lost !! AllForeign(rest, own);
    SmallerSet(AllForeign(rest, own) + lost, AllForeign(s, own));
    SmallerSet(AllToCome(rest, t, own), AllToCome(s, t, own) + anew);
  }

  lemma TellingAdds(s: Sources, key: RouteKey, adv: Advertisement, from: Peer, now: Time, own: RouterId)
    ensures AllForeign(Observed(s, key, adv, from, now), own)
         == AllForeign(s, own) + if adv.metric != INFINITY && adv.id != own then {SourceKey(key, adv.id)} else {}
  {}

  lemma TellingSettles(s: Sources, t: Tables, key: RouteKey, adv: Advertisement, from: Peer, now: Time, own: RouterId)
    requires Sayable(t, key, adv, own)
    ensures AllToCome(Observed(s, key, adv, from, now), t, own)
         <= AllToCome(s, t, own) - if adv.metric != INFINITY && adv.id != own then {key} else {}
  {}

  lemma TellingStaysWithin(s: Sources, t: Tables, key: RouteKey, adv: Advertisement, from: Peer, now: Time,
                           own: RouterId)
    requires TableWithin(s, t, own) && Sayable(t, key, adv, own)
    ensures TableWithin(Observed(s, key, adv, from, now), t, own)
  {
    var counted := adv.metric != INFINITY && adv.id != own;
    TellingAdds(s, key, adv, from, now, own);
    TellingSettles(s, t, key, adv, from, now, own);
    SmallerSet(AllToCome(Observed(s, key, adv, from, now), t, own),
               AllToCome(s, t, own) - if counted then {key} else {});
    if counted && SourceKey(key, adv.id) !in s {
      assert key in AllToCome(s, t, own);
    }
  }

  lemma StepKeepsTheBound(x: Snapshot, y: Snapshot, ev: Event, p: Pass, own: RouterId)
    requires Step(x, y, ev, p) && TableWithin(x.sources, x.table, own)
    requires ev.Said? ==> Sayable(x.table, ev.key, ev.adv, own)
    ensures TableWithin(y.sources, y.table, own)
  {
    StepKeepsRoom(x, y, ev, p);
    match ev
    case Learned(n, key, adv, hold) => LearningStaysWithin(x.sources, x.table, y.table, n, key, adv, hold, p, own);
    case LinkChanged(n) => WalkStaysWithin(x.sources, Recompute(n), x.table, y.table, p, own);
    case PeerGone(n) => WalkStaysWithin(x.sources, Expire(n), x.table, y.table, p, own);
    case PeerRetracted(n) =>
      if n !in x.retracted {
        WalkStaysWithin(x.sources, Retract(n), x.table, y.table, p, own);
      }
    case TimePassed =>
      assert AllToCome(x.sources, x.table.(at := 0), own) == AllToCome(x.sources, x.table, own);
      WalkStaysWithin(x.sources, Sweep, x.table.(at := 0), y.table, p, own);
      SweepingStaysWithin(x.sources, y.table, p.now, own);
    case Said(key, adv, from) => TellingStaysWithin(x.sources, x.table, key, adv, from, p.now, own);
    case Originated(_) => SelectedWithin(x.sources, x.table, y.table, own);
    case Unoriginated(_) => SelectedWithin(x.sources, x.table, y.table, own);
  }

  ghost predicate NodeBounded(x: Node) {
    TableWithin(x.snap.sources, x.snap.table, x.id)
  }

  lemma NodeStaysBounded(a: Net, b: Net, mv: Move, p: Pass, x: Peer)
    requires NetStep(a, b, mv, p) && x in a.nodes && x in b.nodes && NodeBounded(a.nodes[x])
    ensures NodeBounded(b.nodes[x])
  {
    var m, n := a.nodes[x], b.nodes[x];
    if n != m {
      match mv
      case Deliver(d) => StepKeepsTheBound(m.snap, n.snap, Learned(d.from, d.key, d.adv, d.hold), p, m.id);
      case Advertise(_, to, key, _) =>
        StepKeepsTheBound(m.snap, n.snap, Said(key, AdvertisementFor(m, to, key), SelectedPeer(m, key)), p, m.id);
      case Local(_, ev) => StepKeepsTheBound(m.snap, n.snap, ev, p, m.id);
      case Drop(_) =>
      case RaiseSeqno(_) =>
    }
  }

  /** In every run, whatever its neighbors send, a node holds no more prefixes than their
      cap, and no more origins besides itself than both caps together. */
  lemma {:induction false} TablesAreCapped(run: seq<Net>, mvs: seq<Move>, ps: seq<Pass>, i: nat, x: Peer)
    requires History(run, mvs, ps) && i < |run| && x in run[i].nodes
    ensures var n := run[i].nodes[x];
      && NodeBounded(n) && |n.snap.table.entries| <= MAX_ROUTE_KEYS
      && |AllForeign(n.snap.sources, n.id)| <= MAX_SOURCES + MAX_ROUTE_KEYS
  {
    if i == 0 {
      var n := run[0].nodes[x];
      assert AllForeign(n.snap.sources, n.id) == {} && AllToCome(n.snap.sources, n.snap.table, n.id) == {};
    } else {
      assert NetStep(run[i - 1], run[i], mvs[i - 1], ps[i - 1]);
      TransitStays(run[i - 1], run[i], mvs[i - 1], ps[i - 1], x);
      TablesAreCapped(run, mvs, ps, i - 1, x);
      NodeStaysBounded(run[i - 1], run[i], mvs[i - 1], ps[i - 1], x);
    }
  }
}
