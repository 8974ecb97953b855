/** The route table of a running speaker: acquisition, selection and expiry by
    update in place, each proved to be one step of BabelTable. */
module BabelRoutes {
  import opened BabelOrder
  import opened BabelSources
  import opened BabelSelection
  import opened BabelTable
  import opened Deadlines
  import opened Wrappers

  /** What replacing one entry and selecting for it does to the table. */
  lemma ReplacingIsAStep(s: Sources, b: Tables, a: Tables, key: RouteKey, e: Entry, next: Entry, p: Pass)
    requires SelectStep(s, key, e, next, p) && MinimumKept(b.at, a.at, next.routes)
    requires a.entries == Put(b.entries[key := e], key, next)
    requires a.forwarding == Refer(b.forwarding, key, e.selected, next)
    ensures KeySelected(s, b, a, key, e, p)
    ensures NotLater(a.at, b.at)
    ensures forall k | k != key :: KeySame(b, a, k)
  {
    assert Became(b, a, key, e.selected, next);
  }

  /** A later selection elsewhere does not undo an earlier one. */
  lemma SelectionStands(s: Sources, b: Tables, m: Tables, a: Tables, k: RouteKey, e: Entry, p: Pass)
    requires KeySelected(s, b, m, k, e, p) && KeySame(m, a, k) && NotLater(a.at, m.at)
    ensures KeySelected(s, b, a, k, e, p)
  {
    var next :| SelectStep(s, k, e, next, p) && Became(b, m, k, e.selected, next);
    assert Became(b, a, k, e.selected, next);
  }

  /** The same selection, told from a table that agrees on this prefix. */
  lemma SelectionRebased(s: Sources, b: Tables, m: Tables, a: Tables, k: RouteKey, e: Entry, p: Pass)
    requires KeySame(b, m, k) && KeySelected(s, m, a, k, e, p)
    ensures KeySelected(s, b, a, k, e, p)
  {
    var next :| SelectStep(s, k, e, next, p) && Became(m, a, k, e.selected, next);
    assert Became(b, a, k, e.selected, next);
  }

  /** A walk under way: `todo` still as it was, the rest done. */
  ghost predicate Walking(s: Sources, edit: Edit, b: Tables, t: Tables, todo: set<RouteKey>, p: Pass) {
    && NotLater(t.at, b.at)
    && (forall k: RouteKey | k in todo :: KeySame(b, t, k))
    && (forall k: RouteKey | k !in todo :: Walked(s, edit, b, t, k, p))
  }

  lemma WalkOne(s: Sources, edit: Edit, b: Tables, m: Tables, a: Tables, key: RouteKey, todo: set<RouteKey>, p: Pass)
    requires Walking(s, edit, b, m, todo, p) && key in todo && key in b.entries
    requires if Touches(edit, b.entries[key])
             then KeySelected(s, m, a, key, Edited(edit, b.entries[key], p.now), p)
             else a == m
    requires NotLater(a.at, m.at) && forall k | k != key :: KeySame(m, a, k)
    ensures Walking(s, edit, b, a, todo - {key}, p)
  {
    assert KeySame(b, m, key);
    if Touches(edit, b.entries[key]) {
      SelectionRebased(s, b, m, a, key, Edited(edit, b.entries[key], p.now), p);
    }
    forall k: RouteKey | k in todo && k != key ensures KeySame(b, a, k) {
      assert KeySame(b, m, k) && KeySame(m, a, k);
    }
    forall k: RouteKey | k !in todo ensures Walked(s, edit, b, a, k, p) {
      assert Walked(s, edit, b, m, k, p) && KeySame(m, a, k);
      if k in b.entries && Touches(edit, b.entries[k]) {
        SelectionStands(s, b, m, a, k, Edited(edit, b.entries[k], p.now), p);
      }
    }
  }

  lemma DueElsewhere(start: Time, m: Tables, a: Tables, key: RouteKey, todo: set<RouteKey>)
    requires m.at == start || Attained(m, todo)
    requires a.at == m.at || DueAt(a.at, a, key)
    requires key in todo && forall k | k != key :: KeySame(m, a, k)
    ensures a.at == start || Attained(a, todo - {key})
  {
    if a.at != start && !DueAt(a.at, a, key) {
      var k :| k !in todo && DueAt(m.at, m, k);
      assert KeySame(m, a, k) && DueAt(a.at, a, k);
    }
  }

  /** What a walk under way has marked and asked for, of the prefixes it is done with. */
  ghost predicate Telling(s: Sources, edit: Edit, b: Tables, t: Tables, trigger: U16, before: Owed, now: Owed,
                          todo: set<RouteKey>, p: Pass)
  {
    && (forall k: RouteKey ::
          k in now.dirty <==> k in before.dirty || (k !in todo && WalkStirs(edit, b, t, k, trigger)))
    && Asked(before.starved, now.starved, WalkNeeds(s, edit, b, t, todo, p))
  }

  lemma TellOne(s: Sources, edit: Edit, b: Tables, m: Tables, a: Tables, trigger: U16, start: Owed, before: Owed,
                now: Owed, key: RouteKey, todo: set<RouteKey>, p: Pass)
    requires Telling(s, edit, b, m, trigger, start, before, todo, p)
    requires key in todo && key in b.entries && forall k | k != key :: KeySame(m, a, k)
    requires now.dirty == if WalkStirs(edit, b, a, key, trigger) then before.dirty + {key} else before.dirty
    requires Asked(before.starved, now.starved, WalkNeedsAt(s, edit, b, a, key, p))
    ensures Telling(s, edit, b, a, trigger, start, now, todo - {key}, p)
  {
    forall k: RouteKey | k != key ensures WalkStirs(edit, b, a, k, trigger) <==> WalkStirs(edit, b, m, k, trigger) {
      assert KeySame(m, a, k);
    }
    WalkNeedsGrow(s, edit, b, m, a, key, todo, p);
    AskMore(start.starved, before.starved, now.starved,
            WalkNeeds(s, edit, b, m, todo, p), WalkNeedsAt(s, edit, b, a, key, p));
  }

  class RouteTable {
    var entries: map<RouteKey, Entry>
    const sources: SourceTable
    var retracted: set<Peer>
    var dirty: set<RouteKey>
    var starved: seq<StarveRequest>
    var nextExpiryAt: Time
    var forwarding: map<RouteKey, Hop>
    const trigger: U16

    constructor (sources: SourceTable, trigger: U16)
      ensures this.sources == sources && this.trigger == trigger
      ensures entries == map[] && retracted == {} && dirty == {} && starved == []
      ensures nextExpiryAt == 0 && forwarding == map[]
    {
      this.sources, this.trigger := sources, trigger;
      entries, retracted, dirty, starved, nextExpiryAt, forwarding := map[], {}, {}, [], 0, map[];
    }

    /** One candidate's turn: it ages, counts toward the table's next expiry
        if it survives, and is smoothed if it can carry anything. */
    method Visit(key: RouteKey, n: Peer, r: Route, p: Pass) returns (kept: Option<Route>, cost: U16, feasible: bool)
      requires sources.Valid()
      modifies this`nextExpiryAt
      ensures kept == Stepped(r, p.links(n), p)
      ensures kept.Some? ==> cost == Cost(kept.value, p.links(n))
      ensures kept.Some? && cost != INFINITY ==>
                (feasible <==> FeasibleIn(sources.sources, key, kept.value.Advertised(), n))
      ensures nextExpiryAt == if kept.Some? then Earlier(old(nextExpiryAt), kept.value.expiresAt) else old(nextExpiryAt)
    {
      kept, cost, feasible := Aged(r, p.now), INFINITY, false;
      if kept.Some? {
        NoteExpiry(kept.value.expiresAt);
        cost := Cost(kept.value, p.links(n));
        if cost != INFINITY {
          kept := Some(Smooth(kept.value, cost, p));
          feasible := sources.Feasible(key, kept.value.Advertised(), n);
        }
      }
    }

    /** One walk over the candidates of one prefix, in any order. */
    method Scan(key: RouteKey, e: Entry, p: Pass)
      returns (routes: map<Peer, Route>, best: Option<Peer>, incumbent: Option<Peer>, unfeasible: set<Peer>)
      requires sources.Valid()
      modifies this`nextExpiryAt
      ensures routes == AfterPass(e.routes, p)
      ensures BestAmong(sources.sources, key, routes, routes.Keys, best, p)
      ensures incumbent == Incumbent(sources.sources, key, routes, e.selected, p)
      ensures unfeasible == Unfeasible(sources.sources, key, routes, p)
      ensures MinimumKept(old(nextExpiryAt), nextExpiryAt, routes)
    {
      ghost var s := sources.sources;
      ghost var final := AfterPass(e.routes, p);
      routes, best, incumbent, unfeasible := map[], None, None, {};
      var bestCost: U16 := 0;
      var todo := e.routes.Keys;
      ghost var done: set<Peer> := {};
      while todo != {}
        invariant forall n :: n in e.routes <==> n in todo || n in done
        invariant todo !! done
        invariant routes == Upto(final, done)
        invariant BestAmong(s, key, final, done, best, p)
        invariant best.Some? ==> bestCost == CostOf(final, best.value, p)
        invariant incumbent == Incumbent(s, key, routes, e.selected, p)
        invariant unfeasible == Unfeasible(s, key, routes, p)
        invariant MinimumKept(old(nextExpiryAt), nextExpiryAt, routes)
        decreases todo
      {
        var n :| n in todo;
        todo := todo - {n};
        NextCandidate(s, key, final, done, best, n, p);
        UptoGrows(final, done, n);
        ghost var at := nextExpiryAt;
        var kept, cost, feasible := Visit(key, n, e.routes[n], p);
        if kept.Some? {
          OneMoreIncumbent(s, key, routes, n, kept.value, e.selected, p);
          OneMoreUnfeasible(s, key, routes, n, kept.value, p);
          OneMoreExpiry(old(nextExpiryAt), at, routes, n, kept.value);
          routes := routes[n := kept.value];
          if cost != INFINITY && feasible {
            if e.selected.Via? && n == e.selected.peer {
              incumbent := Some(n);
            }
            if best.None? || cost < bestCost || (cost == bestCost && Precedes(n, best.value)) {
              best, bestCost := Some(n), cost;
            }
          } else if cost != INFINITY {
            unfeasible := unfeasible + {n};
          }
        }
        done := done + {n};
      }
      assert done == e.routes.Keys;
      assert routes == final;
    }

    function Table(): Tables
      reads this
    {
      Tables(entries, forwarding, nextExpiryAt)
    }

    function Work(): Owed
      reads this
    {
      Owed(dirty, starved)
    }

    function Snap(): Snapshot
      reads this, sources
    {
      Snapshot(sources.sources, Table(), retracted)
    }

    /** Replaces one entry and selects for it. */
    method Reselect(key: RouteKey, e: Entry, p: Pass) returns (next: Entry)
      requires sources.Valid()
      modifies this`entries, this`dirty, this`starved, this`nextExpiryAt, this`forwarding
      ensures KeySelected(sources.sources, old(Table()), Table(), key, e, p)
      ensures NotLater(nextExpiryAt, old(nextExpiryAt))
      ensures forall k | k != key :: KeySame(old(Table()), Table(), k)
      ensures nextExpiryAt == old(nextExpiryAt) || DueAt(nextExpiryAt, Table(), key)
      ensures dirty == if Stirred(Table(), key, e.selected, trigger) then old(dirty) + {key} else old(dirty)
      ensures Asked(old(starved), starved, Needs(sources.sources, Table(), key, e.selected, p))
    {
      entries := entries[key := e];
      next := SelectRoute(key, p);
      ReplacingIsAStep(sources.sources, old(Table()), Table(), key, e, next, p);
      if nextExpiryAt != old(nextExpiryAt) {
        var n :| n in next.routes && nextExpiryAt == next.routes[n].expiresAt;
        assert key in entries && n in entries[key].routes;
      }
    }

    method RecomputeNeighbor(n: Peer, p: Pass)
      requires sources.Valid() && p.now > 0
      modifies this
      ensures Step(old(Snap()), Snap(), LinkChanged(n), p)
      ensures Told(sources.sources, Recompute(n), old(Table()), Table(), trigger, old(Work()), Work(), p)
    {
      Walk(Recompute(n), p);
    }

    method ExpireNeighbor(n: Peer, p: Pass)
      requires sources.Valid() && p.now > 0
      modifies this
      ensures Step(old(Snap()), Snap(), PeerGone(n), p)
      ensures Told(sources.sources, Expire(n), old(Table()), Table(), trigger, old(Work()), Work(), p)
    {
      retracted := retracted - {n};
      Walk(Expire(n), p);
    }

    method RetractNeighbor(n: Peer, p: Pass)
      requires sources.Valid() && p.now > 0
      modifies this
      ensures Step(old(Snap()), Snap(), PeerRetracted(n), p)
      ensures if n in old(retracted) then Work() == old(Work())
              else Told(sources.sources, Retract(n), old(Table()), Table(), trigger, old(Work()), Work(), p)
    {
      if n in retracted {
        return;
      }
      retracted := retracted + {n};
      Walk(Retract(n), p);
    }

    method SweepExpired(p: Pass)
      requires sources.Valid() && p.now > 0
      modifies this, sources
      ensures sources.Valid()
      ensures Step(old(Snap()), Snap(), TimePassed, p)
      ensures Told(old(sources.sources), Sweep, old(Table()).(at := 0), Table(), trigger, old(Work()), Work(), p)
    {
      nextExpiryAt := 0;
      Walk(Sweep, p);
      sources.SweepSources(p.now);
    }

    /** Route acquisition for one advertised route. */
    method Update(n: Peer, key: RouteKey, adv: Advertisement, hold: Time, p: Pass)
      requires sources.Valid() && p.now > 0 && hold >= 0
      modifies this
      ensures Step(old(Snap()), Snap(), Learned(n, key, adv, hold), p)
      ensures UpdateTold(sources.sources, old(Table()), Table(), n, key, adv, hold, trigger, old(Work()), Work(), p)
    {
      if adv.metric != INFINITY {
        retracted := retracted - {n};
      }
      var feasible := sources.Feasible(key, adv, n);
      if !(key in entries && n in entries[key].routes) {
        if !feasible || adv.metric == INFINITY || hold <= 0 {
          return;
        }
        if key !in entries && |entries| >= MAX_ROUTE_KEYS {
          return;
        }
      }
      Learn(n, key, adv, hold, feasible, p);
    }

    /** An update that is taken. */
    method Learn(n: Peer, key: RouteKey, adv: Advertisement, hold: Time, feasible: bool, p: Pass)
      requires sources.Valid() && Admits(sources.sources, entries, n, key, adv, hold)
      requires feasible <==> FeasibleIn(sources.sources, key, adv, n)
      modifies this`entries, this`dirty, this`starved, this`nextExpiryAt, this`forwarding
      ensures UpdateStep(sources.sources, old(Table()), Table(), n, key, adv, hold, p)
      ensures UpdateTold(sources.sources, old(Table()), Table(), n, key, adv, hold, trigger, old(Work()), Work(), p)
    {
      var e := Acquired(entries, n, key, adv, hold, p.now);
      if !feasible && e.selected.Via? && e.selected.peer == n {
        starved := starved + [RequestTo(sources.sources, key, n, adv)];
      }
      var _ := Reselect(key, e, p);
    }

    /** The loop behind sweepExpired, recomputeNeighbor, expireNeighbor and
        retractNeighbor: every touched prefix is edited and selected again. */
    method Walk(edit: Edit, p: Pass)
      requires sources.Valid()
      modifies this`entries, this`dirty, this`starved, this`nextExpiryAt, this`forwarding
      ensures WalkStep(sources.sources, edit, old(Table()), Table(), p)
      ensures nextExpiryAt == old(nextExpiryAt) || Attained(Table(), {})
      ensures Told(sources.sources, edit, old(Table()), Table(), trigger, old(Work()), Work(), p)
    {
      ghost var s, b := sources.sources, Table();
      var todo := entries.Keys;
      while todo != {}
        invariant sources.sources == s && sources.Valid()
        invariant todo <= b.entries.Keys
        invariant Walking(s, edit, b, Table(), todo, p)
        invariant nextExpiryAt == b.at || Attained(Table(), todo)
        invariant Telling(s, edit, b, Table(), trigger, old(Work()), Work(), todo, p)
        decreases todo
      {
        var k :| k in todo;
        ghost var m, before := Table(), Work();
        assert KeySame(b, m, k);
        WalkAt(edit, k, p);
        WalkOne(s, edit, b, m, Table(), k, todo, p);
        DueElsewhere(b.at, m, Table(), k, todo);
        TellOne(s, edit, b, m, Table(), trigger, old(Work()), before, Work(), k, todo, p);
        todo := todo - {k};
      }
    }

    /** One prefix of a walk. */
    method WalkAt(edit: Edit, key: RouteKey, p: Pass)
      requires sources.Valid() && key in entries
      modifies this`entries, this`dirty, this`starved, this`nextExpiryAt, this`forwarding
      ensures if Touches(edit, old(entries)[key])
              then KeySelected(sources.sources, old(Table()), Table(), key, Edited(edit, old(entries)[key], p.now), p)
              else Table() == old(Table())
      ensures NotLater(nextExpiryAt, old(nextExpiryAt)) && forall k | k != key :: KeySame(old(Table()), Table(), k)
      ensures nextExpiryAt == old(nextExpiryAt) || DueAt(nextExpiryAt, Table(), key)
      ensures dirty == if WalkStirs(edit, old(Table()), Table(), key, trigger) then old(dirty) + {key} else old(dirty)
      ensures Asked(old(starved), starved, WalkNeedsAt(sources.sources, edit, old(Table()), Table(), key, p))
    {
      if Touches(edit, entries[key]) {
        var _ := Reselect(key, Edited(edit, entries[key], p.now), p);
      }
    }

    /** Sections 3.5.4, 3.6 and 3.8.2.1 for one prefix. */
    method SelectRoute(key: RouteKey, p: Pass) returns (next: Entry)
      requires sources.Valid() && key in entries
      modifies this`entries, this`dirty, this`starved, this`nextExpiryAt, this`forwarding
      ensures SelectStep(sources.sources, key, old(entries)[key], next, p)
      ensures entries == Put(old(entries), key, next)
      ensures forwarding == Refer(old(forwarding), key, old(entries)[key].selected, next)
      ensures dirty == Mark(old(dirty), key, old(entries)[key].selected, next, trigger)
      ensures MinimumKept(old(nextExpiryAt), nextExpiryAt, next.routes)
      ensures Asked(old(starved), starved, Wanted(sources.sources, key, old(entries)[key].selected, next, p))
    {
      var e := entries[key];
      var unfeasible;
      next, unfeasible := Decide(key, e, p);
      Adopt(key, next);
      if next.selected.NoRoute? && e.selected.Via? {
        StarveAll(key, next.routes, unfeasible);
      }
    }

    method Adopt(key: RouteKey, next: Entry)
      requires key in entries
      modifies this`entries, this`dirty, this`forwarding
      ensures entries == Put(old(entries), key, next)
      ensures forwarding == Refer(old(forwarding), key, old(entries)[key].selected, next)
      ensures dirty == Mark(old(dirty), key, old(entries)[key].selected, next, trigger)
    {
      var was := entries[key].selected;
      if next.selected.Via? != was.Via? || (was.Via? && next.selected.peer != was.peer) {
        forwarding := forwarding[key := if next.selected.Via? then To(next.selected.peer) else Unreachable];
      }
      if Significant(was, next.selected, trigger) {
        dirty := dirty + {key};
      }
      entries := entries[key := next];
      if next.routes == map[] {
        entries := entries - {key};
        dirty := dirty + {key};
        forwarding := forwarding - {key};
      }
    }

    /** The scan and the hysteresis rule of Appendix A.3. */
    method Decide(key: RouteKey, e: Entry, p: Pass) returns (next: Entry, unfeasible: set<Peer>)
      requires sources.Valid()
      modifies this`nextExpiryAt
      ensures SelectStep(sources.sources, key, e, next, p)
      ensures unfeasible == Unfeasible(sources.sources, key, next.routes, p)
      ensures MinimumKept(old(nextExpiryAt), nextExpiryAt, next.routes)
      ensures next.routes == map[] ==> next.selected.NoRoute?
    {
      var routes, best, incumbent;
      routes, best, incumbent, unfeasible := Scan(key, e, p);
      var selected := NoRoute;
      if best.Some? {
        var b := best.value;
        if incumbent.None? || b == incumbent.value {
          selected := SelectionFor(routes, b, p);
        } else if CostOf(routes, b, p) < CostOf(routes, incumbent.value, p)
                  && routes[b].smoothed < routes[incumbent.value].smoothed {
          selected := SelectionFor(routes, b, p);
        } else {
          selected := SelectionFor(routes, incumbent.value, p);
        }
        assert IsBest(sources.sources, key, routes, b, p);
        assert selected == Settle(sources.sources, key, routes, e.selected, b, p);
      }
      next := e.(routes := routes, selected := selected);
      if selected.Via? {
        next := next.(retractId := selected.id, retractSeqno := selected.seqno);
      }
    }

    method StarveAll(key: RouteKey, routes: map<Peer, Route>, unfeasible: set<Peer>)
      requires unfeasible <= routes.Keys
      modifies this`starved
      ensures Asked(old(starved), starved,
                    set n | n in unfeasible :: RequestTo(sources.sources, key, n, routes[n].Advertised()))
    {
      ghost var s := sources.sources;
      var todo := unfeasible;
      ghost var done: set<StarveRequest> := {};
      while todo != {}
        invariant todo <= unfeasible
        invariant forall r :: r in done <==>
          && r.peer in unfeasible && r.peer !in todo
          && r == RequestTo(s, key, r.peer, routes[r.peer].Advertised())
        invariant Asked(old(starved), starved, done)
        decreases todo
      {
        var n :| n in todo;
        var r := RequestTo(sources.sources, key, n, routes[n].Advertised());
        AskOneMore(old(starved), starved, done, r);
        todo := todo - {n};
        done := done + {r};
        starved := starved + [r];
      }
      assert done == set n | n in unfeasible :: RequestTo(s, key, n, routes[n].Advertised());
    }

    method TakeDirty() returns (keys: set<RouteKey>)
      modifies this`dirty
      ensures keys == old(dirty) && dirty == {}
    {
      keys, dirty := dirty, {};
    }

    method TakeStarved() returns (requests: seq<StarveRequest>)
      modifies this`starved
      ensures requests == old(starved) && starved == []
    {
      requests, starved := starved, [];
    }

    /** This node takes the prefix over: what it had learned goes, and the prefix
        is held so that nothing falls through to a shorter one. */
    method AdoptOriginated(key: RouteKey, p: Pass)
      requires p.now > 0
      modifies this`entries, this`forwarding
      ensures Step(old(Snap()), Snap(), Originated(key), p)
    {
      entries := entries - {key};
      forwarding := forwarding[key := Unreachable];
    }

    method ReleaseOriginated(key: RouteKey, p: Pass)
      requires p.now > 0 && key !in entries
      modifies this`forwarding
      ensures Step(old(Snap()), Snap(), Unoriginated(key), p)
    {
      forwarding := forwarding - {key};
    }

    method NoteExpiry(at: Time)
      modifies this`nextExpiryAt
      ensures NotLater(nextExpiryAt, old(nextExpiryAt)) && NotLater(nextExpiryAt, at)
      ensures nextExpiryAt == Earlier(old(nextExpiryAt), at)
    {
      nextExpiryAt := Earlier(nextExpiryAt, at);
    }
  }
}
