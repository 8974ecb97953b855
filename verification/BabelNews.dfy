/** What a change sets off: an Update exactly when some neighbor would hear news, and
    a request exactly when a prefix is left with routes it may not use. */
module BabelNews {
  import opened BabelOrder
  import opened BabelSources
  import opened BabelSelection
  import opened BabelTable
  import opened BabelNetwork
  import opened Deadlines
  import opened Wrappers

  /** Nothing new to a neighbor: the same origin, offered or retracted as before, and if
      dearer then by less than the trigger. */
  predicate OldWord(was: Advertisement, now: Advertisement, trigger: U16) {
    && was.id == now.id && was.seqno == now.seqno && (was.metric == INFINITY <==> now.metric == INFINITY)
    && (now.metric > was.metric ==> now.metric - was.metric < trigger)
  }

  /** Somebody would hear something new. */
  ghost predicate News(x: Node, y: Node, key: RouteKey, trigger: U16) {
    exists to :: !OldWord(AdvertisementFor(x, to, key), AdvertisementFor(y, to, key), trigger)
  }

  /** Two entries of one prefix, the second of which keeps what the first would retract. */
  predicate Kept(e: Entry, f: Entry) {
    && (e.selected.Via? ==> e.selected.cost < INFINITY) && (f.selected.Via? ==> f.selected.cost < INFINITY)
    && (e.selected.NoRoute? && f.selected.NoRoute? ==> f.retractId == e.retractId && f.retractSeqno == e.retractSeqno)
  }

  predicate Relays(x: Node, key: RouteKey) {
    x.transit && key !in x.originate && key in x.snap.table.entries
  }

  function EntryOf(x: Node, key: RouteKey): Entry
    requires Relays(x, key)
  {
    x.snap.table.entries[key]
  }

  lemma InsignificantIsOld(x: Node, y: Node, key: RouteKey, trigger: U16, to: Peer)
    requires Relays(x, key) && Relays(y, key) && Kept(EntryOf(x, key), EntryOf(y, key))
    requires !Significant(EntryOf(x, key).selected, EntryOf(y, key).selected, trigger)
    ensures OldWord(AdvertisementFor(x, to, key), AdvertisementFor(y, to, key), trigger)
  {}

  /** Who hears of a change: the neighbor a route no longer leads back to, or else anyone
      it does not lead to. */
  function Hearer(was: Selection, now: Selection): Peer {
    if was.Via? && now.Via? && was.peer != now.peer then was.peer
    else (if was.Via? then was.peer else if now.Via? then now.peer else "") + "'"
  }

  lemma SignificantIsNew(x: Node, y: Node, key: RouteKey, trigger: U16)
    requires Relays(x, key) && Relays(y, key) && Kept(EntryOf(x, key), EntryOf(y, key))
    requires Significant(EntryOf(x, key).selected, EntryOf(y, key).selected, trigger)
    ensures News(x, y, key, trigger)
  {
    var was, now := EntryOf(x, key).selected, EntryOf(y, key).selected;
    var to := Hearer(was, now);
    assert was.Via? && to == was.peer + "'" ==> |to| == |was.peer| + 1;
    assert now.Via? && to == now.peer + "'" ==> |to| == |now.peer| + 1;
    assert !OldWord(AdvertisementFor(x, to, key), AdvertisementFor(y, to, key), trigger);
  }

  /** A change of selection earns an Update exactly when somebody would hear news. */
  lemma SignificantIsNews(x: Node, y: Node, key: RouteKey, trigger: U16)
    requires Relays(x, key) && Relays(y, key) && Kept(EntryOf(x, key), EntryOf(y, key))
    ensures Significant(EntryOf(x, key).selected, EntryOf(y, key).selected, trigger) <==> News(x, y, key, trigger)
  {
    if Significant(EntryOf(x, key).selected, EntryOf(y, key).selected, trigger) {
      SignificantIsNew(x, y, key, trigger);
    } else {
      forall to ensures OldWord(AdvertisementFor(x, to, key), AdvertisementFor(y, to, key), trigger) {
        InsignificantIsOld(x, y, key, trigger, to);
      }
    }
  }

  lemma WalkKeeps(s: Sources, edit: Edit, b: Tables, a: Tables, k: RouteKey, p: Pass)
    requires Walked(s, edit, b, a, k, p) && k in b.entries && k in a.entries
    ensures b.entries[k].selected.NoRoute? && a.entries[k].selected.NoRoute? ==>
      a.entries[k].retractId == b.entries[k].retractId && a.entries[k].retractSeqno == b.entries[k].retractSeqno
  {
    if Touches(edit, b.entries[k]) {
      var e := Edited(edit, b.entries[k], p.now);
      var next :| SelectStep(s, k, e, next, p) && Became(b, a, k, e.selected, next);
      assert a.EntryAt(k) == Some(next);
    } else {
      assert a.EntryAt(k) == b.EntryAt(k);
    }
  }

  lemma SelectedIsFinite(x: Node, k: RouteKey)
    requires NodeOk(x) && k in x.snap.table.entries && x.snap.table.entries[k].selected.Via?
    ensures x.snap.table.entries[k].selected.cost < INFINITY
  {
    assert KeyOk(x.snap.sources, x.snap.table, k, x.snap.retracted);
  }

  /** A walk over the table of a relaying node marks exactly the prefixes it flushes and
      those of which somebody would hear news. */
  lemma WalkMarksNews(x: Node, y: Node, edit: Edit, start: Time, trigger: U16, before: Owed, now: Owed, p: Pass,
                      k: RouteKey)
    requires NodeOk(x) && NodeOk(y) && x.transit && y == x.(snap := y.snap)
    requires WalkStep(x.snap.sources, edit, x.snap.table.(at := start), y.snap.table, p)
    requires Told(x.snap.sources, edit, x.snap.table.(at := start), y.snap.table, trigger, before, now, p)
    ensures k in now.dirty <==>
      || k in before.dirty
      || (k in x.snap.table.entries && (k !in y.snap.table.entries || News(x, y, k, trigger)))
  {
    var b, a := x.snap.table.(at := start), y.snap.table;
    assert Walked(x.snap.sources, edit, b, a, k, p);
    if k in b.entries && k in a.entries {
      WalkKeeps(x.snap.sources, edit, b, a, k, p);
      if b.entries[k].selected.Via? {
        SelectedIsFinite(x, k);
      }
      if a.entries[k].selected.Via? {
        SelectedIsFinite(y, k);
      }
      SignificantIsNews(x, y, k, trigger);
      if !Touches(edit, b.entries[k]) {
        assert a.EntryAt(k) == b.EntryAt(k);
      }
    }
  }

  lemma UpdateKeeps(s: Sources, b: Tables, a: Tables, n: Peer, k: RouteKey, adv: Advertisement, hold: Time, p: Pass)
    requires UpdateStep(s, b, a, n, k, adv, hold, p) && Admits(s, b.entries, n, k, adv, hold)
    requires k in b.entries && k in a.entries
    ensures b.entries[k].selected.NoRoute? && a.entries[k].selected.NoRoute? ==>
      a.entries[k].retractId == b.entries[k].retractId && a.entries[k].retractSeqno == b.entries[k].retractSeqno
  {
    var e := Acquired(b.entries, n, k, adv, hold, p.now);
    var next :| SelectStep(s, k, e, next, p) && Became(b, a, k, e.selected, next);
    assert a.EntryAt(k) == Some(next);
  }

  /** An Update taken in marks its own prefix alone, and exactly when it is flushed or
      somebody would hear news, which of a prefix unknown before is any offer. */
  lemma UpdateMarksNews(x: Node, y: Node, n: Peer, key: RouteKey, adv: Advertisement, hold: Time, trigger: U16,
                        before: Owed, now: Owed, p: Pass, k: RouteKey)
    requires NodeOk(x) && NodeOk(y) && x.transit && y == x.(snap := y.snap) && key !in x.originate
    requires UpdateStep(x.snap.sources, x.snap.table, y.snap.table, n, key, adv, hold, p)
    requires UpdateTold(x.snap.sources, x.snap.table, y.snap.table, n, key, adv, hold, trigger, before, now, p)
    ensures k in now.dirty <==>
      || k in before.dirty
      || (&& k == key && Admits(x.snap.sources, x.snap.table.entries, n, key, adv, hold)
          && (if k in x.snap.table.entries then k !in y.snap.table.entries || News(x, y, k, trigger)
              else k !in y.snap.table.entries || exists to :: AdvertisementFor(y, to, k).metric != INFINITY))
  {
    var b, a := x.snap.table, y.snap.table;
    if k == key && Admits(x.snap.sources, b.entries, n, key, adv, hold) && k in a.entries {
      if a.entries[k].selected.Via? {
        SelectedIsFinite(y, k);
        assert |a.entries[k].selected.peer + "'"| == |a.entries[k].selected.peer| + 1;
        assert AdvertisementFor(y, a.entries[k].selected.peer + "'", k).metric != INFINITY;
      }
      if k in b.entries {
        UpdateKeeps(x.snap.sources, b, a, n, k, adv, hold, p);
        if b.entries[k].selected.Via? {
          SelectedIsFinite(x, k);
        }
        SignificantIsNews(x, y, k, trigger);
      }
    }
  }

  // ----- what a starved prefix asks for -----

  /** The prefix lost its route. */
  predicate Starves(b: Tables, a: Tables, k: RouteKey) {
    k in b.entries && b.entries[k].selected.Via? && k in a.entries && a.entries[k].selected.NoRoute?
  }

  /** A neighbor that offers the prefix at a cost, were the offer feasible. */
  predicate Offers(a: Tables, k: RouteKey, n: Peer, p: Pass) {
    k in a.entries && n in a.entries[k].routes && CostOf(a.entries[k].routes, n, p) != INFINITY
  }

  lemma NothingUsable(s: Sources, edit: Edit, b: Tables, a: Tables, k: RouteKey, p: Pass)
    requires Walked(s, edit, b, a, k, p) && Starves(b, a, k)
    ensures Touches(edit, b.entries[k]) && forall n | Offers(a, k, n, p) :: !Usable(s, k, a.entries[k].routes, n, p)
  {
    if Touches(edit, b.entries[k]) {
      var e := Edited(edit, b.entries[k], p.now);
      var next :| SelectStep(s, k, e, next, p) && Became(b, a, k, e.selected, next);
      assert a.EntryAt(k) == Some(next);
      ChoiceIsRight(s, k, next.routes, e.selected, p, next.selected);
    }
  }

  /** The request to one neighbor: past every offer of its that this node has to refuse. */
  predicate AsksFor(s: Sources, a: Tables, r: StarveRequest)
    requires r.key in a.entries && r.peer in a.entries[r.key].routes
  {
    var adv := a.entries[r.key].routes[r.peer].Advertised();
    r.id == adv.id && r.seqno == RequestSeqno(s, r.key, adv)
  }

  lemma StarvedNeeds(s: Sources, edit: Edit, b: Tables, a: Tables, p: Pass, r: StarveRequest)
    requires WalkStep(s, edit, b, a, p)
    ensures r in WalkNeeds(s, edit, b, a, {}, p) <==>
      Starves(b, a, r.key) && Offers(a, r.key, r.peer, p) && AsksFor(s, a, r)
  {
    assert Walked(s, edit, b, a, r.key, p);
    if Starves(b, a, r.key) {
      NothingUsable(s, edit, b, a, r.key, p);
      if Offers(a, r.key, r.peer, p) && AsksFor(s, a, r) {
        assert r.peer in Unfeasible(s, r.key, a.entries[r.key].routes, p);
        assert r == RequestTo(s, r.key, r.peer, a.entries[r.key].routes[r.peer].Advertised());
        assert r in WalkNeedsAt(s, edit, b, a, r.key, p);
      }
    }
  }

  /** A walk asks, once each, exactly those neighbors that still offer a prefix which
      lost its route in it. */
  lemma WalkAsksTheStarved(s: Sources, edit: Edit, b: Tables, a: Tables, trigger: U16, before: Owed, now: Owed, p: Pass,
                           r: StarveRequest)
    requires WalkStep(s, edit, b, a, p) && Told(s, edit, b, a, trigger, before, now, p)
    ensures before.starved <= now.starved
    ensures multiset(now.starved[|before.starved|..])[r]
         == if Starves(b, a, r.key) && Offers(a, r.key, r.peer, p) && AsksFor(s, a, r) then 1 else 0
  {
    StarvedNeeds(s, edit, b, a, p, r);
  }

  /** The selected neighbor takes back what its route rests on. */
  ghost predicate Betrays(s: Sources, b: Tables, n: Peer, key: RouteKey, adv: Advertisement) {
    && key in b.entries && b.entries[key].selected.Via? && b.entries[key].selected.peer == n
    && !FeasibleIn(s, key, adv, n)
  }

  lemma UpdateNeeds(s: Sources, b: Tables, a: Tables, n: Peer, key: RouteKey, adv: Advertisement, hold: Time, p: Pass,
                    r: StarveRequest)
    requires UpdateStep(s, b, a, n, key, adv, hold, p) && Admits(s, b.entries, n, key, adv, hold)
    ensures r in Needs(s, a, key, Acquired(b.entries, n, key, adv, hold, p.now).selected, p) <==>
      r.key == key && Starves(b, a, key) && Offers(a, key, r.peer, p) && AsksFor(s, a, r)
  {
    var e := Acquired(b.entries, n, key, adv, hold, p.now);
    var next :| SelectStep(s, key, e, next, p) && Became(b, a, key, e.selected, next);
    if key in a.entries {
      assert a.EntryAt(key) == Some(next);
      ChoiceIsRight(s, key, next.routes, e.selected, p, next.selected);
      if r.key == key && Starves(b, a, key) && Offers(a, key, r.peer, p) && AsksFor(s, a, r) {
        assert r.peer in Unfeasible(s, key, next.routes, p);
        assert r == RequestTo(s, key, r.peer, next.routes[r.peer].Advertised());
      }
    }
  }

  lemma AskedAfter(before: seq<StarveRequest>, first: seq<StarveRequest>, now: seq<StarveRequest>,
                   requests: set<StarveRequest>, r: StarveRequest)
    requires Asked(before + first, now, requests)
    ensures before <= now
    ensures multiset(now[|before|..])[r] == multiset(first)[r] + if r in requests then 1 else 0
  {
    assert before <= before + first;
    assert now[|before|..] == first + now[|before + first|..];
  }

  /** An Update taken in asks its sender if it was selected and may no longer be, and
      whoever still offers the prefix if that left it starved. */
  lemma UpdateAsksTheStarved(s: Sources, b: Tables, a: Tables, n: Peer, key: RouteKey, adv: Advertisement, hold: Time,
                             trigger: U16, before: Owed, now: Owed, p: Pass, r: StarveRequest)
    requires UpdateStep(s, b, a, n, key, adv, hold, p)
    requires UpdateTold(s, b, a, n, key, adv, hold, trigger, before, now, p)
    ensures before.starved <= now.starved
    ensures var added, admitted := multiset(now.starved[|before.starved|..]), Admits(s, b.entries, n, key, adv, hold);
      && var sender := StarveRequest(key, n, adv.id, RequestSeqno(s, key, adv));
      && added[r] == (if admitted && Betrays(s, b, n, key, adv) && r == sender then 1 else 0)
                   + (if admitted && r.key == key && Starves(b, a, key) && Offers(a, key, r.peer, p) && AsksFor(s, a, r)
                      then 1 else 0)
  {
    if Admits(s, b.entries, n, key, adv, hold) {
      UpdateNeeds(s, b, a, n, key, adv, hold, p, r);
      var was := Acquired(b.entries, n, key, adv, hold, p.now).selected;
      var first := if Betrays(s, b, n, key, adv) then [RequestTo(s, key, n, adv)] else [];
      AskedAfter(before.starved, first, now.starved, Needs(s, a, key, was, p), r);
    }
  }
}
