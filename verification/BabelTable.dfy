/** The route table as a value (RFC 8966 section 3.2.6), what each operation
    makes of it, and what every operation keeps. */
module BabelTable {
  import opened BabelOrder
  import opened BabelSources
  import opened BabelSelection
  import opened Deadlines
  import opened Wrappers

  const MAX_ROUTE_KEYS: int := 16384

  /** A forwarding entry: a next hop, or a held prefix that must not fall
      through to a shorter one. */
  datatype Hop = Unreachable | To(peer: Peer)

  datatype StarveRequest = StarveRequest(key: RouteKey, peer: Peer, id: RouterId, seqno: U16)

  /** The entries, the forwarding table that follows them, and the earliest
      expiry the run loop sleeps on. */
  datatype Tables = Tables(entries: map<RouteKey, Entry>, forwarding: map<RouteKey, Hop>, at: Time) {
    function EntryAt(k: RouteKey): Option<Entry> {
      if k in entries then Some(entries[k]) else None
    }

    function HopAt(k: RouteKey): Option<Hop> {
      if k in forwarding then Some(forwarding[k]) else None
    }
  }

  function Upto(routes: map<Peer, Route>, done: set<Peer>): map<Peer, Route> {
    map n | n in routes && n in done :: routes[n]
  }

  /** The selected neighbor, while its route can still be used. */
  ghost function Incumbent(s: Sources, key: RouteKey, routes: map<Peer, Route>, before: Selection,
                           p: Pass): Option<Peer>
  {
    if before.Via? && Usable(s, key, routes, before.peer, p) then Some(before.peer) else None
  }

  ghost function Unfeasible(s: Sources, key: RouteKey, routes: map<Peer, Route>, p: Pass): set<Peer> {
    set n | n in routes && CostOf(routes, n, p) != INFINITY && !Usable(s, key, routes, n, p)
  }

  /** A kept minimum absorbs the expiry of every route of the pass, and is
      still one of the deadlines it was made of. */
  ghost predicate MinimumKept(was: Time, at: Time, routes: map<Peer, Route>) {
    && NotLater(at, was)
    && (forall n | n in routes :: NotLater(at, routes[n].expiresAt))
    && (at == was || exists n :: n in routes && at == routes[n].expiresAt)
  }

  lemma UptoGrows(routes: map<Peer, Route>, done: set<Peer>, n: Peer)
    ensures Upto(routes, done + {n}) ==
            if n in routes then Upto(routes, done)[n := routes[n]] else Upto(routes, done)
  {
  }

  /** One more candidate changes the incumbent and the starved set by itself. */
  lemma OneMoreIncumbent(s: Sources, key: RouteKey, routes: map<Peer, Route>, n: Peer, r: Route, before: Selection,
                         p: Pass)
    requires n !in routes
    ensures Incumbent(s, key, routes[n := r], before, p) ==
            if before.Via? && before.peer == n && Usable(s, key, routes[n := r], n, p)
            then Some(n) else Incumbent(s, key, routes, before, p)
  {
  }

  lemma OneMoreUnfeasible(s: Sources, key: RouteKey, routes: map<Peer, Route>, n: Peer, r: Route, p: Pass)
    requires n !in routes
    ensures Unfeasible(s, key, routes[n := r], p) ==
            if Cost(r, p.links(n)) != INFINITY && !Usable(s, key, routes[n := r], n, p)
            then Unfeasible(s, key, routes, p) + {n} else Unfeasible(s, key, routes, p)
  {
    var t := routes[n := r];
    forall m ensures m in Unfeasible(s, key, t, p) <==>
                     m in Unfeasible(s, key, routes, p)
                     || (m == n && Cost(r, p.links(n)) != INFINITY && !Usable(s, key, t, n, p)) {
    }
  }

  lemma OneMoreExpiry(was: Time, at: Time, routes: map<Peer, Route>, n: Peer, r: Route)
    requires MinimumKept(was, at, routes) && n !in routes
    ensures MinimumKept(was, Earlier(at, r.expiresAt), routes[n := r])
  {
    var t := routes[n := r];
    if Earlier(at, r.expiresAt) == r.expiresAt {
      assert n in t && t[n].expiresAt == r.expiresAt;
    } else if at != was {
      var m :| m in routes && at == routes[m].expiresAt;
      assert m in t && at == t[m].expiresAt;
    }
  }

  // ----- one prefix after a pass -----

  /** With its last route gone, so is its entry. */
  function Put(entries: map<RouteKey, Entry>, key: RouteKey, e: Entry): map<RouteKey, Entry> {
    if e.routes == map[] then entries - {key} else entries[key := e]
  }

  /** Only a changed next hop changes what is forwarded, until the entry itself
      goes and the hold with it. */
  function HopAfter(was: Option<Hop>, before: Selection, next: Entry): Option<Hop> {
    if next.routes == map[] then None
    else if before.Via? == next.selected.Via? && (before.Via? ==> before.peer == next.selected.peer) then was
    else Some(if next.selected.Via? then To(next.selected.peer) else Unreachable)
  }

  function Refer(forwarding: map<RouteKey, Hop>, key: RouteKey, was: Selection, e: Entry): map<RouteKey, Hop> {
    var hop := HopAfter(if key in forwarding then Some(forwarding[key]) else None, was, e);
    if hop.Some? then forwarding[key := hop.value] else forwarding - {key}
  }

  function Mark(dirty: set<RouteKey>, key: RouteKey, was: Selection, e: Entry, trigger: U16): set<RouteKey> {
    if Significant(was, e.selected, trigger) || e.routes == map[] then dirty + {key} else dirty
  }

  /** Section 3.7.2: what earns a triggered update. */
  predicate Significant(was: Selection, now: Selection, trigger: U16) {
    if was.NoRoute? || now.NoRoute? then was.Via? || now.Via?
    else if was.peer != now.peer || was.id != now.id || was.seqno != now.seqno then true
    else now.cost > was.cost && now.cost - was.cost >= trigger
  }

  function RequestTo(s: Sources, key: RouteKey, n: Peer, adv: Advertisement): StarveRequest {
    StarveRequest(key, n, adv.id, RequestSeqno(s, key, adv))
  }

  /** What a prefix that lost its selection asks for: the next number, of every
      neighbor whose route for it is not feasible. */
  ghost function Wanted(s: Sources, key: RouteKey, was: Selection, e: Entry, p: Pass): set<StarveRequest> {
    if was.Via? && e.selected.NoRoute?
    then set n | n in Unfeasible(s, key, e.routes, p) :: RequestTo(s, key, n, e.routes[n].Advertised())
    else {}
  }

  /** `now` extends `was` by each of these requests once, in some order. */
  ghost predicate Asked(was: seq<StarveRequest>, now: seq<StarveRequest>, requests: set<StarveRequest>) {
    was <= now && multiset(now[|was|..]) == multiset(requests)
  }

  lemma AskOneMore(was: seq<StarveRequest>, now: seq<StarveRequest>, requests: set<StarveRequest>, r: StarveRequest)
    requires Asked(was, now, requests) && r !in requests
    ensures Asked(was, now + [r], requests + {r})
  {
    var more := now + [r];
    assert more[|was|..] == now[|was|..] + [r];
  }

  lemma AskMore(was: seq<StarveRequest>, mid: seq<StarveRequest>, now: seq<StarveRequest>, first: set<StarveRequest>,
                last: set<StarveRequest>)
    requires Asked(was, mid, first) && Asked(mid, now, last) && first !! last
    ensures Asked(was, now, first + last)
  {
    assert now[|was|..] == mid[|was|..] + now[|mid|..];
    assert multiset(first + last) == multiset(first) + multiset(last);
  }

  // ----- acquisition, section 3.5.3 -----

  /** The hold of section 3.5.4 starts when the route is first retracted and
      runs for the interval of the update it replaces. */
  function Acquire(r: Route, adv: Advertisement, hold: Time, now: Time): Route {
    var t := r.(id := adv.id, seqno := adv.seqno, rx := adv.metric);
    if adv.metric != INFINITY then t.(hold := hold, expiresAt := now + hold)
    else if r.rx != INFINITY && r.hold > 0 then t.(expiresAt := now + r.hold)
    else t
  }

  /** A neighbor's next word about a prefix is taken if it has one already, or
      if the update is feasible, finite, lasting and there is room for it. */
  ghost predicate Admits(s: Sources, entries: map<RouteKey, Entry>, n: Peer, key: RouteKey, adv: Advertisement,
                         hold: Time)
  {
    || (key in entries && n in entries[key].routes)
    || (&& FeasibleIn(s, key, adv, n) && adv.metric != INFINITY && hold > 0
        && (key in entries || |entries| < MAX_ROUTE_KEYS))
  }

  function Acquired(entries: map<RouteKey, Entry>, n: Peer, key: RouteKey, adv: Advertisement, hold: Time,
                    now: Time): Entry
  {
    var e := if key in entries then entries[key] else Entry(map[], NoRoute, 0, 0);
    var r := if n in e.routes then e.routes[n] else FRESH_ROUTE;
    e.(routes := e.routes[n := Acquire(r, adv, hold, now)])
  }

  // ----- changes that walk the whole table -----

  datatype Edit = Sweep | Recompute(peer: Peer) | Expire(peer: Peer) | Retract(peer: Peer)

  predicate Touches(edit: Edit, e: Entry) {
    edit.Sweep? || edit.peer in e.routes
  }

  function Edited(edit: Edit, e: Entry, now: Time): Entry {
    match edit
    case Sweep => e
    case Recompute(_) => e
    case Expire(n) => e.(routes := e.routes - {n})
    case Retract(n) =>
      if n !in e.routes then e
      else
        var r := e.routes[n];
        var t := if r.rx != INFINITY && r.hold > 0 then r.(expiresAt := now + r.hold) else r;
        e.(routes := e.routes[n := t.(rx := INFINITY)])
  }

  // ----- steps, one prefix at a time -----

  ghost predicate KeySame(b: Tables, a: Tables, k: RouteKey) {
    a.EntryAt(k) == b.EntryAt(k) && a.HopAt(k) == b.HopAt(k)
  }

  ghost predicate Covers(at: Time, e: Entry) {
    forall n | n in e.routes :: NotLater(at, e.routes[n].expiresAt)
  }

  ghost predicate Became(b: Tables, a: Tables, k: RouteKey, before: Selection, next: Entry) {
    && a.EntryAt(k) == (if next.routes == map[] then None else Some(next))
    && a.HopAt(k) == HopAfter(b.HopAt(k), before, next)
    && Covers(a.at, next)
  }

  /** The prefix has been through one selection starting from `e`. */
  ghost predicate KeySelected(s: Sources, b: Tables, a: Tables, k: RouteKey, e: Entry, p: Pass) {
    exists next :: SelectStep(s, k, e, next, p) && Became(b, a, k, e.selected, next)
  }

  ghost predicate UpdateStep(s: Sources, b: Tables, a: Tables, n: Peer, key: RouteKey, adv: Advertisement, hold: Time,
                             p: Pass)
  {
    && NotLater(a.at, b.at)
    && (forall k | k != key :: KeySame(b, a, k))
    && (if Admits(s, b.entries, n, key, adv, hold)
        then KeySelected(s, b, a, key, Acquired(b.entries, n, key, adv, hold, p.now), p)
        else a == b)
  }

  ghost predicate Walked(s: Sources, edit: Edit, b: Tables, a: Tables, k: RouteKey, p: Pass) {
    if k in b.entries && Touches(edit, b.entries[k])
    then KeySelected(s, b, a, k, Edited(edit, b.entries[k], p.now), p)
    else KeySame(b, a, k)
  }

  /** Every touched prefix is edited and selected again; no other moves. */
  ghost predicate WalkStep(s: Sources, edit: Edit, b: Tables, a: Tables, p: Pass) {
    NotLater(a.at, b.at) && forall k: RouteKey :: Walked(s, edit, b, a, k, p)
  }

  // ----- what a step leaves to be told and asked -----

  /** The prefix owes an update: its selection moved enough, or its entry went. */
  ghost predicate Stirred(a: Tables, k: RouteKey, was: Selection, trigger: U16) {
    k !in a.entries || Significant(was, a.entries[k].selected, trigger)
  }

  ghost function Needs(s: Sources, a: Tables, k: RouteKey, was: Selection, p: Pass): set<StarveRequest> {
    if k in a.entries then Wanted(s, k, was, a.entries[k], p) else {}
  }

  ghost predicate WalkStirs(edit: Edit, b: Tables, a: Tables, k: RouteKey, trigger: U16) {
    k in b.entries && Touches(edit, b.entries[k]) && Stirred(a, k, b.entries[k].selected, trigger)
  }

  ghost function WalkNeedsAt(s: Sources, edit: Edit, b: Tables, a: Tables, k: RouteKey, p: Pass): set<StarveRequest> {
    if k in b.entries && Touches(edit, b.entries[k]) then Needs(s, a, k, b.entries[k].selected, p) else {}
  }

  ghost function WalkNeeds(s: Sources, edit: Edit, b: Tables, a: Tables, todo: set<RouteKey>,
                           p: Pass): set<StarveRequest>
  {
    set k, r | k in b.entries && k !in todo && r in WalkNeedsAt(s, edit, b, a, k, p) :: r
  }

  /** What the table owes: prefixes to tell of, and numbers to ask for. */
  datatype Owed = Owed(dirty: set<RouteKey>, starved: seq<StarveRequest>)

  /** A walk marks exactly the prefixes it stirred, and asks once for exactly what
      those that lost their selection need. */
  ghost predicate Told(s: Sources, edit: Edit, b: Tables, a: Tables, trigger: U16, before: Owed, now: Owed, p: Pass) {
    && (forall k: RouteKey :: k in now.dirty <==> k in before.dirty || WalkStirs(edit, b, a, k, trigger))
    && Asked(before.starved, now.starved, WalkNeeds(s, edit, b, a, {}, p))
  }

  /** An acquisition marks its prefix if that was stirred. It asks the selected
      neighbor for a newer number when its update is not feasible, section
      3.8.2.2, before it asks as any prefix that lost its selection does. */
  ghost predicate UpdateTold(s: Sources, b: Tables, a: Tables, n: Peer, key: RouteKey, adv: Advertisement, hold: Time,
                             trigger: U16, before: Owed, now: Owed, p: Pass)
  {
    if !Admits(s, b.entries, n, key, adv, hold) then now == before
    else
      var was := Acquired(b.entries, n, key, adv, hold, p.now).selected;
      var asking := !FeasibleIn(s, key, adv, n) && was.Via? && was.peer == n;
      && now.dirty == (if Stirred(a, key, was, trigger) then before.dirty + {key} else before.dirty)
      && Asked(before.starved + (if asking then [RequestTo(s, key, n, adv)] else []), now.starved,
               Needs(s, a, key, was, p))
  }

  lemma NeedsStand(s: Sources, edit: Edit, b: Tables, m: Tables, a: Tables, k: RouteKey, p: Pass)
    requires KeySame(m, a, k)
    ensures WalkNeedsAt(s, edit, b, a, k, p) == WalkNeedsAt(s, edit, b, m, k, p)
  {
  }

  lemma NeedsAreNamed(s: Sources, edit: Edit, b: Tables, a: Tables, k: RouteKey, p: Pass)
    ensures forall r | r in WalkNeedsAt(s, edit, b, a, k, p) :: r.key == k
  {
  }

  lemma WalkNeedsGrow(s: Sources, edit: Edit, b: Tables, m: Tables, a: Tables, key: RouteKey, todo: set<RouteKey>,
                      p: Pass)
    requires key in todo && key in b.entries && forall k | k != key :: KeySame(m, a, k)
    ensures WalkNeeds(s, edit, b, a, todo - {key}, p) ==
            WalkNeeds(s, edit, b, m, todo, p) + WalkNeedsAt(s, edit, b, a, key, p)
    ensures WalkNeeds(s, edit, b, m, todo, p) !! WalkNeedsAt(s, edit, b, a, key, p)
  {
    forall k | k != key ensures WalkNeedsAt(s, edit, b, a, k, p) == WalkNeedsAt(s, edit, b, m, k, p) {
      NeedsStand(s, edit, b, m, a, k, p);
    }
    forall k ensures forall r | r in WalkNeedsAt(s, edit, b, m, k, p) :: r.key == k {
      NeedsAreNamed(s, edit, b, m, k, p);
    }
    NeedsAreNamed(s, edit, b, a, key, p);
  }

  // ----- what every step keeps -----

  ghost predicate KeepsRetraction(e: Entry, retracted: set<Peer>) {
    forall n | n in e.routes && n in retracted :: e.routes[n].rx == INFINITY
  }

  ghost predicate Timed(e: Entry) {
    forall n | n in e.routes :: e.routes[n].expiresAt > 0 && e.routes[n].hold >= 0
  }

  /** A prefix is forwarded to a neighbor exactly when its entry selects that
      neighbor, on a route sound against the recorded distances. */
  ghost predicate KeyCore(s: Sources, t: Tables, k: RouteKey, retracted: set<Peer>) {
    match t.EntryAt(k)
    case None => t.HopAt(k) != None ==> t.HopAt(k) == Some(Unreachable)
    case Some(e) =>
      && e.routes != map[] && SelectionSound(s, k, e) && KeepsRetraction(e, retracted) && Timed(e)
      && (if e.selected.Via? then t.HopAt(k) == Some(To(e.selected.peer))
          else t.HopAt(k) != None ==> t.HopAt(k) == Some(Unreachable))
  }

  /** The kept deadline is no later than any route of the prefix. */
  ghost predicate KeyOk(s: Sources, t: Tables, k: RouteKey, retracted: set<Peer>) {
    KeyCore(s, t, k, retracted) && (k in t.entries ==> Covers(t.at, t.entries[k]))
  }

  ghost predicate TableOk(s: Sources, t: Tables, retracted: set<Peer>) {
    forall k: RouteKey :: KeyOk(s, t, k, retracted)
  }

  lemma AgingKeeps(r: Route, n: Peer, p: Pass)
    requires p.now > 0 && r.hold >= 0
    ensures var t := Stepped(r, p.links(n), p);
            t.Some? ==>
              && t.value.hold == r.hold && t.value.id == r.id && t.value.seqno == r.seqno
              && (t.value.rx == r.rx || t.value.rx == INFINITY)
              && t.value.expiresAt > 0
  {
  }

  /** What an entry must bring to a selection for the result to be sound. */
  ghost predicate Selectable(b: Tables, k: RouteKey, e: Entry, retracted: set<Peer>) {
    && KeepsRetraction(e, retracted) && (forall n | n in e.routes :: e.routes[n].hold >= 0)
    && (if e.selected.Via? then b.HopAt(k) == Some(To(e.selected.peer))
        else b.HopAt(k) != None ==> b.HopAt(k) == Some(Unreachable))
  }

  lemma PassKeepsRoutes(e: Entry, p: Pass, retracted: set<Peer>)
    requires p.now > 0 && KeepsRetraction(e, retracted) && forall n | n in e.routes :: e.routes[n].hold >= 0
    ensures forall n | n in AfterPass(e.routes, p) ::
              var r := AfterPass(e.routes, p)[n];
              r.expiresAt > 0 && r.hold >= 0 && (n in retracted ==> r.rx == INFINITY)
  {
    forall n | n in AfterPass(e.routes, p)
      ensures var r := AfterPass(e.routes, p)[n];
              r.expiresAt > 0 && r.hold >= 0 && (n in retracted ==> r.rx == INFINITY)
    {
      AgingKeeps(e.routes[n], n, p);
    }
  }

  /** A selection leaves its prefix sound, timed, covered and forwarded. */
  lemma SelectionKeepsKey(s: Sources, b: Tables, a: Tables, k: RouteKey, e: Entry, p: Pass, retracted: set<Peer>)
    requires KeySelected(s, b, a, k, e, p) && p.now > 0 && Selectable(b, k, e, retracted)
    ensures KeyOk(s, a, k, retracted)
  {
    var next :| SelectStep(s, k, e, next, p) && Became(b, a, k, e.selected, next);
    SelectStepIsSound(s, k, e, next, p);
    PassKeepsRoutes(e, p, retracted);
  }

  lemma AcquiredIsSelectable(s: Sources, b: Tables, n: Peer, key: RouteKey, adv: Advertisement, hold: Time, now: Time,
                             retracted: set<Peer>)
    requires KeyOk(s, b, key, retracted) && hold >= 0
    ensures Selectable(b, key, Acquired(b.entries, n, key, adv, hold, now),
                       if adv.metric != INFINITY then retracted - {n} else retracted)
  {
  }

  lemma EditedIsSelectable(s: Sources, b: Tables, k: RouteKey, edit: Edit, now: Time, retracted: set<Peer>)
    requires k in b.entries && KeyCore(s, b, k, retracted)
    ensures Selectable(b, k, Edited(edit, b.entries[k], now), retracted)
    ensures edit.Retract? ==> Selectable(b, k, Edited(edit, b.entries[k], now), retracted + {edit.peer})
  {
  }

  /** Acquisition keeps the table. */
  lemma UpdateKeepsTable(s: Sources, b: Tables, a: Tables, n: Peer, key: RouteKey, adv: Advertisement, hold: Time,
                         p: Pass, retracted: set<Peer>)
    requires TableOk(s, b, retracted) && p.now > 0 && hold >= 0
    requires UpdateStep(s, b, a, n, key, adv, hold, p)
    ensures TableOk(s, a, if adv.metric != INFINITY then retracted - {n} else retracted)
  {
    var left := if adv.metric != INFINITY then retracted - {n} else retracted;
    forall k: RouteKey ensures KeyOk(s, a, k, left) {
      assert KeyOk(s, b, k, retracted);
      if k != key {
        assert KeySame(b, a, k);
      } else if Admits(s, b.entries, n, key, adv, hold) {
        AcquiredIsSelectable(s, b, n, key, adv, hold, p.now, retracted);
        SelectionKeepsKey(s, b, a, key, Acquired(b.entries, n, key, adv, hold, p.now), p, left);
      }
    }
  }

  /** A walk keeps the table, whatever it edits, and makes a kept deadline that
      had gone stale for the touched prefixes good again. */
  lemma WalkKeepsTable(s: Sources, edit: Edit, b: Tables, a: Tables, p: Pass, retracted: set<Peer>)
    requires WalkStep(s, edit, b, a, p) && p.now > 0
    requires forall k: RouteKey :: KeyCore(s, b, k, retracted)
    requires forall k | k in b.entries && !Touches(edit, b.entries[k]) :: Covers(b.at, b.entries[k])
    ensures TableOk(s, a, if edit.Retract? then retracted + {edit.peer} else retracted)
  {
    var grown := if edit.Retract? then retracted + {edit.peer} else retracted;
    forall k: RouteKey ensures KeyOk(s, a, k, grown) {
      assert KeyCore(s, b, k, retracted) && Walked(s, edit, b, a, k, p);
      if k in b.entries && Touches(edit, b.entries[k]) {
        EditedIsSelectable(s, b, k, edit, p.now, retracted);
        SelectionKeepsKey(s, b, a, k, Edited(edit, b.entries[k], p.now), p, grown);
      }
    }
  }

  /** Forgetting old distances, and recording what the selected route says, both
      leave every selection sound. */
  lemma SweepKeepsTable(s: Sources, t: Tables, retracted: set<Peer>, now: Time)
    requires TableOk(s, t, retracted)
    ensures TableOk(Swept(s, now), t, retracted)
  {
    forall k: RouteKey ensures KeyOk(Swept(s, now), t, k, retracted) {
      assert KeyOk(s, t, k, retracted);
    }
  }

  lemma AdvertisingKeepsTable(s: Sources, t: Tables, retracted: set<Peer>, key: RouteKey, adv: Advertisement,
                              from: Peer, now: Time)
    requires TableOk(s, t, retracted)
    requires key in t.entries ==> t.entries[key].selected.Via? && adv == SelectedAdvert(t.entries[key].selected)
    ensures TableOk(Observed(s, key, adv, from, now), t, retracted)
  {
    forall k: RouteKey ensures KeyOk(Observed(s, key, adv, from, now), t, k, retracted) {
      assert KeyOk(s, t, k, retracted);
    }
  }

  /** Some route of this prefix is due exactly then. */
  ghost predicate DueAt(at: Time, t: Tables, k: RouteKey) {
    k in t.entries && exists n :: n in t.entries[k].routes && t.entries[k].routes[n].expiresAt == at
  }

  /** The kept deadline is a real one, outside the prefixes still to be walked. */
  ghost predicate Attained(t: Tables, todo: set<RouteKey>) {
    exists k :: k !in todo && DueAt(t.at, t, k)
  }

  /** After a sweep that starts from no deadline at all, the kept one is exactly
      the earliest expiry in the table. */
  lemma SweepMakesTheMinimumExact(s: Sources, t: Tables, retracted: set<Peer>)
    requires TableOk(s, t, retracted) && (t.at == 0 || Attained(t, {}))
    ensures t.at == 0 <==> t.entries == map[]
    ensures forall k, n | k in t.entries && n in t.entries[k].routes :: 0 < t.at <= t.entries[k].routes[n].expiresAt
    ensures t.at != 0 ==> exists k :: DueAt(t.at, t, k)
  {
    forall k, n | k in t.entries && n in t.entries[k].routes ensures 0 < t.at <= t.entries[k].routes[n].expiresAt {
      assert KeyOk(s, t, k, retracted);
      var j :| DueAt(t.at, t, j);
      assert KeyOk(s, t, j, retracted);
    }
    if t.entries != map[] {
      var k :| k in t.entries;
      assert KeyOk(s, t, k, retracted);
      var n :| n in t.entries[k].routes;
    }
  }

  // ----- whole runs -----

  datatype Snapshot = Snapshot(sources: Sources, table: Tables, retracted: set<Peer>)

  datatype Event =
    | Learned(peer: Peer, key: RouteKey, adv: Advertisement, hold: Time)
    | LinkChanged(peer: Peer)
    | PeerGone(peer: Peer)
    | PeerRetracted(peer: Peer)
    | TimePassed
    | Said(key: RouteKey, adv: Advertisement, from: Peer)
    | Originated(key: RouteKey)
    | Unoriginated(key: RouteKey)

  ghost predicate WalkTo(x: Snapshot, y: Snapshot, edit: Edit, start: Time, p: Pass) {
    WalkStep(x.sources, edit, x.table.(at := start), y.table, p)
  }

  /** One operation of the table: what it does and to what. */
  ghost predicate Step(x: Snapshot, y: Snapshot, ev: Event, p: Pass) {
    p.now > 0 &&
    match ev
    case Learned(n, key, adv, hold) =>
      && hold >= 0 && y.sources == x.sources
      && UpdateStep(x.sources, x.table, y.table, n, key, adv, hold, p)
      && y.retracted == (if adv.metric != INFINITY then x.retracted - {n} else x.retracted)
    case LinkChanged(n) =>
      y.sources == x.sources && y.retracted == x.retracted && WalkTo(x, y, Recompute(n), x.table.at, p)
    case PeerGone(n) =>
      y.sources == x.sources && y.retracted == x.retracted - {n} && WalkTo(x, y, Expire(n), x.table.at, p)
    case PeerRetracted(n) =>
      if n in x.retracted then y == x
      else y.sources == x.sources && y.retracted == x.retracted + {n} && WalkTo(x, y, Retract(n), x.table.at, p)
    case TimePassed =>
      && y.sources == Swept(x.sources, p.now) && y.retracted == x.retracted
      && WalkTo(x, y, Sweep, 0, p) && (y.table.at == 0 || Attained(y.table, {}))
    case Said(key, adv, from) =>
      && (key in x.table.entries ==>
            x.table.entries[key].selected.Via? && adv == SelectedAdvert(x.table.entries[key].selected))
      && y == x.(sources := Observed(x.sources, key, adv, from, p.now))
    case Originated(key) =>
      y == x.(table := x.table.(
                entries := x.table.entries - {key}, forwarding := x.table.forwarding[key := Unreachable]))
    case Unoriginated(key) =>
      && key !in x.table.entries
      && y == x.(table := x.table.(forwarding := x.table.forwarding - {key}))
  }

  /** Only an acquisition brings a prefix into the table, and an origination takes one out. */
  lemma StepKeys(x: Snapshot, y: Snapshot, ev: Event, p: Pass)
    requires Step(x, y, ev, p)
    ensures y.table.entries.Keys <= x.table.entries.Keys + (if ev.Learned? then {ev.key} else {})
    ensures ev.Originated? ==> ev.key !in y.table.entries
  {
    forall k | k in y.table.entries && !(ev.Learned? && k == ev.key)
      ensures k in x.table.entries
    {
      match ev
      case Learned(_, _, _, _) => assert KeySame(x.table, y.table, k);
      case LinkChanged(n) => assert Walked(x.sources, Recompute(n), x.table, y.table, k, p);
      case PeerGone(n) => assert Walked(x.sources, Expire(n), x.table, y.table, k, p);
      case PeerRetracted(n) =>
        if n !in x.retracted {
          assert Walked(x.sources, Retract(n), x.table, y.table, k, p);
        }
      case TimePassed => assert Walked(x.sources, Sweep, x.table.(at := 0), y.table, k, p);
      case _ =>
    }
  }

  ghost predicate SnapshotOk(x: Snapshot) {
    TableOk(x.sources, x.table, x.retracted)
  }

  lemma FewerRetractedIsFine(s: Sources, t: Tables, more: set<Peer>, fewer: set<Peer>)
    requires TableOk(s, t, more) && fewer <= more
    ensures TableOk(s, t, fewer)
  {
    forall k: RouteKey ensures KeyOk(s, t, k, fewer) {
      assert KeyOk(s, t, k, more);
    }
  }

  lemma WalkKeepsSnapshot(x: Snapshot, y: Snapshot, edit: Edit, start: Time, p: Pass)
    requires SnapshotOk(x) && p.now > 0 && WalkTo(x, y, edit, start, p)
    requires edit.Sweep? || start == x.table.at
    ensures TableOk(x.sources, y.table, if edit.Retract? then x.retracted + {edit.peer} else x.retracted)
  {
    var b := x.table.(at := start);
    forall k: RouteKey ensures KeyCore(x.sources, b, k, x.retracted) {
      assert KeyOk(x.sources, x.table, k, x.retracted);
    }
    forall k | k in b.entries && !Touches(edit, b.entries[k]) ensures Covers(b.at, b.entries[k]) {
      assert KeyOk(x.sources, x.table, k, x.retracted);
    }
    WalkKeepsTable(x.sources, edit, b, y.table, p, x.retracted);
  }

  lemma OriginationKeepsTable(x: Snapshot, y: Snapshot, ev: Event, p: Pass)
    requires SnapshotOk(x) && Step(x, y, ev, p) && (ev.Originated? || ev.Unoriginated?)
    ensures SnapshotOk(y)
  {
    forall k: RouteKey ensures KeyOk(y.sources, y.table, k, y.retracted) {
      assert KeyOk(x.sources, x.table, k, x.retracted);
    }
  }

  lemma StepKeepsTable(x: Snapshot, y: Snapshot, ev: Event, p: Pass)
    requires SnapshotOk(x) && Step(x, y, ev, p)
    ensures SnapshotOk(y)
  {
    match ev
    case Learned(n, key, adv, hold) =>
      UpdateKeepsTable(x.sources, x.table, y.table, n, key, adv, hold, p, x.retracted);
    case LinkChanged(n) => WalkKeepsSnapshot(x, y, Recompute(n), x.table.at, p);
    case PeerGone(n) =>
      WalkKeepsSnapshot(x, y, Expire(n), x.table.at, p);
      FewerRetractedIsFine(y.sources, y.table, x.retracted, y.retracted);
    case PeerRetracted(n) =>
      if n !in x.retracted {
        WalkKeepsSnapshot(x, y, Retract(n), x.table.at, p);
      }
    case TimePassed =>
      WalkKeepsSnapshot(x, y, Sweep, 0, p);
      SweepKeepsTable(x.sources, y.table, x.retracted, p.now);
    case Said(key, adv, from) =>
      AdvertisingKeepsTable(x.sources, x.table, x.retracted, key, adv, from, p.now);
    case Originated(_) => OriginationKeepsTable(x, y, ev, p);
    case Unoriginated(_) => OriginationKeepsTable(x, y, ev, p);
  }

  /** In every state a table can reach, each selection is sound against the
      recorded distances, the forwarding table follows it, a remembered wildcard
      retraction still holds, and the kept deadline is never late. */
  lemma {:induction false} EveryRunKeepsTheTable(run: seq<Snapshot>, evs: seq<Event>, ps: seq<Pass>)
    requires |run| == |evs| + 1 == |ps| + 1
    requires run[0] == Snapshot(map[], Tables(map[], map[], 0), {})
    requires forall i | 0 <= i < |evs| :: Step(run[i], run[i + 1], evs[i], ps[i])
    ensures forall i | 0 <= i < |run| :: SnapshotOk(run[i])
  {
    if evs == [] {
    } else {
      var last := |evs| - 1;
      EveryRunKeepsTheTable(run[..|evs|], evs[..last], ps[..last]);
      assert run[..|evs|][last] == run[last];
      assert SnapshotOk(run[..|evs|][last]);
      StepKeepsTable(run[last], run[last + 1], evs[last], ps[last]);
      forall i | 0 <= i < |run| ensures SnapshotOk(run[i]) {
        if i < |evs| {
          assert SnapshotOk(run[..|evs|][i]);
        }
      }
    }
  }

  /** A wildcard retraction leaves no finite route from that neighbor, whether
      the table was walked or the repeat was only remembered. */
  lemma RetractionTakesHold(x: Snapshot, y: Snapshot, n: Peer, p: Pass)
    requires SnapshotOk(x) && Step(x, y, PeerRetracted(n), p)
    ensures forall k | k in y.table.entries && n in y.table.entries[k].routes ::
              y.table.entries[k].routes[n].rx == INFINITY
    ensures forall k | k in y.table.entries && y.table.entries[k].selected.Via? ::
              y.table.entries[k].selected.peer != n
  {
    StepKeepsTable(x, y, PeerRetracted(n), p);
    forall k | k in y.table.entries
      ensures n in y.table.entries[k].routes ==> y.table.entries[k].routes[n].rx == INFINITY
      ensures y.table.entries[k].selected.Via? ==> y.table.entries[k].selected.peer != n
    {
      assert KeyOk(y.sources, y.table, k, y.retracted);
    }
  }
}
