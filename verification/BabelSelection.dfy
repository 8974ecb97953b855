/** Route selection (RFC 8966 sections 3.5.2 to 3.6 and Appendix A.3): what one
    pass over the candidates of one prefix has to decide. */
module BabelSelection {
  import opened BabelOrder
  import opened BabelSources
  import opened Wrappers
  import opened Deadlines

  /** One candidate, as one neighbor offered it. The zero time is "never". */
  datatype Route = Route(
    id: RouterId, seqno: U16, rx: U16, hold: Time, expiresAt: Time,
    smoothed: real, smoothedAt: Time)
  {
    function Advertised(): Advertisement { Advertisement(id, seqno, rx) }
  }

  const FRESH_ROUTE := Route(0, 0, 0, 0, 0, 0.0, 0)

  datatype Selection = NoRoute | Via(peer: Peer, cost: U16, id: RouterId, seqno: U16)

  datatype Entry = Entry(
    routes: map<Peer, Route>, selected: Selection, retractId: RouterId, retractSeqno: U16)

  /** What the clock, the links and the configuration contribute to a pass. The
      damping factor stands for exp(-elapsed/tau). */
  datatype Pass = Pass(now: Time, links: Peer -> U16, tau: Time, decay: Time -> real)

  function SaturatingAdd(a: U16, b: U16): (r: U16)
    ensures r == INFINITY <==> a == INFINITY || b == INFINITY || a + b >= INFINITY
    ensures r != INFINITY ==> r == a + b
  {
    if a == INFINITY || b == INFINITY || a + b >= INFINITY then INFINITY else a + b
  }

  /** Metrics add like numbers with infinity on top: in any order and grouping, never
      below either part, and no smaller for a larger part. */
  lemma SaturatingSums(a: U16, b: U16, c: U16)
    ensures SaturatingAdd(a, b) == SaturatingAdd(b, a)
    ensures SaturatingAdd(SaturatingAdd(a, b), c) == SaturatingAdd(a, SaturatingAdd(b, c))
    ensures a <= SaturatingAdd(a, b)
    ensures b <= c ==> SaturatingAdd(a, b) <= SaturatingAdd(a, c)
  {
  }

  /** The metric of a route here. The link costs at least one, so a finite
      result is strictly above the metric received; it is never below the cost of
      the link, and infinite over a link that is. */
  function Cost(r: Route, link: U16): (c: U16)
    ensures c != INFINITY ==> r.rx < c
    ensures link <= c && (link == INFINITY || r.rx == INFINITY ==> c == INFINITY)
  {
    SaturatingAdd(if link < 1 then 1 else link, r.rx)
  }

  function AtLeastOne(link: U16): U16 {
    if link < 1 then 1 else link
  }

  /** Over a dearer link, or from a larger metric, a route costs more, and a finite cost
      is nothing but the two. */
  lemma CostFollowsBoth(r: Route, q: Route, near: U16, far: U16)
    requires r.rx <= q.rx && near <= far
    ensures Cost(r, near) <= Cost(q, far)
    ensures Cost(q, far) != INFINITY && AtLeastOne(near) + r.rx < AtLeastOne(far) + q.rx ==>
      Cost(r, near) < Cost(q, far)
    ensures Cost(r, near) != INFINITY <==> near != INFINITY && r.rx != INFINITY && AtLeastOne(near) + r.rx < INFINITY
    ensures Cost(r, near) != INFINITY ==> Cost(r, near) - r.rx == AtLeastOne(near)
  {
  }

  function Smooth(r: Route, cost: U16, p: Pass): Route {
    var c := cost as real;
    var elapsed := p.now - r.smoothedAt;
    var s :=
      if r.smoothedAt == 0 || p.tau <= 0 || c >= r.smoothed then c
      else if elapsed > 0 then c + (r.smoothed - c) * p.decay(elapsed)
      else r.smoothed;
    r.(smoothed := if s < c then c else s, smoothedAt := p.now)
  }

  /** An increase is followed at once and an improvement only in part. */
  lemma SmoothingOnlyDampsImprovement(r: Route, cost: U16, p: Pass)
    requires p.now > 0 && forall t: Time :: 0.0 <= p.decay(t) <= 1.0
    ensures var s := Smooth(r, cost, p).smoothed;
            && cost as real <= s
            && (r.smoothedAt != 0 && cost as real < r.smoothed ==> s <= r.smoothed)
            && (r.smoothedAt == 0 || p.tau <= 0 || r.smoothed <= cost as real ==> s == cost as real)
  {
    var gap, d := r.smoothed - cost as real, p.decay(p.now - r.smoothedAt);
    if gap > 0.0 {
      assert 0.0 <= gap * d <= gap;
    }
  }

  /** What an exponential does: it damps, and damping twice is damping for the sum. */
  ghost predicate Exponential(decay: Time -> real) {
    (forall t: Time :: 0.0 < decay(t) <= 1.0) && forall t: Time, u: Time | t > 0 && u > 0 :: AddsUp(decay, t, u)
  }

  predicate AddsUp(decay: Time -> real, t: Time, u: Time) {
    decay(t + u) == decay(t) * decay(u)
  }

  /** One pass damps what the cost improved by, so never takes all of it. */
  lemma SmoothOnce(r: Route, cost: U16, p: Pass)
    requires p.decay(p.now - r.smoothedAt) > 0.0 && p.tau > 0 && 0 < r.smoothedAt < p.now
    ensures var gap, s := r.smoothed - cost as real, Smooth(r, cost, p);
      && s == r.(smoothed := s.smoothed, smoothedAt := p.now)
      && if gap > 0.0 then s.smoothed == cost as real + gap * p.decay(p.now - r.smoothedAt) > cost as real
         else s.smoothed == cost as real
  {
    var gap := r.smoothed - cost as real;
    if gap > 0.0 {
      StaysAbove(gap, p.decay(p.now - r.smoothedAt));
    }
  }

  lemma StaysAbove(gap: real, d: real)
    requires gap > 0.0 && d > 0.0
    ensures gap * d > 0.0
  {}

  /** A pass in between changes nothing. */
  lemma PassInBetween(r: Route, cost: U16, p: Pass, q: Pass)
    requires p.decay == q.decay && Exponential(p.decay) && p.tau > 0 && q.tau > 0
    requires 0 < r.smoothedAt < p.now < q.now
    ensures Smooth(Smooth(r, cost, p), cost, q) == Smooth(r, cost, q)
  {
    var gap, near, far := r.smoothed - cost as real, p.now - r.smoothedAt, q.now - p.now;
    SmoothOnce(r, cost, p);
    SmoothOnce(r, cost, q);
    SmoothOnce(Smooth(r, cost, p), cost, q);
    if gap > 0.0 {
      assert AddsUp(p.decay, near, far);
      Regroup(gap, p.decay(near), p.decay(far));
    }
  }

  lemma Regroup(a: real, b: real, c: real)
    ensures a * b * c == a * (b * c)
  {}

  function SmoothedBy(r: Route, cost: U16, ps: seq<Pass>): Route {
    if ps == [] then r else Smooth(SmoothedBy(r, cost, ps[..|ps| - 1]), cost, ps[|ps| - 1])
  }

  /** Passes one after another, under one configuration. */
  ghost predicate OneAfterAnother(since: Time, decay: Time -> real, ps: seq<Pass>) {
    ps == [] ||
    var n := |ps| - 1;
    && ps[n].decay == decay && ps[n].tau > 0 && (if n == 0 then since else ps[n - 1].now) < ps[n].now
    && OneAfterAnother(since, decay, ps[..n])
  }

  /** At one cost, however many passes are made, the last alone decides. */
  lemma {:induction false} OnlyTheLastPassCounts(r: Route, cost: U16, decay: Time -> real, ps: seq<Pass>)
    requires ps != [] && Exponential(decay) && r.smoothedAt > 0 && OneAfterAnother(r.smoothedAt, decay, ps)
    ensures SmoothedBy(r, cost, ps) == Smooth(r, cost, ps[|ps| - 1]) && r.smoothedAt < ps[|ps| - 1].now
  {
    var n := |ps| - 1;
    if n == 0 {
      assert ps[..0] == [];
    } else {
      OnlyTheLastPassCounts(r, cost, decay, ps[..n]);
      PassInBetween(r, cost, ps[n - 1], ps[n]);
    }
  }

  /** A route expires to infinity first and is flushed by its next expiry. */
  function Aged(r: Route, now: Time): Option<Route> {
    if now < r.expiresAt then Some(r)
    else if r.rx == INFINITY then None
    else Some(r.(rx := INFINITY, expiresAt := now + r.hold))
  }

  function Stepped(r: Route, link: U16, p: Pass): Option<Route> {
    match Aged(r, p.now)
    case None => None
    case Some(a) => Some(if Cost(a, link) == INFINITY then a else Smooth(a, Cost(a, link), p))
  }

  function AfterPass(routes: map<Peer, Route>, p: Pass): map<Peer, Route> {
    map n | n in routes && Stepped(routes[n], p.links(n), p).Some? :: Stepped(routes[n], p.links(n), p).value
  }

  function CostOf(routes: map<Peer, Route>, n: Peer, p: Pass): U16
    requires n in routes
  {
    Cost(routes[n], p.links(n))
  }

  /** Unexpired, finite and feasible. */
  ghost predicate Usable(s: Sources, key: RouteKey, routes: map<Peer, Route>, n: Peer, p: Pass) {
    && n in routes
    && CostOf(routes, n, p) != INFINITY
    && FeasibleIn(s, key, routes[n].Advertised(), n)
  }

  predicate Cheaper(routes: map<Peer, Route>, a: Peer, b: Peer, p: Pass)
    requires a in routes && b in routes
  {
    CostOf(routes, a, p) < CostOf(routes, b, p) || (CostOf(routes, a, p) == CostOf(routes, b, p) && Precedes(a, b))
  }

  /** The minimum by cost and then by name. */
  ghost predicate IsBest(s: Sources, key: RouteKey, routes: map<Peer, Route>, b: Peer, p: Pass) {
    && Usable(s, key, routes, b, p)
    && forall m | m in routes && m != b && Usable(s, key, routes, m, p) :: Cheaper(routes, b, m, p)
  }

  function SelectionFor(routes: map<Peer, Route>, n: Peer, p: Pass): Selection
    requires n in routes
  {
    Via(n, CostOf(routes, n, p), routes[n].id, routes[n].seqno)
  }

  /** The incumbent is left only for a challenger better on both metrics. */
  ghost function Settle(s: Sources, key: RouteKey, routes: map<Peer, Route>, before: Selection, b: Peer,
                        p: Pass): Selection
    requires Usable(s, key, routes, b, p)
  {
    if !before.Via? || !Usable(s, key, routes, before.peer, p) || b == before.peer then
      SelectionFor(routes, b, p)
    else
      var inc := before.peer;
      if CostOf(routes, b, p) < CostOf(routes, inc, p) && routes[b].smoothed < routes[inc].smoothed
      then SelectionFor(routes, b, p)
      else SelectionFor(routes, inc, p)
  }

  ghost predicate IsChoice(s: Sources, key: RouteKey, routes: map<Peer, Route>, before: Selection, p: Pass,
                           sel: Selection)
  {
    || (sel == NoRoute && forall n | n in routes :: !Usable(s, key, routes, n, p))
    || exists b :: IsBest(s, key, routes, b, p) && sel == Settle(s, key, routes, before, b, p)
  }

  /** One run of the selection procedure on one prefix. */
  ghost predicate SelectStep(s: Sources, key: RouteKey, e: Entry, e': Entry, p: Pass) {
    && e'.routes == AfterPass(e.routes, p)
    && IsChoice(s, key, e'.routes, e.selected, p, e'.selected)
    && (if e'.selected.Via?
        then e'.retractId == e'.selected.id && e'.retractSeqno == e'.selected.seqno
        else e'.retractId == e.retractId && e'.retractSeqno == e.retractSeqno)
  }

  // ----- what a choice means -----

  /** Nothing is chosen exactly when no unexpired, finite, feasible candidate
      exists; whatever is chosen is one of them, at a cost strictly above the
      metric received; and no candidate is cheaper unless hysteresis kept the
      incumbent. */
  lemma ChoiceIsRight(s: Sources, key: RouteKey, routes: map<Peer, Route>, before: Selection, p: Pass, sel: Selection)
    requires IsChoice(s, key, routes, before, p, sel)
    ensures sel == NoRoute <==> forall n | n in routes :: !Usable(s, key, routes, n, p)
    ensures sel.Via? ==>
              && Usable(s, key, routes, sel.peer, p)
              && sel == SelectionFor(routes, sel.peer, p)
              && routes[sel.peer].rx < sel.cost < INFINITY
    ensures sel.Via? && !(before.Via? && before.peer == sel.peer) ==>
              forall n | Usable(s, key, routes, n, p) && n != sel.peer :: Cheaper(routes, sel.peer, n, p)
    ensures sel.Via? && before.Via? && Usable(s, key, routes, before.peer, p) && sel.peer != before.peer ==>
              && sel.cost < CostOf(routes, before.peer, p)
              && routes[sel.peer].smoothed < routes[before.peer].smoothed
    ensures sel.Via? && before.Via? && sel.peer == before.peer ==>
              forall b | IsBest(s, key, routes, b, p) && b != sel.peer ::
                CostOf(routes, b, p) >= sel.cost || routes[b].smoothed >= routes[sel.peer].smoothed
  {
    if sel.Via? {
      var b :| IsBest(s, key, routes, b, p) && sel == Settle(s, key, routes, before, b, p);
      forall a | IsBest(s, key, routes, a, p) ensures a == b {
        BestIsUnique(s, key, routes, a, b, p);
      }
    }
  }

  lemma BestIsUnique(s: Sources, key: RouteKey, routes: map<Peer, Route>, a: Peer, b: Peer, p: Pass)
    requires IsBest(s, key, routes, a, p) && IsBest(s, key, routes, b, p)
    ensures a == b
  {
    PrecedesIsTotal(a, b);
  }

  /** The order the candidates are visited in cannot affect the choice. */
  lemma ChoiceIsUnique(s: Sources, key: RouteKey, routes: map<Peer, Route>, before: Selection, p: Pass, x: Selection,
                       y: Selection)
    requires IsChoice(s, key, routes, before, p, x) && IsChoice(s, key, routes, before, p, y)
    ensures x == y
  {
    ChoiceIsRight(s, key, routes, before, p, x);
    ChoiceIsRight(s, key, routes, before, p, y);
    if x.Via? && y.Via? {
      var a :| IsBest(s, key, routes, a, p) && x == Settle(s, key, routes, before, a, p);
      var b :| IsBest(s, key, routes, b, p) && y == Settle(s, key, routes, before, b, p);
      BestIsUnique(s, key, routes, a, b, p);
    }
  }

  // ----- finding the minimum one candidate at a time -----

  ghost predicate BestAmong(s: Sources, key: RouteKey, routes: map<Peer, Route>, done: set<Peer>, best: Option<Peer>,
                            p: Pass)
  {
    match best
    case None => forall m | m in done :: !Usable(s, key, routes, m, p)
    case Some(b) =>
      && b in done && Usable(s, key, routes, b, p)
      && forall m | m in done && m != b && Usable(s, key, routes, m, p) :: Cheaper(routes, b, m, p)
  }

  /** A candidate that beats the best so far becomes it, and no other does. */
  lemma NextCandidate(s: Sources, key: RouteKey, routes: map<Peer, Route>, done: set<Peer>, best: Option<Peer>,
                      n: Peer, p: Pass)
    requires BestAmong(s, key, routes, done, best, p) && n !in done
    ensures var wins := Usable(s, key, routes, n, p) && (best.None? || Cheaper(routes, n, best.value, p));
            BestAmong(s, key, routes, done + {n}, if wins then Some(n) else best, p)
  {
    if Usable(s, key, routes, n, p) && best.Some? {
      PrecedesIsTotal(n, best.value);
      if Cheaper(routes, n, best.value, p) {
        forall m | m in done && m != best.value && Usable(s, key, routes, m, p) ensures Cheaper(routes, n, m, p) {
          if Precedes(n, best.value) && Precedes(best.value, m) {
            PrecedesIsTransitive(n, best.value, m);
          }
        }
      }
    }
  }

  /** The selected route is never worse than what this node has recorded. */
  ghost predicate SelectionSound(s: Sources, key: RouteKey, e: Entry) {
    e.selected.Via? ==>
      && e.selected.peer in e.routes
      && var r := e.routes[e.selected.peer];
         && r.id == e.selected.id && r.seqno == e.selected.seqno
         && r.rx < e.selected.cost < INFINITY
         && var i := SourceKey(key, r.id);
            i in s ==> Better(r.Advertised().Claim(), s[i].distance)
  }

  lemma SelectStepIsSound(s: Sources, key: RouteKey, e: Entry, e': Entry, p: Pass)
    requires SelectStep(s, key, e, e', p)
    ensures SelectionSound(s, key, e')
  {
    ChoiceIsRight(s, key, e'.routes, e.selected, p, e'.selected);
  }

  /** What this node says about a prefix it has selected a route for. */
  function SelectedAdvert(sel: Selection): Advertisement
    requires sel.Via?
  {
    Advertisement(sel.id, sel.seqno, sel.cost)
  }

  /** Advertising the selected route lowers the recorded distance and still
      leaves that route feasible, whatever else is recorded. */
  lemma AdvertisingKeepsTheRouteFeasible(s: Sources, key: RouteKey, e: Entry, from: Peer, now: Time)
    requires SelectionSound(s, key, e) && e.selected.Via?
    ensures var t := Observed(s, key, SelectedAdvert(e.selected), from, now);
            && SelectionSound(t, key, e)
            && FeasibleIn(t, key, e.routes[e.selected.peer].Advertised(), e.selected.peer)
  {
  }

  /** Advertising one source leaves the routes of every other as they were. */
  lemma AdvertisingSparesOtherSources(s: Sources, key: RouteKey, adv: Advertisement, from: Peer, now: Time,
                                      other: RouteKey, e: Entry)
    requires SelectionSound(s, other, e)
    requires other != key || (e.selected.Via? && e.selected.id != adv.id)
    ensures SelectionSound(Observed(s, key, adv, from, now), other, e)
  {
  }
}
