/** A network of speakers with stale, duplicated, reordered and lost Updates in
    flight, and why its routes for one source never form a loop.

    One source is a (prefix, router-id) pair. Two things are assumed of a run,
    and both are written into it: the sequence numbers of the source that are
    alive in one state lie in a half circle (Window), and no distance is
    collected while a route or an Update built on it is still about
    (CollectsNothingInUse). No step restarts a node. */
module BabelNetwork {
  import opened BabelOrder
  import opened BabelSources
  import opened BabelSelection
  import opened BabelTable
  import opened Deadlines
  import opened Wrappers

  datatype Node = Node(id: RouterId, transit: bool, snap: Snapshot, originate: set<RouteKey>, seqno: U16)

  datatype Msg = Msg(from: Peer, to: Peer, key: RouteKey, adv: Advertisement, hold: Time)

  datatype Net = Net(nodes: map<Peer, Node>, flight: set<Msg>)

  // ----- what a node says -----

  /** The Update a node builds for a prefix toward one neighbor: its own
      origination, its selected route, or a retraction, which split horizon
      makes of a route that points back at that neighbor. */
  function AdvertisementFor(x: Node, to: Peer, key: RouteKey): Advertisement {
    if key in x.originate then Advertisement(x.id, x.seqno, 0)
    else if !x.transit then Advertisement(x.id, x.seqno, INFINITY)
    else if key in x.snap.table.entries && x.snap.table.entries[key].selected.Via? then
      var adv := SelectedAdvert(x.snap.table.entries[key].selected);
      if x.snap.table.entries[key].selected.peer == to then adv.(metric := INFINITY) else adv
    else if key in x.snap.table.entries then
      Advertisement(x.snap.table.entries[key].retractId, x.snap.table.entries[key].retractSeqno, INFINITY)
    else Advertisement(x.id, x.seqno, INFINITY)
  }

  /** The neighbor a distance is charged to. */
  function SelectedPeer(x: Node, key: RouteKey): Peer {
    if key in x.snap.table.entries && x.snap.table.entries[key].selected.Via?
    then x.snap.table.entries[key].selected.peer else ""
  }

  // ----- steps -----

  datatype Move =
    | Deliver(m: Msg)
    | Drop(m: Msg)
    | Advertise(x: Peer, to: Peer, key: RouteKey, hold: Time)
    | Local(x: Peer, ev: Event)
    | RaiseSeqno(x: Peer)

  ghost predicate LocalEvent(ev: Event) {
    !ev.Learned? && !ev.Said?
  }

  /** A node takes in an Update unless the prefix is its own or the router-id
      is, which only a reflection of its own word carries. */
  ghost predicate Receives(x: Node, x': Node, m: Msg, p: Pass) {
    if m.key in x.originate || m.adv.id == x.id then x' == x
    else x' == x.(snap := x'.snap) && Step(x.snap, x'.snap, Learned(m.from, m.key, m.adv, m.hold), p)
  }

  ghost predicate Speaks(x: Node, x': Node, adv: Advertisement, key: RouteKey, p: Pass) {
    if adv.metric == INFINITY then x' == x
    else x' == x.(snap := x'.snap) && Step(x.snap, x'.snap, Said(key, adv, SelectedPeer(x, key)), p)
  }

  ghost predicate Changes(x: Node, x': Node, ev: Event, p: Pass) {
    && Step(x.snap, x'.snap, ev, p) && x'.id == x.id && x'.transit == x.transit && x'.seqno == x.seqno
    && x'.originate == (match ev
                        case Originated(key) => x.originate + {key}
                        case Unoriginated(key) => x.originate - {key}
                        case _ => x.originate)
  }

  ghost predicate NetStep(a: Net, b: Net, mv: Move, p: Pass) {
    match mv
    case Deliver(m) =>
      && m in a.flight && m.to in a.nodes && m.to in b.nodes
      && Receives(a.nodes[m.to], b.nodes[m.to], m, p)
      && b == Net(a.nodes[m.to := b.nodes[m.to]], a.flight)
    case Drop(m) => b == a.(flight := a.flight - {m})
    case Advertise(x, to, key, hold) =>
      && x in a.nodes && x in b.nodes && hold >= 0
      && var adv := AdvertisementFor(a.nodes[x], to, key);
      && Speaks(a.nodes[x], b.nodes[x], adv, key, p)
      && b == Net(a.nodes[x := b.nodes[x]], a.flight + {Msg(x, to, key, adv, hold)})
    case Local(x, ev) =>
      && x in a.nodes && x in b.nodes && LocalEvent(ev)
      && Changes(a.nodes[x], b.nodes[x], ev, p)
      && b == a.(nodes := a.nodes[x := b.nodes[x]])
    case RaiseSeqno(x) =>
      && x in a.nodes
      && b == a.(nodes := a.nodes[x := a.nodes[x].(seqno := (a.nodes[x].seqno + 1) % 0x1_0000)])
  }

  // ----- the assumptions -----

  ghost predicate LiveRoute(net: Net, x: Peer, y: Peer, src: SourceKey) {
    && x in net.nodes && src.route in net.nodes[x].snap.table.entries
    && y in net.nodes[x].snap.table.entries[src.route].routes
    && var r := net.nodes[x].snap.table.entries[src.route].routes[y];
       r.id == src.id && r.rx != INFINITY
  }

  function RouteOf(net: Net, x: Peer, y: Peer, src: SourceKey): Route
    requires LiveRoute(net, x, y, src)
  {
    net.nodes[x].snap.table.entries[src.route].routes[y]
  }

  predicate LiveMsg(m: Msg, src: SourceKey) {
    m.key == src.route && m.adv.id == src.id && m.adv.metric != INFINITY
  }

  predicate HasDistance(net: Net, x: Peer, src: SourceKey) {
    x in net.nodes && src in net.nodes[x].snap.sources
  }

  function DistanceOf(net: Net, x: Peer, src: SourceKey): Distance
    requires HasDistance(net, x, src)
  {
    net.nodes[x].snap.sources[src].distance
  }

  /** Every sequence number of the source that is alive lies in one half of the
      circle. */
  ghost predicate Window(net: Net, src: SourceKey, base: U16) {
    && (forall x | HasDistance(net, x, src) :: InHalf(DistanceOf(net, x, src).seqno, base))
    && (forall m | m in net.flight && LiveMsg(m, src) :: InHalf(m.adv.seqno, base))
    && (forall x, y | LiveRoute(net, x, y, src) :: InHalf(RouteOf(net, x, y, src).seqno, base))
    && (forall x | x in net.nodes && net.nodes[x].id == src.id :: InHalf(net.nodes[x].seqno, base))
  }

  /** A distance goes only when nothing built on it is left. */
  ghost predicate CollectsNothingInUse(a: Net, b: Net, src: SourceKey) {
    forall x | HasDistance(a, x, src) && !HasDistance(b, x, src) ::
      && (forall m | m in a.flight && LiveMsg(m, src) :: m.from != x)
      && (forall y :: !LiveRoute(a, y, x, src))
  }

  // ----- the invariant -----

  /** The node has recorded a distance at least as good as `d`. */
  ghost predicate Recorded(net: Net, x: Peer, src: SourceKey, d: Distance) {
    HasDistance(net, x, src) && AtLeastAsGood(DistanceOf(net, x, src), d)
  }

  ghost predicate NodeOk(x: Node) {
    SnapshotOk(x.snap) && x.originate !! x.snap.table.entries.Keys
  }

  ghost predicate NodesOk(net: Net) {
    forall x | x in net.nodes :: NodeOk(net.nodes[x])
  }

  /** Whatever a node has said about the source, in flight or already taken in
      by a neighbor, it has recorded as well or better. */
  ghost predicate SaidIsRecorded(net: Net, src: SourceKey) {
    && (forall m | m in net.flight && LiveMsg(m, src) :: Recorded(net, m.from, src, m.adv.Claim()))
    && (forall x, y | LiveRoute(net, x, y, src) ::
          Recorded(net, y, src, RouteOf(net, x, y, src).Advertised().Claim()))
  }

  // ----- a step keeps every node -----

  lemma NodeStepKeeps(x: Node, x': Node, ev: Event, p: Pass)
    requires NodeOk(x) && Step(x.snap, x'.snap, ev, p)
    requires ev.Learned? ==> ev.key !in x.originate && x'.originate == x.originate
    requires ev.Said? ==> x'.originate == x.originate
    requires LocalEvent(ev) ==> Changes(x, x', ev, p)
    ensures NodeOk(x')
  {
    StepKeepsTable(x.snap, x'.snap, ev, p);
    StepKeys(x.snap, x'.snap, ev, p);
  }

  /** A finite route after a selection was there, saying the same, before it. */
  lemma SelectionInventsNoRoute(s: Sources, b: Tables, a: Tables, k: RouteKey, e: Entry, p: Pass, n: Peer)
    requires KeySelected(s, b, a, k, e, p) && k in a.entries && n in a.entries[k].routes
    requires a.entries[k].routes[n].rx != INFINITY
    ensures n in e.routes && e.routes[n].Advertised() == a.entries[k].routes[n].Advertised()
  {
    var next :| SelectStep(s, k, e, next, p) && Became(b, a, k, e.selected, next);
    assert a.EntryAt(k) == Some(next);
  }

  lemma WalkInventsNoRoute(s: Sources, edit: Edit, b: Tables, a: Tables, k: RouteKey, p: Pass, n: Peer)
    requires Walked(s, edit, b, a, k, p) && k in a.entries && n in a.entries[k].routes
    requires a.entries[k].routes[n].rx != INFINITY
    ensures k in b.entries && n in b.entries[k].routes
    ensures b.entries[k].routes[n].Advertised() == a.entries[k].routes[n].Advertised()
  {
    if k in b.entries && Touches(edit, b.entries[k]) {
      SelectionInventsNoRoute(s, b, a, k, Edited(edit, b.entries[k], p.now), p, n);
    } else {
      assert a.EntryAt(k) == b.EntryAt(k);
    }
  }

  ghost predicate HadRoute(x: Snapshot, k: RouteKey, n: Peer, adv: Advertisement) {
    && k in x.table.entries && n in x.table.entries[k].routes
    && x.table.entries[k].routes[n].Advertised() == adv
  }

  /** Every finite route a node holds was held before the step or is the Update
      the step took in. */
  lemma RoutesAreOldOrLearned(x: Snapshot, y: Snapshot, ev: Event, p: Pass, k: RouteKey, n: Peer)
    requires Step(x, y, ev, p) && k in y.table.entries && n in y.table.entries[k].routes
    requires y.table.entries[k].routes[n].rx != INFINITY
    ensures var adv := y.table.entries[k].routes[n].Advertised();
            HadRoute(x, k, n, adv) || (ev.Learned? && ev.key == k && ev.peer == n && ev.adv == adv)
  {
    match ev
    case Learned(peer, key, adv, hold) =>
      if k != key {
        assert KeySame(x.table, y.table, k) && y.table.EntryAt(k) == x.table.EntryAt(k);
      } else if Admits(x.sources, x.table.entries, peer, key, adv, hold) {
        var e := Acquired(x.table.entries, peer, key, adv, hold, p.now);
        SelectionInventsNoRoute(x.sources, x.table, y.table, k, e, p, n);
      }
    case LinkChanged(q) => WalkInventsNoRoute(x.sources, Recompute(q), x.table, y.table, k, p, n);
    case PeerGone(q) => WalkInventsNoRoute(x.sources, Expire(q), x.table, y.table, k, p, n);
    case PeerRetracted(q) =>
      if q !in x.retracted {
        WalkInventsNoRoute(x.sources, Retract(q), x.table, y.table, k, p, n);
      }
    case TimePassed => WalkInventsNoRoute(x.sources, Sweep, x.table.(at := 0), y.table, k, p, n);
    case Said(_, _, _) =>
    case Originated(_) =>
    case Unoriginated(_) =>
  }

  // ----- what is recorded stays recorded -----

  /** The distances of the source that remain have only improved. */
  ghost predicate Improves(a: Net, b: Net, src: SourceKey, base: U16) {
    forall x | HasDistance(a, x, src) && HasDistance(b, x, src) ::
      AtLeastAsGood(DistanceOf(b, x, src), DistanceOf(a, x, src)) && InHalf(DistanceOf(b, x, src).seqno, base)
  }

  lemma StillRecorded(a: Net, b: Net, src: SourceKey, x: Peer, d: Distance, base: U16)
    requires Recorded(a, x, src, d) && HasDistance(b, x, src)
    requires Improves(a, b, src, base) && Window(a, src, base) && InHalf(d.seqno, base)
    ensures Recorded(b, x, src, d)
  {
    BetterIsStrictOrder(DistanceOf(b, x, src), DistanceOf(a, x, src), d, base);
  }

  /** The sequence number a node speaks with is alive already. */
  lemma SpeaksWithinTheWindow(a: Net, x: Peer, to: Peer, src: SourceKey, base: U16)
    requires x in a.nodes && NodeOk(a.nodes[x]) && Window(a, src, base)
    requires var adv := AdvertisementFor(a.nodes[x], to, src.route); adv.id == src.id && adv.metric != INFINITY
    ensures InHalf(AdvertisementFor(a.nodes[x], to, src.route).seqno, base)
  {
    if src.route !in a.nodes[x].originate {
      assert KeyOk(a.nodes[x].snap.sources, a.nodes[x].snap.table, src.route, a.nodes[x].snap.retracted);
      var y := a.nodes[x].snap.table.entries[src.route].selected.peer;
      assert LiveRoute(a, x, y, src);
      assert InHalf(RouteOf(a, x, y, src).seqno, base);
    }
  }

  lemma StepImproves(a: Net, b: Net, mv: Move, p: Pass, src: SourceKey, base: U16)
    requires NodesOk(a) && NetStep(a, b, mv, p) && Window(a, src, base)
    ensures Improves(a, b, src, base)
  {
    forall x | HasDistance(a, x, src) && HasDistance(b, x, src)
      ensures AtLeastAsGood(DistanceOf(b, x, src), DistanceOf(a, x, src)) && InHalf(DistanceOf(b, x, src).seqno, base)
    {
      if mv.Advertise? && mv.x == x && mv.key == src.route {
        var adv := AdvertisementFor(a.nodes[x], mv.to, mv.key);
        if adv.id == src.id && adv.metric != INFINITY {
          SpeaksWithinTheWindow(a, x, mv.to, src, base);
        }
      }
    }
  }

  /** What is in use is not collected, so it is still recorded. */
  lemma InUseStaysRecorded(a: Net, b: Net, src: SourceKey, base: U16)
    requires SaidIsRecorded(a, src) && Window(a, src, base)
    requires Improves(a, b, src, base) && CollectsNothingInUse(a, b, src)
    ensures forall m | m in a.flight && LiveMsg(m, src) :: Recorded(b, m.from, src, m.adv.Claim())
    ensures forall x, y | LiveRoute(a, x, y, src) ::
              Recorded(b, y, src, RouteOf(a, x, y, src).Advertised().Claim())
  {
    forall m | m in a.flight && LiveMsg(m, src) ensures Recorded(b, m.from, src, m.adv.Claim()) {
      StillRecorded(a, b, src, m.from, m.adv.Claim(), base);
    }
    forall x, y | LiveRoute(a, x, y, src)
      ensures Recorded(b, y, src, RouteOf(a, x, y, src).Advertised().Claim())
    {
      StillRecorded(a, b, src, y, RouteOf(a, x, y, src).Advertised().Claim(), base);
    }
  }

  /** A live route after a step was live before it, or is a live Update the step
      delivered. */
  lemma RouteComesFrom(a: Net, b: Net, mv: Move, p: Pass, src: SourceKey, x: Peer, y: Peer)
    requires NetStep(a, b, mv, p) && LiveRoute(b, x, y, src)
    ensures || (LiveRoute(a, x, y, src) && RouteOf(a, x, y, src).Advertised() == RouteOf(b, x, y, src).Advertised())
            || (mv.Deliver? && mv.m in a.flight && LiveMsg(mv.m, src) && mv.m.from == y
                && mv.m.adv == RouteOf(b, x, y, src).Advertised())
  {
    if a.nodes[x] != b.nodes[x] && !mv.RaiseSeqno? {
      var ev := match mv
        case Deliver(m) => Learned(m.from, m.key, m.adv, m.hold)
        case Advertise(x, to, key, _) => Said(key, AdvertisementFor(a.nodes[x], to, key), SelectedPeer(a.nodes[x], key))
        case Local(_, ev) => ev
        case _ => TimePassed;
      assert Step(a.nodes[x].snap, b.nodes[x].snap, ev, p);
      RoutesAreOldOrLearned(a.nodes[x].snap, b.nodes[x].snap, ev, p, src.route, y);
    }
  }

  /** An Update is on record before it leaves. */
  lemma NewMessageIsRecorded(a: Net, b: Net, mv: Move, p: Pass, src: SourceKey, m: Msg, base: U16)
    requires NodesOk(a) && NetStep(a, b, mv, p) && Window(a, src, base)
    requires m in b.flight && m !in a.flight && LiveMsg(m, src)
    ensures Recorded(b, m.from, src, m.adv.Claim())
  {
    SpeaksWithinTheWindow(a, mv.x, mv.to, src, base);
    if HasDistance(a, mv.x, src) {
      BetterIsStrictOrder(m.adv.Claim(), DistanceOf(a, mv.x, src), m.adv.Claim(), base);
    }
  }

  /** One step keeps the invariant of the source. */
  lemma StepKeepsRecord(a: Net, b: Net, mv: Move, p: Pass, src: SourceKey, base: U16)
    requires NodesOk(a) && SaidIsRecorded(a, src) && NetStep(a, b, mv, p)
    requires Window(a, src, base) && CollectsNothingInUse(a, b, src)
    ensures SaidIsRecorded(b, src)
  {
    StepImproves(a, b, mv, p, src, base);
    InUseStaysRecorded(a, b, src, base);
    forall m | m in b.flight && LiveMsg(m, src) ensures Recorded(b, m.from, src, m.adv.Claim()) {
      if m !in a.flight {
        NewMessageIsRecorded(a, b, mv, p, src, m, base);
      }
    }
    forall x, y | LiveRoute(b, x, y, src)
      ensures Recorded(b, y, src, RouteOf(b, x, y, src).Advertised().Claim())
    {
      RouteComesFrom(a, b, mv, p, src, x, y);
    }
  }

  lemma StepKeepsNodes(a: Net, b: Net, mv: Move, p: Pass)
    requires NodesOk(a) && NetStep(a, b, mv, p)
    ensures NodesOk(b)
  {
    forall x | x in b.nodes ensures NodeOk(b.nodes[x]) {
      assert NodeOk(a.nodes[x]);
      if a.nodes[x] != b.nodes[x] && !mv.RaiseSeqno? {
        match mv
        case Deliver(m) => NodeStepKeeps(a.nodes[x], b.nodes[x], Learned(m.from, m.key, m.adv, m.hold), p);
        case Advertise(_, to, key, _) =>
          var said := Said(key, AdvertisementFor(a.nodes[x], to, key), SelectedPeer(a.nodes[x], key));
          NodeStepKeeps(a.nodes[x], b.nodes[x], said, p);
        case Local(_, ev) => NodeStepKeeps(a.nodes[x], b.nodes[x], ev, p);
        case Drop(_) =>
      }
    }
  }

  // ----- no loops -----

  /** The next hop a node forwards this source's traffic to. */
  ghost predicate Successor(net: Net, src: SourceKey, x: Peer, y: Peer) {
    && x in net.nodes
    && var t := net.nodes[x].snap.table;
       && src.route in t.entries && src.route in t.forwarding
       && t.forwarding[src.route] == To(y)
       && t.entries[src.route].selected.Via? && t.entries[src.route].selected.id == src.id
  }

  /** Along a next hop the recorded distance strictly improves. */
  lemma DistanceDescends(net: Net, src: SourceKey, x: Peer, y: Peer, base: U16)
    requires NodesOk(net) && SaidIsRecorded(net, src) && Window(net, src, base) && Successor(net, src, x, y)
    ensures HasDistance(net, y, src)
    ensures HasDistance(net, x, src) ==> Better(DistanceOf(net, y, src), DistanceOf(net, x, src))
  {
    assert KeyOk(net.nodes[x].snap.sources, net.nodes[x].snap.table, src.route, net.nodes[x].snap.retracted);
    assert LiveRoute(net, x, y, src);
    var said := RouteOf(net, x, y, src).Advertised().Claim();
    assert Recorded(net, y, src, said);
    if HasDistance(net, x, src) {
      BetterIsStrictOrder(DistanceOf(net, y, src), said, DistanceOf(net, x, src), base);
    }
  }

  ghost predicate IsPath(net: Net, src: SourceKey, path: seq<Peer>) {
    |path| >= 2 && forall i | 0 <= i < |path| - 1 :: Successor(net, src, path[i], path[i + 1])
  }

  lemma {:induction false} PathDescends(net: Net, src: SourceKey, path: seq<Peer>, base: U16)
    requires NodesOk(net) && SaidIsRecorded(net, src) && Window(net, src, base) && IsPath(net, src, path)
    ensures HasDistance(net, path[|path| - 1], src)
    ensures HasDistance(net, path[0], src) ==>
              Better(DistanceOf(net, path[|path| - 1], src), DistanceOf(net, path[0], src))
    decreases |path|
  {
    DistanceDescends(net, src, path[0], path[1], base);
    if |path| <= 2 {
    } else {
      var rest := path[1..];
      forall i | 0 <= i < |rest| - 1 ensures Successor(net, src, rest[i], rest[i + 1]) {
        assert Successor(net, src, path[i + 1], path[i + 1 + 1]);
      }
      PathDescends(net, src, rest, base);
      if HasDistance(net, path[0], src) {
        BetterIsStrictOrder(
          DistanceOf(net, path[|path| - 1], src), DistanceOf(net, path[1], src), DistanceOf(net, path[0], src), base);
      }
    }
  }

  /** The successor graph of the source has no cycle. */
  ghost predicate LoopFree(net: Net, src: SourceKey) {
    forall path | IsPath(net, src, path) :: path[0] != path[|path| - 1]
  }

  lemma NoLoops(net: Net, src: SourceKey, base: U16)
    requires NodesOk(net) && SaidIsRecorded(net, src) && Window(net, src, base)
    ensures LoopFree(net, src)
  {
    forall path | IsPath(net, src, path) ensures path[0] != path[|path| - 1] {
      PathDescends(net, src, path, base);
      if path[0] == path[|path| - 1] {
        var d := DistanceOf(net, path[0], src);
        BetterIsStrictOrder(d, d, d, base);
      }
    }
  }

  ghost predicate Initial(net: Net) {
    && net.flight == {}
    && forall x | x in net.nodes ::
         net.nodes[x].snap == Snapshot(map[], Tables(map[], map[], 0), {}) && net.nodes[x].originate == {}
  }

  ghost predicate Run(run: seq<Net>, mvs: seq<Move>, ps: seq<Pass>, bases: seq<U16>, src: SourceKey) {
    && |run| == |mvs| + 1 == |ps| + 1 == |bases|
    && Initial(run[0])
    && (forall i | 0 <= i < |run| :: Window(run[i], src, bases[i]))
    && (forall i | 0 <= i < |mvs| :: NetStep(run[i], run[i + 1], mvs[i], ps[i]))
    && (forall i | 0 <= i < |mvs| :: CollectsNothingInUse(run[i], run[i + 1], src))
  }

  lemma {:induction false} RunKeepsRecord(run: seq<Net>, mvs: seq<Move>, ps: seq<Pass>, bases: seq<U16>,
                                          src: SourceKey, i: nat)
    requires Run(run, mvs, ps, bases, src) && i < |run|
    ensures NodesOk(run[i]) && SaidIsRecorded(run[i], src)
  {
    if i > 0 {
      RunKeepsRecord(run, mvs, ps, bases, src, i - 1);
      StepKeepsNodes(run[i - 1], run[i], mvs[i - 1], ps[i - 1]);
      StepKeepsRecord(run[i - 1], run[i], mvs[i - 1], ps[i - 1], src, bases[i - 1]);
    } else {
      forall x | x in run[0].nodes ensures NodeOk(run[0].nodes[x]) {
      }
    }
  }

  /** In every state of every run, whatever was delayed, repeated, reordered or
      lost, no node's traffic for the source can come back to it. */
  lemma EveryRunIsLoopFree(run: seq<Net>, mvs: seq<Move>, ps: seq<Pass>, bases: seq<U16>, src: SourceKey, i: nat)
    requires Run(run, mvs, ps, bases, src) && i < |run|
    ensures LoopFree(run[i], src)
    ensures forall x, y | Successor(run[i], src, x, y) && HasDistance(run[i], x, src) ::
              HasDistance(run[i], y, src) && Better(DistanceOf(run[i], y, src), DistanceOf(run[i], x, src))
  {
    RunKeepsRecord(run, mvs, ps, bases, src, i);
    NoLoops(run[i], src, bases[i]);
    forall x, y | Successor(run[i], src, x, y) && HasDistance(run[i], x, src)
      ensures HasDistance(run[i], y, src) && Better(DistanceOf(run[i], y, src), DistanceOf(run[i], x, src))
    {
      DistanceDescends(run[i], src, x, y, bases[i]);
    }
  }

  // ----- who may say what to whom -----

  /** A node may offer a prefix to a neighbor: one it originates, or one it relays and
      forwards to somebody else. */
  ghost predicate Entitled(x: Node, to: Peer, key: RouteKey) {
    || key in x.originate
    || (x.transit && exists z :: z != to && x.snap.table.HopAt(key) == Some(To(z)))
  }

  /** What is said is finite exactly then. Its own prefix a node offers at no cost; a
      relayed one under its origin's router-id and number, at more than it was given. */
  lemma OffersExactlyWhenEntitled(x: Node, to: Peer, key: RouteKey)
    requires NodeOk(x)
    ensures AdvertisementFor(x, to, key).metric != INFINITY <==> Entitled(x, to, key)
    ensures key in x.originate ==> AdvertisementFor(x, to, key) == Advertisement(x.id, x.seqno, 0)
    ensures Entitled(x, to, key) && key !in x.originate ==>
      && key in x.snap.table.entries && SelectedPeer(x, key) in x.snap.table.entries[key].routes
      && SelectedPeer(x, key) != to && x.snap.table.HopAt(key) == Some(To(SelectedPeer(x, key)))
      && var r := x.snap.table.entries[key].routes[SelectedPeer(x, key)];
         && AdvertisementFor(x, to, key).id == r.id && AdvertisementFor(x, to, key).seqno == r.seqno
         && r.rx < AdvertisementFor(x, to, key).metric
  {
    assert KeyOk(x.snap.sources, x.snap.table, key, x.snap.retracted);
  }

  /** Anything else is a retraction: of a relayed prefix that lost its route, under the
      router-id and number kept for that; of one that leads back, under its own; of any
      other, under this node's. */
  lemma RetractionCarries(x: Node, to: Peer, key: RouteKey)
    requires NodeOk(x) && !Entitled(x, to, key)
    ensures var adv := AdvertisementFor(x, to, key);
      && adv.metric == INFINITY
      && (if x.transit && key in x.snap.table.entries
          then var e := x.snap.table.entries[key];
               if e.selected.Via? then e.selected.peer == to && adv.id == e.selected.id && adv.seqno == e.selected.seqno
               else adv.id == e.retractId && adv.seqno == e.retractSeqno
          else adv.id == x.id && adv.seqno == x.seqno)
  {
    assert KeyOk(x.snap.sources, x.snap.table, key, x.snap.retracted);
    OffersExactlyWhenEntitled(x, to, key);
  }

  /** A message is one its sender builds in this state of itself. */
  ghost predicate SaidIn(net: Net, m: Msg) {
    && m.from in net.nodes && m.adv == AdvertisementFor(net.nodes[m.from], m.to, m.key)
    && (m.adv.metric != INFINITY <==> Entitled(net.nodes[m.from], m.to, m.key))
  }

  lemma NewMessageIsEntitled(a: Net, b: Net, mv: Move, p: Pass, m: Msg)
    requires NodesOk(a) && NetStep(a, b, mv, p) && m in b.flight && m !in a.flight
    ensures SaidIn(a, m)
  {
    assert NodeOk(a.nodes[m.from]);
    OffersExactlyWhenEntitled(a.nodes[m.from], m.to, m.key);
  }

  /** Any run at all, with nothing assumed of it. */
  ghost predicate History(run: seq<Net>, mvs: seq<Move>, ps: seq<Pass>) {
    && |run| == |mvs| + 1 == |ps| + 1 && Initial(run[0])
    && forall i | 0 <= i < |mvs| :: NetStep(run[i], run[i + 1], mvs[i], ps[i])
  }

  lemma {:induction false} HistoryKeepsNodes(run: seq<Net>, mvs: seq<Move>, ps: seq<Pass>, i: nat)
    requires History(run, mvs, ps) && i < |run|
    ensures NodesOk(run[i])
  {
    if i == 0 {
      forall x | x in run[0].nodes ensures NodeOk(run[0].nodes[x]) {
      }
    } else {
      HistoryKeepsNodes(run, mvs, ps, i - 1);
      StepKeepsNodes(run[i - 1], run[i], mvs[i - 1], ps[i - 1]);
    }
  }

  /** Every message about in a run was built at some moment of it by a sender that, if it
      is an offer, was then entitled to make it, and otherwise was not. */
  lemma {:induction false} EveryMessageWasEntitled(run: seq<Net>, mvs: seq<Move>, ps: seq<Pass>, i: nat, m: Msg)
    requires History(run, mvs, ps) && i < |run| && m in run[i].flight
    ensures exists j | 0 <= j < i :: SaidIn(run[j], m)
  {
    if i == 0 {
    } else if m in run[i - 1].flight {
      EveryMessageWasEntitled(run, mvs, ps, i - 1, m);
    } else {
      HistoryKeepsNodes(run, mvs, ps, i - 1);
      NewMessageIsEntitled(run[i - 1], run[i], mvs[i - 1], ps[i - 1], m);
    }
  }

  lemma TransitStays(a: Net, b: Net, mv: Move, p: Pass, x: Peer)
    requires NetStep(a, b, mv, p)
    ensures x in a.nodes <==> x in b.nodes
    ensures x in a.nodes ==> b.nodes[x].transit == a.nodes[x].transit && b.nodes[x].id == a.nodes[x].id
  {
  }

  lemma {:induction false} TransitIsForGood(run: seq<Net>, mvs: seq<Move>, ps: seq<Pass>, j: nat, i: nat, x: Peer)
    requires History(run, mvs, ps) && j <= i < |run|
    ensures x in run[j].nodes <==> x in run[i].nodes
    ensures x in run[j].nodes ==> run[i].nodes[x].transit == run[j].nodes[x].transit
  {
    if i == j {
    } else {
      TransitIsForGood(run, mvs, ps, j, i - 1, x);
      TransitStays(run[i - 1], run[i], mvs[i - 1], ps[i - 1], x);
    }
  }

  /** A node that does not relay never offered anything but what it originated. */
  lemma NoTransitSpeaksForItself(run: seq<Net>, mvs: seq<Move>, ps: seq<Pass>, i: nat, m: Msg)
    requires History(run, mvs, ps) && i < |run| && m in run[i].flight && m.adv.metric != INFINITY
    requires m.from in run[i].nodes && !run[i].nodes[m.from].transit
    ensures exists j | 0 <= j < i :: m.from in run[j].nodes && m.key in run[j].nodes[m.from].originate
  {
    EveryMessageWasEntitled(run, mvs, ps, i, m);
    var j :| 0 <= j < i && SaidIn(run[j], m);
    TransitIsForGood(run, mvs, ps, j, i, m.from);
    assert m.key in run[j].nodes[m.from].originate;
  }
}
