/** The source table of feasibility distances (RFC 8966 section 3.2.5) and the
    three share counters kept beside it. */
module BabelSources {
  import opened BabelOrder
  import opened Wrappers
  import opened Deadlines

  type RouterId = nat
  /** A peer's name; the empty name is this node itself. */
  type Peer = string

  datatype Prefix = Prefix(ipv4: bool, address: nat, bits: nat)

  /** A destination, with the source prefix of a source-specific route. */
  datatype RouteKey = RouteKey(source: Option<Prefix>, dest: Prefix)

  datatype SourceKey = SourceKey(route: RouteKey, id: RouterId)

  /** What one Update says about one prefix. */
  datatype Advertisement = Advertisement(id: RouterId, seqno: U16, metric: U16) {
    function Claim(): Distance { Distance(seqno, metric) }
  }

  datatype SourceEntry = SourceEntry(distance: Distance, gcAt: Time, owner: Peer)

  type Sources = map<SourceKey, SourceEntry>

  const GC_TIME: Time := 180
  const MAX_SOURCES: int := 0x1_0000
  const MAX_ORIGINS_PER_PREFIX: int := 0x400
  const MAX_ORIGINS_PER_PREFIX_PER_NEIGHBOR: int := 0x100
  const MAX_SOURCES_PER_NEIGHBOR: int := 0x2000

  // ----- what the counters stand for -----

  ghost function OriginsOf(s: Sources, key: RouteKey): set<SourceKey> {
    set i | i in s && i.route == key
  }

  ghost function SpentBy(s: Sources, peer: Peer): set<SourceKey> {
    set i | i in s && s[i].owner == peer
  }

  ghost function ShareOf(s: Sources, key: RouteKey, peer: Peer): set<SourceKey> {
    set i | i in s && i.route == key && s[i].owner == peer
  }

  function Get<K>(m: map<K, int>, k: K): int {
    if k in m then m[k] else 0
  }

  function Bump<K>(m: map<K, int>, k: K): map<K, int> {
    m[k := Get(m, k) + 1]
  }

  /** A counter that reaches zero is removed rather than kept. */
  function Release<K>(m: map<K, int>, k: K): map<K, int> {
    if Get(m, k) <= 1 then m - {k} else m[k := m[k] - 1]
  }

  ghost predicate Positive<K>(m: map<K, int>) {
    forall k | k in m :: m[k] > 0
  }

  ghost predicate ExactOrigins(s: Sources, m: map<RouteKey, int>) {
    Positive(m) && forall k: RouteKey :: Get(m, k) == |OriginsOf(s, k)|
  }

  ghost predicate ExactSpent(s: Sources, m: map<Peer, int>) {
    Positive(m) && forall p: Peer :: Get(m, p) == |SpentBy(s, p)|
  }

  ghost predicate ExactShares(s: Sources, m: map<(RouteKey, Peer), int>) {
    Positive(m) && forall k: RouteKey, p: Peer :: Get(m, (k, p)) == |ShareOf(s, k, p)|
  }

  // ----- the specification of the table -----

  /** The feasibility condition, with the caps read off the table itself. */
  ghost predicate FeasibleIn(s: Sources, key: RouteKey, adv: Advertisement, from: Peer) {
    var i := SourceKey(key, adv.id);
    || adv.metric == INFINITY
    || (i in s && Better(adv.Claim(), s[i].distance))
    || (&& i !in s
        && |s| < MAX_SOURCES
        && |OriginsOf(s, key)| < MAX_ORIGINS_PER_PREFIX
        && |SpentBy(s, from)| < MAX_SOURCES_PER_NEIGHBOR
        && |ShareOf(s, key, from)| < MAX_ORIGINS_PER_PREFIX_PER_NEIGHBOR)
  }

  /** The distance recorded once `adv` has been advertised. */
  function Lowered(stored: Option<SourceEntry>, claim: Distance): Distance {
    match stored
    case None => claim
    case Some(e) => if Better(claim, e.distance) then claim else e.distance
  }

  function Lookup(s: Sources, i: SourceKey): Option<SourceEntry> {
    if i in s then Some(s[i]) else None
  }

  function Observed(s: Sources, key: RouteKey, adv: Advertisement, from: Peer, now: Time): Sources {
    if adv.metric == INFINITY then s
    else
      var i := SourceKey(key, adv.id);
      s[i := SourceEntry(Lowered(Lookup(s, i), adv.Claim()), now + GC_TIME, from)]
  }

  function Swept(s: Sources, now: Time): Sources {
    map i | i in s && now < s[i].gcAt :: s[i]
  }

  /** A recorded distance only ever improves, and is never worse than what was
      just advertised. */
  lemma ObservedBoundsWhatWasSaid(s: Sources, key: RouteKey, adv: Advertisement, from: Peer, now: Time, base: U16)
    requires adv.metric != INFINITY
    requires InHalf(adv.seqno, base)
    requires forall i | i in s :: InHalf(s[i].distance.seqno, base)
    ensures var i := SourceKey(key, adv.id);
            var t := Observed(s, key, adv, from, now);
            && i in t && AtLeastAsGood(t[i].distance, adv.Claim())
            && (forall j | j in s :: j in t && AtLeastAsGood(t[j].distance, s[j].distance))
            && (forall j | j in t && j != i :: j in s && t[j] == s[j])
  {
    var i := SourceKey(key, adv.id);
    if i in s {
      BetterIsStrictOrder(adv.Claim(), s[i].distance, s[i].distance, base);
    }
  }

  /** A distance is charged to whoever it was last said through, and is on record for
      exactly the collection time after it last was. */
  lemma RecordLasts(s: Sources, key: RouteKey, adv: Advertisement, from: Peer, now: Time, later: Time)
    requires adv.metric != INFINITY
    ensures var i, t := SourceKey(key, adv.id), Observed(s, key, adv, from, now);
            && (i in Swept(t, later) <==> later < now + GC_TIME)
            && i in ShareOf(t, key, from) && forall p: Peer | p != from :: i !in SpentBy(t, p)
  {}

  /** Section 3.8.2.1: the table's sequence number plus one, so an answer that
      carries it is newer than the recorded distance whatever its metric. */
  function RequestSeqno(s: Sources, key: RouteKey, adv: Advertisement): (r: U16)
    ensures SourceKey(key, adv.id) in s ==>
              forall m: U16, from: Peer | m != INFINITY ::
                FeasibleIn(s, key, Advertisement(adv.id, r, m), from)
  {
    var i := SourceKey(key, adv.id);
    var known := if i in s then s[i].distance.seqno else adv.seqno;
    (known + 1) % 0x1_0000
  }

  /** It asks for the next number: past the one recorded, or with none recorded the one
      advertised, and no other past that one comes before it. */
  lemma RequestIsTheNextNumber(s: Sources, key: RouteKey, adv: Advertisement)
    ensures var i, r := SourceKey(key, adv.id), RequestSeqno(s, key, adv);
            var known := if i in s then s[i].distance.seqno else adv.seqno;
            SeqnoGT(r, known) && forall q: U16 | SeqnoGT(q, known) && q != r :: SeqnoGT(q, r)
  {}

  // ----- counting lemmas -----

  lemma BumpCounts<K>(m: map<K, int>, k: K)
    requires Positive(m)
    ensures Positive(Bump(m, k)) && Get(Bump(m, k), k) == Get(m, k) + 1
    ensures forall j | j != k :: Get(Bump(m, k), j) == Get(m, j)
  {
  }

  lemma ReleaseCounts<K>(m: map<K, int>, k: K)
    requires Positive(m) && Get(m, k) > 0
    ensures Positive(Release(m, k)) && Get(Release(m, k), k) == Get(m, k) - 1
    ensures forall j | j != k :: Get(Release(m, k), j) == Get(m, j)
  {
  }

  /** One entry leaves exactly the sets it belongs to. */
  lemma EntryLeaves(t: Sources, i: SourceKey, k: RouteKey, p: Peer)
    requires i in t
    ensures var s := t - {i};
            && |OriginsOf(t, k)| == |OriginsOf(s, k)| + (if k == i.route then 1 else 0)
            && |SpentBy(t, p)| == |SpentBy(s, p)| + (if p == t[i].owner then 1 else 0)
            && |ShareOf(t, k, p)| == |ShareOf(s, k, p)| + (if k == i.route && p == t[i].owner then 1 else 0)
  {
    var s := t - {i};
    assert OriginsOf(s, k) == OriginsOf(t, k) - {i};
    assert SpentBy(s, p) == SpentBy(t, p) - {i};
    assert ShareOf(s, k, p) == ShareOf(t, k, p) - {i};
  }

  lemma EntryJoins(s: Sources, i: SourceKey, e: SourceEntry, k: RouteKey, p: Peer)
    requires i !in s
    ensures var t := s[i := e];
            && |OriginsOf(t, k)| == |OriginsOf(s, k)| + (if k == i.route then 1 else 0)
            && |SpentBy(t, p)| == |SpentBy(s, p)| + (if p == e.owner then 1 else 0)
            && |ShareOf(t, k, p)| == |ShareOf(s, k, p)| + (if k == i.route && p == e.owner then 1 else 0)
  {
    EntryLeaves(s[i := e], i, k, p);
    assert s[i := e] - {i} == s;
  }

  lemma AddOrigin(s: Sources, i: SourceKey, e: SourceEntry, m: map<RouteKey, int>)
    requires i !in s && ExactOrigins(s, m)
    ensures ExactOrigins(s[i := e], Bump(m, i.route))
  {
    BumpCounts(m, i.route);
    forall k: RouteKey ensures Get(Bump(m, i.route), k) == |OriginsOf(s[i := e], k)| {
      EntryJoins(s, i, e, k, e.owner);
    }
  }

  lemma DropOrigin(s: Sources, i: SourceKey, m: map<RouteKey, int>)
    requires i in s && ExactOrigins(s, m)
    ensures ExactOrigins(s - {i}, Release(m, i.route))
  {
    EntryLeaves(s, i, i.route, s[i].owner);
    ReleaseCounts(m, i.route);
    forall k: RouteKey ensures Get(Release(m, i.route), k) == |OriginsOf(s - {i}, k)| {
      EntryLeaves(s, i, k, s[i].owner);
    }
  }

  lemma RefreshOrigin(s: Sources, i: SourceKey, e: SourceEntry, m: map<RouteKey, int>)
    requires i in s && ExactOrigins(s, m)
    ensures ExactOrigins(s[i := e], m)
  {
    forall k: RouteKey ensures Get(m, k) == |OriginsOf(s[i := e], k)| {
      assert OriginsOf(s[i := e], k) == OriginsOf(s, k);
    }
  }

  lemma AddShare(s: Sources, i: SourceKey, e: SourceEntry, shares: map<(RouteKey, Peer), int>, spent: map<Peer, int>)
    requires i !in s && ExactShares(s, shares) && ExactSpent(s, spent)
    ensures ExactShares(s[i := e], Bump(shares, (i.route, e.owner)))
    ensures ExactSpent(s[i := e], Bump(spent, e.owner))
  {
    BumpCounts(shares, (i.route, e.owner));
    BumpCounts(spent, e.owner);
    forall k: RouteKey, p: Peer
      ensures Get(Bump(shares, (i.route, e.owner)), (k, p)) == |ShareOf(s[i := e], k, p)|
    {
      EntryJoins(s, i, e, k, p);
    }
    forall p: Peer ensures Get(Bump(spent, e.owner), p) == |SpentBy(s[i := e], p)| {
      EntryJoins(s, i, e, i.route, p);
    }
  }

  lemma DropShare(s: Sources, i: SourceKey, shares: map<(RouteKey, Peer), int>, spent: map<Peer, int>)
    requires i in s && ExactShares(s, shares) && ExactSpent(s, spent)
    ensures ExactShares(s - {i}, Release(shares, (i.route, s[i].owner)))
    ensures ExactSpent(s - {i}, Release(spent, s[i].owner))
  {
    var t, o := s - {i}, s[i].owner;
    EntryLeaves(s, i, i.route, o);
    ReleaseCounts(shares, (i.route, o));
    ReleaseCounts(spent, o);
    forall k: RouteKey, p: Peer ensures Get(Release(shares, (i.route, o)), (k, p)) == |ShareOf(t, k, p)| {
      EntryLeaves(s, i, k, p);
    }
    forall p: Peer ensures Get(Release(spent, o), p) == |SpentBy(t, p)| {
      EntryLeaves(s, i, i.route, p);
    }
  }

  lemma RefreshShare(s: Sources, i: SourceKey, e: SourceEntry, shares: map<(RouteKey, Peer), int>,
                     spent: map<Peer, int>)
    requires i in s && s[i].owner == e.owner && ExactShares(s, shares) && ExactSpent(s, spent)
    ensures ExactShares(s[i := e], shares) && ExactSpent(s[i := e], spent)
  {
    forall k: RouteKey, p: Peer ensures Get(shares, (k, p)) == |ShareOf(s[i := e], k, p)| {
      assert ShareOf(s[i := e], k, p) == ShareOf(s, k, p);
    }
    forall p: Peer ensures Get(spent, p) == |SpentBy(s[i := e], p)| {
      assert SpentBy(s[i := e], p) == SpentBy(s, p);
    }
  }

  /** The charge for an entry moves from one neighbor to another. */
  lemma TransferShare(s: Sources, i: SourceKey, e: SourceEntry, shares: map<(RouteKey, Peer), int>,
                      spent: map<Peer, int>)
    requires i in s && ExactShares(s, shares) && ExactSpent(s, spent)
    ensures ExactShares(s[i := e], Bump(Release(shares, (i.route, s[i].owner)), (i.route, e.owner)))
    ensures ExactSpent(s[i := e], Bump(Release(spent, s[i].owner), e.owner))
  {
    DropShare(s, i, shares, spent);
    AddShare(s - {i}, i, e, Release(shares, (i.route, s[i].owner)), Release(spent, s[i].owner));
    assert (s - {i})[i := e] == s[i := e];
  }

  // ----- the table -----

  class SourceTable {
    var sources: Sources
    var originsPerKey: map<RouteKey, int>
    var originsBy: map<(RouteKey, Peer), int>
    var sourcesByPeer: map<Peer, int>

    /** Every counter is exactly the number of entries it stands for. */
    ghost predicate Valid()
      reads this
    {
      && ExactOrigins(sources, originsPerKey)
      && ExactShares(sources, originsBy)
      && ExactSpent(sources, sourcesByPeer)
    }

    constructor ()
      ensures Valid() && sources == map[]
    {
      sources, originsPerKey, originsBy, sourcesByPeer := map[], map[], map[], map[];
    }

    /** The caps, read off the counters, decide what the table itself decides. */
    method Feasible(key: RouteKey, adv: Advertisement, from: Peer) returns (ok: bool)
      requires Valid()
      ensures ok <==> FeasibleIn(sources, key, adv, from)
    {
      if adv.metric == INFINITY {
        return true;
      }
      var i := SourceKey(key, adv.id);
      if i !in sources {
        assert Get(originsPerKey, key) == |OriginsOf(sources, key)|;
        assert Get(sourcesByPeer, from) == |SpentBy(sources, from)|;
        assert Get(originsBy, (key, from)) == |ShareOf(sources, key, from)|;
        if |sources| >= MAX_SOURCES {
          return false;
        }
        if Get(originsPerKey, key) >= MAX_ORIGINS_PER_PREFIX {
          return false;
        }
        if Get(sourcesByPeer, from) >= MAX_SOURCES_PER_NEIGHBOR {
          return false;
        }
        if Get(originsBy, (key, from)) >= MAX_ORIGINS_PER_PREFIX_PER_NEIGHBOR {
          return false;
        }
        return true;
      }
      return Better(adv.Claim(), sources[i].distance);
    }

    /** Section 3.7.3: record the distance before the Update leaves. The charge
        for the entry moves to whoever is keeping it alive. */
    method Observe(key: RouteKey, adv: Advertisement, from: Peer, now: Time)
      requires Valid()
      modifies this
      ensures Valid()
      ensures sources == Observed(old(sources), key, adv, from, now)
    {
      if adv.metric == INFINITY {
        return;
      }
      var i := SourceKey(key, adv.id);
      ghost var s := sources;
      if i !in sources {
        var entry := SourceEntry(adv.Claim(), now + GC_TIME, from);
        AddOrigin(s, i, entry, originsPerKey);
        AddShare(s, i, entry, originsBy, sourcesByPeer);
        sources := sources[i := entry];
        originsPerKey := Bump(originsPerKey, key);
        originsBy := Bump(originsBy, (key, from));
        sourcesByPeer := Bump(sourcesByPeer, from);
      } else {
        var entry := sources[i];
        if Better(adv.Claim(), entry.distance) {
          entry := entry.(distance := adv.Claim());
        }
        var owner := entry.owner;
        entry := entry.(gcAt := now + GC_TIME, owner := from);
        RefreshOrigin(s, i, entry, originsPerKey);
        if owner != from {
          TransferShare(s, i, entry, originsBy, sourcesByPeer);
          ReleaseOrigin(key, owner);
          originsBy := Bump(originsBy, (key, from));
          sourcesByPeer := Bump(sourcesByPeer, from);
        } else {
          RefreshShare(s, i, entry, originsBy, sourcesByPeer);
        }
        sources := sources[i := entry];
      }
    }

    method ReleaseOrigin(key: RouteKey, owner: Peer)
      modifies this`originsBy, this`sourcesByPeer
      ensures originsBy == Release(old(originsBy), (key, owner))
      ensures sourcesByPeer == Release(old(sourcesByPeer), owner)
    {
      originsBy := Release(originsBy, (key, owner));
      sourcesByPeer := Release(sourcesByPeer, owner);
    }

    /** Exactly the entries whose timer has run out are dropped, and each gives
        back the three shares it held. */
    method SweepSources(now: Time)
      requires Valid()
      modifies this
      ensures Valid()
      ensures sources == Swept(old(sources), now)
    {
      var todo := sources.Keys;
      while todo != {}
        invariant Valid()
        invariant todo <= sources.Keys
        invariant forall i | i in sources :: i in old(sources) && sources[i] == old(sources)[i]
        invariant forall i | i in old(sources) && i !in todo :: i in sources <==> now < old(sources)[i].gcAt
        decreases todo
      {
        var i :| i in todo;
        todo := todo - {i};
        var entry := sources[i];
        if !(now < entry.gcAt) {
          DropOrigin(sources, i, originsPerKey);
          DropShare(sources, i, originsBy, sourcesByPeer);
          sources := sources - {i};
          originsPerKey := Release(originsPerKey, i.route);
          ReleaseOrigin(i.route, entry.owner);
        }
      }
    }
  }
}
