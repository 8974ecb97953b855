/** The tables behind seqno requests (sections 3.2.7 and 3.8 of RFC 8966): what was
    forwarded or asked lately, and what is being repeated, with each neighbor's
    share of them and the earliest deadline in them kept alongside. */
module BabelRequests {
  import opened BabelOrder
  import opened BabelSources
  import opened Deadlines
  import opened Wrappers

  const SUPPRESS: Time := 2
  const RETRY_INITIAL: Time := 3
  const RETRIES := 4
  const MAX_ENTRIES := 0x1000
  const MAX_PER_NEIGHBOR := 0x400

  // ----- shares -----

  /** Who holds each entry. */
  type Owners = map<SourceKey, Peer>

  ghost function HeldBy(o: Owners, p: Peer): set<SourceKey> {
    set i | i in o && o[i] == p
  }

  ghost predicate Exact(o: Owners, counts: map<Peer, int>) {
    Positive(counts) && forall p: Peer :: Get(counts, p) == |HeldBy(o, p)|
  }

  lemma OwnerLeaves(o: Owners, i: SourceKey, p: Peer)
    requires i in o
    ensures |HeldBy(o, p)| == |HeldBy(o - {i}, p)| + (if p == o[i] then 1 else 0)
  {
    assert HeldBy(o - {i}, p) == HeldBy(o, p) - {i};
  }

  lemma DropOwner(o: Owners, i: SourceKey, counts: map<Peer, int>)
    requires i in o && Exact(o, counts)
    ensures Exact(o - {i}, Release(counts, o[i]))
  {
    OwnerLeaves(o, i, o[i]);
    ReleaseCounts(counts, o[i]);
    forall p: Peer
      ensures Get(Release(counts, o[i]), p) == |HeldBy(o - {i}, p)|
    {
      OwnerLeaves(o, i, p);
    }
  }

  lemma AddOwner(o: Owners, i: SourceKey, q: Peer, counts: map<Peer, int>)
    requires i !in o && Exact(o, counts)
    ensures Exact(o[i := q], Bump(counts, q))
  {
    BumpCounts(counts, q);
    assert o[i := q] - {i} == o;
    forall p: Peer
      ensures Get(Bump(counts, q), p) == |HeldBy(o[i := q], p)|
    {
      OwnerLeaves(o[i := q], i, p);
    }
  }

  /** An entry changes hands. */
  lemma PassOwner(o: Owners, i: SourceKey, q: Peer, counts: map<Peer, int>)
    requires i in o && Exact(o, counts)
    ensures Exact(o[i := q], Bump(Release(counts, o[i]), q))
  {
    DropOwner(o, i, counts);
    AddOwner(o - {i}, i, q, Release(counts, o[i]));
    assert (o - {i})[i := q] == o[i := q];
  }

  /** Each holder has back one share for every entry of its that is not kept. */
  ghost predicate SharesReturned(o: Owners, kept: set<SourceKey>, before: map<Peer, int>, after: map<Peer, int>) {
    Positive(after) && forall p: Peer :: Get(after, p) == Get(before, p) - |HeldBy(o, p) - kept|
  }

  ghost predicate Within(o: Owners, less: Owners) {
    forall i | i in less :: i in o && less[i] == o[i]
  }

  lemma HeldSplits(o: Owners, less: Owners, p: Peer)
    requires Within(o, less)
    ensures |HeldBy(o, p)| == |HeldBy(less, p)| + |HeldBy(o, p) - less.Keys|
  {
    var gone := HeldBy(o, p) - less.Keys;
    assert HeldBy(o, p) == HeldBy(less, p) + gone && HeldBy(less, p) !! gone;
  }

  /** Returning the shares of what went is keeping the counts exact. */
  lemma ReturningIsExact(o: Owners, less: Owners, before: map<Peer, int>, after: map<Peer, int>)
    requires Exact(o, before) && Within(o, less)
    ensures Exact(less, after) <==> SharesReturned(o, less.Keys, before, after)
  {
    forall p: Peer
      ensures |HeldBy(o, p)| == |HeldBy(less, p)| + |HeldBy(o, p) - less.Keys|
    {
      HeldSplits(o, less, p);
    }
  }

  lemma ReturningCaps(o: Owners, kept: set<SourceKey>, before: map<Peer, int>, after: map<Peer, int>)
    requires Positive(before) && Capped(before) && SharesReturned(o, kept, before, after)
    ensures Capped(after)
  {
    forall p | p in after
      ensures after[p] <= MAX_PER_NEIGHBOR
    {
      assert Get(after, p) <= Get(before, p);
    }
  }

  lemma ReturningKeeps(o: Owners, less: Owners, before: map<Peer, int>, after: map<Peer, int>)
    requires Exact(o, before) && Capped(before) && Within(o, less) && SharesReturned(o, less.Keys, before, after)
    ensures Exact(less, after) && Capped(after)
  {
    ReturningIsExact(o, less, before, after);
    ReturningCaps(o, less.Keys, before, after);
  }

  predicate Capped(counts: map<Peer, int>) {
    forall p | p in counts :: counts[p] <= MAX_PER_NEIGHBOR
  }

  // ----- forwarded and asked requests -----

  datatype Pending = Pending(seqno: U16, sentAt: Time, asker: Peer)

  datatype Asked = Asked(source: SourceKey, neighbor: Peer)

  ghost function Askers(t: map<SourceKey, Pending>): Owners {
    map i | i in t :: t[i].asker
  }

  /** No window closes before the kept deadline. */
  predicate Kept(sentAt: Time, next: Time) {
    sentAt > 0 && NotLater(next, sentAt + SUPPRESS)
  }

  predicate Redundant(t: map<SourceKey, Pending>, i: SourceKey, seqno: U16, now: Time) {
    i in t && now < t[i].sentAt + SUPPRESS && !SeqnoGT(seqno, t[i].seqno)
  }

  predicate WithinShare(t: map<SourceKey, Pending>, counts: map<Peer, int>, i: SourceKey, asker: Peer) {
    && (Get(counts, asker) < MAX_PER_NEIGHBOR || (i in t && t[i].asker == asker))
    && (i in t || |t| < MAX_ENTRIES)
  }

  /** Requests forwarded or sent within the last window. */
  datatype Requests = Requests(pending: map<SourceKey, Pending>, byAsker: map<Peer, int>, asked: map<Asked, Time>,
                               nextSweep: Time)

  ghost predicate RequestsOk(r: Requests) {
    && Exact(Askers(r.pending), r.byAsker) && Capped(r.byAsker) && |r.pending| <= MAX_ENTRIES
    && (forall i | i in r.pending :: Kept(r.pending[i].sentAt, r.nextSweep))
    && (forall a | a in r.asked :: Kept(r.asked[a], r.nextSweep))
  }

  function Recorded(r: Requests, i: SourceKey, p: Pending): Requests {
    Requests(
      r.pending[i := p],
      Bump(if i in r.pending then Release(r.byAsker, r.pending[i].asker) else r.byAsker, p.asker),
      r.asked, Earlier(r.nextSweep, p.sentAt + SUPPRESS))
  }

  lemma RecordCounts(r: Requests, i: SourceKey, p: Pending)
    requires Exact(Askers(r.pending), r.byAsker)
    ensures Exact(Askers(Recorded(r, i, p).pending), Recorded(r, i, p).byAsker)
  {
    var owners := Askers(r.pending);
    assert Askers(r.pending[i := p]) == owners[i := p.asker];
    if i in r.pending {
      PassOwner(owners, i, p.asker, r.byAsker);
    } else {
      AddOwner(owners, i, p.asker, r.byAsker);
    }
  }

  lemma RecordCaps(counts: map<Peer, int>, owner: Option<Peer>, asker: Peer)
    requires Positive(counts) && Capped(counts)
    requires Get(counts, asker) < MAX_PER_NEIGHBOR || owner == Some(asker)
    requires owner.Some? ==> Get(counts, owner.value) > 0
    ensures Capped(Bump(if owner.Some? then Release(counts, owner.value) else counts, asker))
  {}

  lemma OwnerIsCounted(o: Owners, counts: map<Peer, int>, i: SourceKey)
    requires Exact(o, counts) && i in o
    ensures Get(counts, o[i]) > 0
  {
    assert i in HeldBy(o, o[i]);
  }

  lemma RecordKeeps(r: Requests, i: SourceKey, p: Pending)
    requires RequestsOk(r) && p.sentAt > 0 && WithinShare(r.pending, r.byAsker, i, p.asker)
    ensures RequestsOk(Recorded(r, i, p))
  {
    RecordCounts(r, i, p);
    if i in r.pending {
      OwnerIsCounted(Askers(r.pending), r.byAsker, i);
      RecordCaps(r.byAsker, Some(r.pending[i].asker), p.asker);
      assert r.pending[i := p].Keys == r.pending.Keys;
    } else {
      RecordCaps(r.byAsker, None, p.asker);
    }
  }

  function Closed(sentAt: Time, now: Time): bool {
    now >= sentAt + SUPPRESS
  }

  /** One request leaves the table. */
  function Without(r: Requests, i: SourceKey): Requests
    requires i in r.pending
  {
    r.(pending := r.pending - {i}, byAsker := Release(r.byAsker, r.pending[i].asker))
  }

  lemma WithoutKeeps(r: Requests, i: SourceKey)
    requires Exact(Askers(r.pending), r.byAsker) && Capped(r.byAsker) && i in r.pending
    ensures Exact(Askers(Without(r, i).pending), Without(r, i).byAsker) && Capped(Without(r, i).byAsker)
  {
    DropOwner(Askers(r.pending), i, r.byAsker);
    assert Askers(r.pending - {i}) == Askers(r.pending) - {i};
  }

  function Asking(r: Requests, a: Asked, now: Time): Requests {
    r.(asked := r.asked[a := now], nextSweep := Earlier(r.nextSweep, now + SUPPRESS))
  }

  function Forgotten(r: Requests, n: Peer): Requests {
    r.(asked := map a | a in r.asked && a.neighbor != n :: r.asked[a])
  }

  /** The deadline a sweep leaves: no later than any window still open, and one of
      them unless none is. */
  ghost predicate EarliestWindow(r: Requests) {
    && (forall i | i in r.pending :: NotLater(r.nextSweep, r.pending[i].sentAt + SUPPRESS))
    && (forall a | a in r.asked :: NotLater(r.nextSweep, r.asked[a] + SUPPRESS))
    && (r.nextSweep == 0 || (exists i :: i in r.pending && r.nextSweep == r.pending[i].sentAt + SUPPRESS)
        || (exists a :: a in r.asked && r.nextSweep == r.asked[a] + SUPPRESS))
  }

  function StillPending(pending: map<SourceKey, Pending>, now: Time): map<SourceKey, Pending> {
    map i | i in pending && !Closed(pending[i].sentAt, now) :: pending[i]
  }

  function StillAsked(asked: map<Asked, Time>, now: Time): map<Asked, Time> {
    map a | a in asked && !Closed(asked[a], now) :: asked[a]
  }

  /** Every closed window goes and no other, with the shares it held. */
  ghost predicate SweepStep(r: Requests, t: Requests, now: Time) {
    && t.pending == StillPending(r.pending, now) && t.asked == StillAsked(r.asked, now)
    && SharesReturned(Askers(r.pending), t.pending.Keys, r.byAsker, t.byAsker)
    && EarliestWindow(t)
  }

  lemma SweptShares(pending: map<SourceKey, Pending>, kept: map<SourceKey, Pending>, before: map<Peer, int>,
                    after: map<Peer, int>)
    requires forall i | i in kept :: i in pending && kept[i] == pending[i]
    requires Exact(Askers(pending), before) && Capped(before)
    ensures SharesReturned(Askers(pending), kept.Keys, before, after) ==> Exact(Askers(kept), after) && Capped(after)
    ensures Exact(Askers(kept), after) ==> SharesReturned(Askers(pending), kept.Keys, before, after)
  {
    var o, less := Askers(pending), Askers(kept);
    assert less.Keys == kept.Keys;
    ReturningIsExact(o, less, before, after);
    if SharesReturned(o, kept.Keys, before, after) {
      ReturningKeeps(o, less, before, after);
    }
  }

  lemma SweepKeeps(r: Requests, t: Requests, now: Time)
    requires RequestsOk(r) && SweepStep(r, t, now)
    ensures RequestsOk(t)
  {
    SweptShares(r.pending, t.pending, r.byAsker, t.byAsker);
    SubtableIsNoLarger(t.pending, r.pending);
  }

  lemma AskingKeeps(r: Requests, a: Asked, now: Time)
    requires RequestsOk(r) && now > 0
    ensures RequestsOk(Asking(r, a, now))
  {
  }

  lemma ForgettingKeeps(r: Requests, n: Peer)
    requires RequestsOk(r)
    ensures RequestsOk(Forgotten(r, n))
  {
  }

  class RequestTable {
    var pending: map<SourceKey, Pending>
    var byAsker: map<Peer, int>
    var asked: map<Asked, Time>
    var nextSweep: Time

    function View(): Requests
      reads this
    {
      Requests(pending, byAsker, asked, nextSweep)
    }

    constructor ()
      ensures RequestsOk(View()) && View() == Requests(map[], map[], map[], 0)
    {
      pending, byAsker, asked, nextSweep := map[], map[], map[], 0;
      new;
      assert forall p: Peer :: HeldBy(Askers(pending), p) == {};
    }

    /** Takes a request unless it is redundant or the asker's share is spent; an
        entry another neighbor made is charged to the one that takes it over. */
    method Allow(i: SourceKey, seqno: U16, asker: Peer, now: Time) returns (ok: bool)
      modifies this
      ensures old(RequestsOk(View())) && now > 0 ==> RequestsOk(View())
      ensures ok <==> !Redundant(old(pending), i, seqno, now) && WithinShare(old(pending), old(byAsker), i, asker)
      ensures View() == if ok then Recorded(old(View()), i, Pending(seqno, now, asker)) else old(View())
    {
      if i in pending && now < pending[i].sentAt + SUPPRESS && !SeqnoGT(seqno, pending[i].seqno) {
        return false;
      }
      if Get(byAsker, asker) >= MAX_PER_NEIGHBOR && (i !in pending || pending[i].asker != asker) {
        return false;
      }
      if i !in pending && |pending| >= MAX_ENTRIES {
        return false;
      }
      if RequestsOk(View()) && now > 0 {
        RecordKeeps(View(), i, Pending(seqno, now, asker));
      }
      Record(i, seqno, asker, now);
      return true;
    }

    method Record(i: SourceKey, seqno: U16, asker: Peer, now: Time)
      modifies this
      ensures View() == Recorded(old(View()), i, Pending(seqno, now, asker))
    {
      if i in pending {
        byAsker := Release(byAsker, pending[i].asker);
      }
      pending := pending[i := Pending(seqno, now, asker)];
      byAsker := Bump(byAsker, asker);
      nextSweep := Earlier(nextSweep, now + SUPPRESS);
    }

    /** Whether this node may ask this neighbor again about this source. */
    method AllowAsk(a: Asked, now: Time) returns (ok: bool)
      modifies this
      ensures old(RequestsOk(View())) && now > 0 ==> RequestsOk(View())
      ensures ok <==> !(a in old(asked) && now < old(asked)[a] + SUPPRESS)
      ensures View() == if ok then Asking(old(View()), a, now) else old(View())
    {
      if a in asked && now < asked[a] + SUPPRESS {
        return false;
      }
      asked := asked[a := now];
      nextSweep := Earlier(nextSweep, now + SUPPRESS);
      return true;
    }

    method ForgetNeighbor(n: Peer)
      modifies this
      ensures old(RequestsOk(View())) ==> RequestsOk(View())
      ensures View() == Forgotten(old(View()), n)
    {
      asked := map a | a in asked && a.neighbor != n :: asked[a];
    }

    /** Drops every closed window, gives the shares back, and makes the kept
        deadline exact again. */
    method Sweep(now: Time)
      requires RequestsOk(View())
      modifies this
      ensures RequestsOk(View())
      ensures SweepStep(old(View()), View(), now)
    {
      nextSweep := 0;
      SweepPending(now);
      SweepAsked(now);
      SweptShares(old(pending), pending, old(byAsker), byAsker);
      SweepKeeps(old(View()), View(), now);
    }

    method SweepPending(now: Time)
      requires Exact(Askers(pending), byAsker) && Capped(byAsker) && nextSweep == 0
      requires forall i | i in pending :: pending[i].sentAt > 0
      modifies this
      ensures asked == old(asked) && Exact(Askers(pending), byAsker) && Capped(byAsker)
      ensures pending == StillPending(old(pending), now)
      ensures forall i | i in pending :: NotLater(nextSweep, pending[i].sentAt + SUPPRESS)
      ensures nextSweep == 0 || exists i :: i in pending && nextSweep == pending[i].sentAt + SUPPRESS
    {
      var todo := pending.Keys;
      while todo != {}
        invariant asked == old(asked) && Exact(Askers(pending), byAsker) && Capped(byAsker)
        invariant forall i :: i in pending <==> i in old(pending) && (i in todo || !Closed(old(pending)[i].sentAt, now))
        invariant forall i | i in todo :: i in old(pending)
        invariant forall i | i in pending :: pending[i] == old(pending)[i]
        invariant forall i | i in pending && i !in todo :: Kept(pending[i].sentAt, nextSweep)
        invariant nextSweep == 0 || exists i :: i in pending && i !in todo && nextSweep == pending[i].sentAt + SUPPRESS
        decreases todo
      {
        var i :| i in todo;
        SweepOne(i, now);
        todo := todo - {i};
      }
    }

    method SweepOne(i: SourceKey, now: Time)
      requires i in pending && pending[i].sentAt > 0 && Exact(Askers(pending), byAsker) && Capped(byAsker)
      modifies this
      ensures asked == old(asked) && Exact(Askers(pending), byAsker) && Capped(byAsker)
      ensures pending == if Closed(old(pending)[i].sentAt, now) then old(pending) - {i} else old(pending)
      ensures nextSweep
           == if i in pending then Earlier(old(nextSweep), pending[i].sentAt + SUPPRESS) else old(nextSweep)
    {
      if now >= pending[i].sentAt + SUPPRESS {
        WithoutKeeps(View(), i);
        byAsker := Release(byAsker, pending[i].asker);
        pending := pending - {i};
      } else {
        nextSweep := Earlier(nextSweep, pending[i].sentAt + SUPPRESS);
      }
    }

    method SweepAsked(now: Time)
      requires forall a | a in asked :: asked[a] > 0
      modifies this
      ensures pending == old(pending) && byAsker == old(byAsker) && NotLater(nextSweep, old(nextSweep))
      ensures asked == StillAsked(old(asked), now)
      ensures forall a | a in asked :: NotLater(nextSweep, asked[a] + SUPPRESS)
      ensures nextSweep == old(nextSweep) || exists a :: a in asked && nextSweep == asked[a] + SUPPRESS
    {
      var todo := asked.Keys;
      while todo != {}
        invariant pending == old(pending) && byAsker == old(byAsker) && NotLater(nextSweep, old(nextSweep))
        invariant forall a :: a in asked <==> a in old(asked) && (a in todo || !Closed(old(asked)[a], now))
        invariant forall a | a in todo :: a in old(asked)
        invariant forall a | a in asked :: asked[a] == old(asked)[a]
        invariant forall a | a in asked && a !in todo :: Kept(asked[a], nextSweep)
        invariant nextSweep == old(nextSweep)
          || exists a :: a in asked && a !in todo && nextSweep == asked[a] + SUPPRESS
        decreases todo
      {
        var a :| a in todo;
        todo := todo - {a};
        if now >= asked[a] + SUPPRESS {
          asked := asked - {a};
        } else {
          nextSweep := Earlier(nextSweep, asked[a] + SUPPRESS);
        }
      }
    }
  }

  lemma SubtableIsNoLarger(s: map<SourceKey, Pending>, t: map<SourceKey, Pending>)
    requires s.Keys <= t.Keys
    ensures |s| <= |t|
  {
    SubsetIsNoLarger(s.Keys, t.Keys);
  }

  lemma {:induction false} SubsetIsNoLarger(s: set<SourceKey>, t: set<SourceKey>)
    requires s <= t
    ensures |s| <= |t|
  {
    if s == {} {
    } else {
      var i :| i in s;
      SubsetIsNoLarger(s - {i}, t - {i});
    }
  }

  // ----- requests being repeated -----

  datatype Retry = Retry(seqno: U16, attempts: nat, nextAt: Time, asker: Peer)

  datatype Starving = Starving(retries: map<SourceKey, Retry>, byAsker: map<Peer, int>, nextRetry: Time)

  ghost function Starvers(t: map<SourceKey, Retry>): Owners {
    map i | i in t :: t[i].asker
  }

  ghost predicate StarvingOk(s: Starving) {
    && Exact(Starvers(s.retries), s.byAsker) && Capped(s.byAsker) && |s.retries| <= MAX_ENTRIES
    && forall i | i in s.retries :: s.retries[i].nextAt > 0 && NotLater(s.nextRetry, s.retries[i].nextAt)
  }

  /** What becomes of one repeat: dropped once the prefix has a route again or its
      attempts are used up, left until it is due, and then put off twice as long. */
  function Repeated(r: Retry, reachable: bool, now: Time): Option<Retry> {
    if reachable then None
    else if now < r.nextAt then Some(r)
    else if r.attempts >= RETRIES then None
    else Some(r.(attempts := r.attempts + 1, nextAt := now + RETRY_INITIAL * Doubled(r.attempts)))
  }

  function Doubled(n: nat): (d: nat)
    ensures d >= 1
  {
    if n == 0 then 1 else 2 * Doubled(n - 1)
  }

  function Remembered(s: Starving, i: SourceKey, seqno: U16, asker: Peer, now: Time): Starving {
    var at := now + RETRY_INITIAL;
    if i in s.retries then
      s.(retries := s.retries[i := s.retries[i].(seqno := seqno, nextAt := at)], nextRetry := Earlier(s.nextRetry, at))
    else if |s.retries| >= MAX_ENTRIES || Get(s.byAsker, asker) >= MAX_PER_NEIGHBOR then s
    else Starving(s.retries[i := Retry(seqno, 0, at, asker)], Bump(s.byAsker, asker), Earlier(s.nextRetry, at))
  }

  lemma RefreshKeeps(s: Starving, i: SourceKey, r: Retry)
    requires StarvingOk(s) && i in s.retries && r.asker == s.retries[i].asker && r.nextAt > 0
    ensures StarvingOk(s.(retries := s.retries[i := r], nextRetry := Earlier(s.nextRetry, r.nextAt)))
  {
    assert Starvers(s.retries[i := r]) == Starvers(s.retries);
    assert s.retries[i := r].Keys == s.retries.Keys;
  }

  lemma AddKeeps(s: Starving, i: SourceKey, r: Retry)
    requires StarvingOk(s) && i !in s.retries && r.nextAt > 0
    requires |s.retries| < MAX_ENTRIES && Get(s.byAsker, r.asker) < MAX_PER_NEIGHBOR
    ensures StarvingOk(Starving(s.retries[i := r], Bump(s.byAsker, r.asker), Earlier(s.nextRetry, r.nextAt)))
  {
    AddOwner(Starvers(s.retries), i, r.asker, s.byAsker);
    assert Starvers(s.retries[i := r]) == Starvers(s.retries)[i := r.asker];
    RecordCaps(s.byAsker, None, r.asker);
  }

  lemma RememberKeeps(s: Starving, i: SourceKey, seqno: U16, asker: Peer, now: Time)
    requires StarvingOk(s) && now > 0
    ensures StarvingOk(Remembered(s, i, seqno, asker, now))
  {
    var at := now + RETRY_INITIAL;
    if i in s.retries {
      RefreshKeeps(s, i, s.retries[i].(seqno := seqno, nextAt := at));
    } else if |s.retries| < MAX_ENTRIES && Get(s.byAsker, asker) < MAX_PER_NEIGHBOR {
      AddKeeps(s, i, Retry(seqno, 0, at, asker));
    }
  }

  /** Removing a repeat gives its share back. */
  lemma ForgetKeeps(t: map<SourceKey, Retry>, counts: map<Peer, int>, i: SourceKey)
    requires Exact(Starvers(t), counts) && Capped(counts) && i in t
    ensures Exact(Starvers(t - {i}), Release(counts, t[i].asker)) && Capped(Release(counts, t[i].asker))
  {
    DropOwner(Starvers(t), i, counts);
    assert Starvers(t - {i}) == Starvers(t) - {i};
  }

  /** What the walk makes of one entry. */
  predicate RepeatedAt(was: map<SourceKey, Retry>, t: map<SourceKey, Retry>, i: SourceKey, reachable: set<RouteKey>,
                       now: Time)
  {
    if i !in was then i !in t
    else
      match Repeated(was[i], i.route in reachable, now)
      case None => i !in t
      case Some(r) => i in t && t[i] == r
  }

  /** The walk has been past the entry: its deadline counts, and it is asked about if it
      was put off. */
  predicate WalkedPast(was: map<SourceKey, Retry>, t: map<SourceKey, Retry>, i: SourceKey, reachable: set<RouteKey>,
                       now: Time, next: Time, asked: bool)
  {
    && RepeatedAt(was, t, i, reachable, now) && (i in t ==> NotLater(next, t[i].nextAt))
    && (asked <==> i in was && i in t && t[i] != was[i])
  }

  lemma WalkedStays(was: map<SourceKey, Retry>, t: map<SourceKey, Retry>, u: map<SourceKey, Retry>, i: SourceKey,
                    reachable: set<RouteKey>, now: Time, next: Time, sooner: Time, asked: bool)
    requires WalkedPast(was, t, i, reachable, now, next, asked)
    requires (i in u <==> i in t) && (i in t ==> u[i] == t[i]) && NotLater(sooner, next)
    ensures WalkedPast(was, u, i, reachable, now, sooner, asked)
  {}

  lemma RepeatedIsTimed(was: map<SourceKey, Retry>, t: map<SourceKey, Retry>, i: SourceKey, reachable: set<RouteKey>,
                        now: Time)
    requires RepeatedAt(was, t, i, reachable, now) && i in t && now > 0
    ensures i in was && t[i].asker == was[i].asker && (was[i].nextAt > 0 ==> t[i].nextAt > 0)
  {
  }

  /** The deadline a walk over the repeats leaves. */
  ghost predicate EarliestRepeat(s: Starving) {
    && (forall i | i in s.retries :: NotLater(s.nextRetry, s.retries[i].nextAt))
    && (s.nextRetry == 0 || exists i :: i in s.retries && s.nextRetry == s.retries[i].nextAt)
  }

  ghost predicate RepeatStep(s: Starving, t: Starving, reachable: set<RouteKey>, now: Time) {
    && (forall i: SourceKey :: RepeatedAt(s.retries, t.retries, i, reachable, now))
    && SharesReturned(Starvers(s.retries), t.retries.Keys, s.byAsker, t.byAsker)
    && EarliestRepeat(t)
  }

  lemma RepeatedShares(retries: map<SourceKey, Retry>, kept: map<SourceKey, Retry>, before: map<Peer, int>,
                       after: map<Peer, int>)
    requires forall i | i in kept :: i in retries && kept[i].asker == retries[i].asker
    requires Exact(Starvers(retries), before) && Capped(before)
    ensures SharesReturned(Starvers(retries), kept.Keys, before, after) ==>
      Exact(Starvers(kept), after) && Capped(after)
    ensures Exact(Starvers(kept), after) ==> SharesReturned(Starvers(retries), kept.Keys, before, after)
  {
    var o, less := Starvers(retries), Starvers(kept);
    assert less.Keys == kept.Keys;
    ReturningIsExact(o, less, before, after);
    if SharesReturned(o, kept.Keys, before, after) {
      ReturningKeeps(o, less, before, after);
    }
  }

  lemma RepeatKeeps(s: Starving, t: Starving, reachable: set<RouteKey>, now: Time)
    requires StarvingOk(s) && RepeatStep(s, t, reachable, now) && now > 0
    ensures StarvingOk(t)
  {
    forall i | i in t.retries
      ensures i in s.retries && t.retries[i].asker == s.retries[i].asker && t.retries[i].nextAt > 0
    {
      assert RepeatedAt(s.retries, t.retries, i, reachable, now);
      RepeatedIsTimed(s.retries, t.retries, i, reachable, now);
    }
    RepeatedShares(s.retries, t.retries, s.byAsker, t.byAsker);
    SubsetIsNoLarger(t.retries.Keys, s.retries.Keys);
  }

  lemma RepeatIsAStep(s: Starving, t: Starving, asks: set<SourceKey>, reachable: set<RouteKey>, now: Time)
    requires StarvingOk(s) && Exact(Starvers(t.retries), t.byAsker)
    requires forall i: SourceKey :: WalkedPast(s.retries, t.retries, i, reachable, now, t.nextRetry, i in asks)
    requires t.nextRetry == 0 || exists i :: i in t.retries && t.nextRetry == t.retries[i].nextAt
    ensures RepeatStep(s, t, reachable, now)
    ensures forall i :: i in asks <==> i in s.retries && i in t.retries && t.retries[i] != s.retries[i]
  {
    forall i: SourceKey
      ensures RepeatedAt(s.retries, t.retries, i, reachable, now)
      ensures i in t.retries ==>
                i in s.retries && t.retries[i].asker == s.retries[i].asker && NotLater(t.nextRetry, t.retries[i].nextAt)
    {
      assert WalkedPast(s.retries, t.retries, i, reachable, now, t.nextRetry, i in asks);
    }
    RepeatedShares(s.retries, t.retries, s.byAsker, t.byAsker);
  }

  class StarveTable {
    var retries: map<SourceKey, Retry>
    var byAsker: map<Peer, int>
    var nextRetry: Time

    function View(): Starving
      reads this
    {
      Starving(retries, byAsker, nextRetry)
    }

    constructor ()
      ensures StarvingOk(View()) && View() == Starving(map[], map[], 0)
    {
      retries, byAsker, nextRetry := map[], map[], 0;
      new;
      assert forall p: Peer :: HeldBy(Starvers(retries), p) == {};
    }

    /** Repeats a request later; past a cap it is simply not repeated. */
    method Remember(i: SourceKey, seqno: U16, asker: Peer, now: Time)
      modifies this
      ensures old(StarvingOk(View())) && now > 0 ==> StarvingOk(View())
      ensures View() == Remembered(old(View()), i, seqno, asker, now)
    {
      if StarvingOk(View()) && now > 0 {
        RememberKeeps(View(), i, seqno, asker, now);
      }
      if i in retries {
        retries := retries[i := retries[i].(seqno := seqno, nextAt := now + RETRY_INITIAL)];
        nextRetry := Earlier(nextRetry, now + RETRY_INITIAL);
        return;
      }
      if |retries| >= MAX_ENTRIES || Get(byAsker, asker) >= MAX_PER_NEIGHBOR {
        return;
      }
      retries := retries[i := Retry(seqno, 0, now + RETRY_INITIAL, asker)];
      nextRetry := Earlier(nextRetry, now + RETRY_INITIAL);
      byAsker := Bump(byAsker, asker);
    }

    /** Walks every repeat, and makes the kept deadline exact again. */
    method RetryStarved(now: Time, reachable: set<RouteKey>) returns (asks: set<SourceKey>)
      requires StarvingOk(View()) && now > 0
      modifies this
      ensures StarvingOk(View())
      ensures RepeatStep(old(View()), View(), reachable, now)
      ensures forall i :: i in asks <==> i in old(retries) && i in retries && retries[i] != old(retries)[i]
    {
      asks := WalkRetries(now, reachable);
      RepeatIsAStep(old(View()), View(), asks, reachable, now);
      RepeatKeeps(old(View()), View(), reachable, now);
    }

    method WalkRetries(now: Time, reachable: set<RouteKey>) returns (asks: set<SourceKey>)
      requires Exact(Starvers(retries), byAsker) && Capped(byAsker)
      modifies this
      ensures Exact(Starvers(retries), byAsker)
      ensures forall i: SourceKey :: WalkedPast(old(retries), retries, i, reachable, now, nextRetry, i in asks)
      ensures nextRetry == 0 || exists i :: i in retries && nextRetry == retries[i].nextAt
    {
      nextRetry := 0;
      asks := {};
      var todo := retries.Keys;
      ghost var was := retries;
      while todo != {}
        invariant Exact(Starvers(retries), byAsker) && Capped(byAsker)
        invariant forall i | i in todo :: i in was && i in retries && retries[i] == was[i] && i !in asks
        invariant forall i | i !in todo :: WalkedPast(was, retries, i, reachable, now, nextRetry, i in asks)
        invariant nextRetry == 0 || exists i :: i in retries && i !in todo && nextRetry == retries[i].nextAt
        decreases todo
      {
        var i :| i in todo;
        ghost var t, next := retries, nextRetry;
        var due := RetryOne(i, now, i.route in reachable);
        todo := todo - {i};
        if due {
          asks := asks + {i};
        }
        forall j | j !in todo
          ensures WalkedPast(was, retries, j, reachable, now, nextRetry, j in asks)
        {
          if j != i {
            WalkedStays(was, t, retries, j, reachable, now, next, nextRetry, j in asks);
          }
        }
      }
    }

    method RetryOne(i: SourceKey, now: Time, reachable: bool) returns (due: bool)
      requires i in retries && Exact(Starvers(retries), byAsker) && Capped(byAsker)
      modifies this
      ensures Exact(Starvers(retries), byAsker) && Capped(byAsker)
      ensures match Repeated(old(retries)[i], reachable, now)
        case None => retries == old(retries) - {i} && nextRetry == old(nextRetry) && !due
        case Some(r) =>
          && retries == old(retries)[i := r] && nextRetry == Earlier(old(nextRetry), r.nextAt)
          && (due <==> r != old(retries)[i])
    {
      var r := retries[i];
      if reachable || (now >= r.nextAt && r.attempts >= RETRIES) {
        ForgetKeeps(retries, byAsker, i);
        retries := retries - {i};
        byAsker := Release(byAsker, r.asker);
        return false;
      }
      due := now >= r.nextAt;
      if due {
        r := r.(attempts := r.attempts + 1, nextAt := now + RETRY_INITIAL * Doubled(r.attempts));
      }
      ghost var owners := Starvers(retries);
      retries := retries[i := r];
      assert Starvers(retries) == owners;
      nextRetry := Earlier(nextRetry, r.nextAt);
    }
  }
}
