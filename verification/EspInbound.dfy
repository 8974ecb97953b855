/** Receiving: packets are authenticated in any order by many workers, committed
    in order, and only then readable. */
module EspInbound {
  import opened Bytes
  import opened EspTrailer
  import opened EspPacket
  import opened EspReplay
  import opened Wrappers

  type SaId = nat

  datatype Fault = Unauthenticated | AlreadyCommitted | BadPacket | Refused(why: Verdict) | BadTrailer

  /** An authentication result until it is committed. */
  datatype Received = Received(
    sa: Option<SaId>, seqno: U32, committed: bool, nextHeader: Byte, plain: seq<Byte>, err: Option<Fault>)

  type Windows = map<SaId, Replay>

  predicate Known(p: Received, windows: Windows) {
    p.sa.Some? ==> p.sa.value in windows
  }

  // ----- authentication -----

  /** The result for one packet, judged against the window as it stands. */
  function Authenticated(k: Keys, id: SaId, w: Replay, pkt: seq<Byte>): Received {
    var h := CheckHeader(k, pkt);
    if h.Err? then Received(Some(id), 0, false, 0, [], Some(BadPacket))
    else if Judge(w, h.value) != Fresh then Received(Some(id), h.value, false, 0, [], Some(Refused(Judge(w, h.value))))
    else
      var plain := Decrypt(k, pkt);
      if plain.Err? then Received(Some(id), h.value, false, 0, [], Some(BadPacket))
      else Received(Some(id), h.value, false, 0, plain.value, None)
  }

  /** Appends a result for each packet: headers and numbers are judged in one
      pass, the packets that survive are decrypted in a second. */
  method AuthenticateBatch(k: Keys, id: SaId, w: ReplayWindow, packets: seq<seq<Byte>>, results: seq<Received>)
    returns (out: seq<Received>)
    requires w.Valid()
    ensures |out| == |results| + |packets| && out[..|results|] == results
    ensures forall i | 0 <= i < |packets| :: out[|results| + i] == Authenticated(k, id, w.View(), packets[i])
  {
    var batch: seq<Received> := [];
    for i := 0 to |packets|
      invariant |batch| == i
      invariant forall j | 0 <= j < i :: batch[j] == Headed(k, id, w.View(), packets[j])
    {
      var p := CheckOne(k, id, w, packets[i]);
      batch := batch + [p];
    }
    for i := 0 to |batch|
      invariant |batch| == |packets|
      invariant forall j | 0 <= j < i :: batch[j] == Authenticated(k, id, w.View(), packets[j])
      invariant forall j | i <= j < |batch| :: batch[j] == Headed(k, id, w.View(), packets[j])
    {
      if batch[i].err == None {
        var plain := Decrypt(k, packets[i]);
        batch := batch[i := if plain.Ok? then batch[i].(plain := plain.value) else batch[i].(err := Some(BadPacket))];
      }
    }
    out := results + batch;
  }

  method CheckOne(k: Keys, id: SaId, w: ReplayWindow, pkt: seq<Byte>) returns (p: Received)
    requires w.Valid()
    ensures p == Headed(k, id, w.View(), pkt)
  {
    var h := CheckHeader(k, pkt);
    if h.Err? {
      return Received(Some(id), 0, false, 0, [], Some(BadPacket));
    }
    var v := w.Check(h.value);
    return Received(Some(id), h.value, false, 0, [], if v == Fresh then None else Some(Refused(v)));
  }

  /** A packet after the first pass. */
  function Headed(k: Keys, id: SaId, w: Replay, pkt: seq<Byte>): (p: Received)
    ensures p.err == None ==> |pkt| >= HEADER_LEN + IV_LEN
  {
    var h := CheckHeader(k, pkt);
    if h.Err? then Received(Some(id), 0, false, 0, [], Some(BadPacket))
    else
      var v := Judge(w, h.value);
      Received(Some(id), h.value, false, 0, [], if v == Fresh then None else Some(Refused(v)))
  }

  // ----- commit -----

  datatype Outcome = Outcome(packet: Received, windows: Windows)

  function CommitOne(p: Received, windows: Windows): Outcome
    requires Known(p, windows)
  {
    if p.committed then Outcome(p.(err := Some(AlreadyCommitted)), windows)
    else
      var q := p.(committed := true);
      if p.err != None then Outcome(q, windows)
      else if p.sa == None then Outcome(q.(err := Some(Unauthenticated)), windows)
      else
        var id := p.sa.value;
        var v := Judge(windows[id], p.seqno);
        if v != Fresh then Outcome(q.(err := Some(Refused(v))), windows)
        else
          var t := ParseTrailer(p.plain);
          Outcome(
            if t.Ok? then q.(plain := t.value.inner, nextHeader := t.value.nextHeader)
            else q.(plain := [], nextHeader := 0, err := Some(BadTrailer)),
            windows[id := Take(windows[id], p.seqno)])
  }

  datatype Batch = Batch(packets: seq<Received>, windows: Windows)

  /** Committing the packets one at a time, in order. */
  function CommitAll(ps: seq<Received>, windows: Windows): (b: Batch)
    requires forall p | p in ps :: Known(p, windows)
    ensures b.windows.Keys == windows.Keys && |b.packets| == |ps|
  {
    if ps == [] then Batch([], windows)
    else
      var b := CommitAll(ps[..|ps| - 1], windows);
      assert Known(ps[|ps| - 1], windows);
      var o := CommitOne(ps[|ps| - 1], b.windows);
      Batch(b.packets + [o.packet], o.windows)
  }

  lemma CommitAllGrows(ps: seq<Received>, windows: Windows, i: nat)
    requires i < |ps| && forall p | p in ps :: Known(p, windows)
    ensures var b := CommitAll(ps[..i], windows);
      && Known(ps[i], b.windows)
      && CommitAll(ps[..i + 1], windows)
         == Batch(b.packets + [CommitOne(ps[i], b.windows).packet], CommitOne(ps[i], b.windows).windows)
  {
    assert Known(ps[i], windows);
    assert ps[..i + 1][..i] == ps[..i];
  }

  /** The associations whose packets are committed, each with a bitmap of its own. */
  class Emitter {
    const windows: map<SaId, ReplayWindow>

    ghost function Repr(): set<object> {
      (set id | id in windows :: windows[id] as object) + (set id | id in windows :: windows[id].mask as object)
    }

    ghost predicate Valid()
      reads Repr()
    {
      && (forall id | id in windows :: windows[id].Valid())
      && (forall i, j | i in windows && j in windows && i != j ::
            windows[i] != windows[j] && windows[i].mask != windows[j].mask)
    }

    /** What the bitmaps stand for. */
    ghost function View(): Windows
      reads Repr()
    {
      map id | id in windows :: windows[id].View()
    }

    constructor (windows: map<SaId, ReplayWindow>)
      requires forall id | id in windows :: windows[id].Valid()
      requires forall i, j | i in windows && j in windows && i != j ::
        windows[i] != windows[j] && windows[i].mask != windows[j].mask
      ensures Valid() && this.windows == windows
    {
      this.windows := windows;
    }

    /** Commits one packet against the bitmap of its association. */
    method CommitLocked(p: Received) returns (q: Received)
      requires Valid() && Known(p, View())
      modifies Repr()
      ensures Valid() && Outcome(q, View()) == CommitOne(p, old(View()))
    {
      if p.committed {
        return p.(err := Some(AlreadyCommitted));
      }
      q := p.(committed := true);
      if p.err != None {
        return;
      }
      if p.sa == None {
        return q.(err := Some(Unauthenticated));
      }
      var v := windows[p.sa.value].Check(p.seqno);
      if v != Fresh {
        return q.(err := Some(Refused(v)));
      }
      Spend(p.sa.value, p.seqno);
      var t := ParseTrailer(p.plain);
      q := if t.Ok? then q.(plain := t.value.inner, nextHeader := t.value.nextHeader)
           else q.(plain := [], nextHeader := 0, err := Some(BadTrailer));
    }

    /** One bitmap takes a number, and no other moves. */
    method Spend(id: SaId, seqno: U32)
      requires Valid() && id in windows && Judge(windows[id].View(), seqno) == Fresh
      modifies Repr()
      ensures Valid() && View() == old(View())[id := Take(old(View())[id], seqno)]
    {
      windows[id].Commit(seqno);
      assert forall i | i in windows && i != id :: windows[i].View() == old(windows[i].View());
    }

    /** The first n packets of a batch are committed and the rest stand as they came. */
    ghost predicate Committed(packets: array<Received>, n: nat, was: seq<Received>, had: Windows)
      reads Repr(), packets
    {
      && n <= packets.Length == |was| && (forall p | p in was :: Known(p, had))
      && packets[n..] == was[n..] && Batch(packets[..n], View()) == CommitAll(was[..n], had)
    }

    /** Commits a batch, one run of packets of the same association at a time. */
    method CommitBatch(packets: array<Received>)
      requires Valid() && forall p | p in packets[..] :: Known(p, View())
      modifies Repr(), packets
      ensures Valid() && Batch(packets[..], View()) == CommitAll(old(packets[..]), old(View()))
    {
      ghost var was, had := packets[..], View();
      var start := 0;
      while start < packets.Length
        invariant Valid() && start <= packets.Length && Committed(packets, start, was, had)
      {
        var end := start + 1;
        while end < packets.Length && packets[end].sa == packets[start].sa
          invariant start < end <= packets.Length
        {
          end := end + 1;
        }
        CommitRun(packets, start, end, was, had);
        start := end;
      }
      assert was[..start] == was && packets[..start] == packets[..];
    }

    method CommitRun(packets: array<Received>, start: nat, end: nat, ghost was: seq<Received>, ghost had: Windows)
      requires Valid() && start <= end <= packets.Length && Committed(packets, start, was, had)
      modifies Repr(), packets
      ensures Valid() && Committed(packets, end, was, had)
    {
      for i := start to end
        invariant Valid() && Committed(packets, i, was, had)
      {
        CommitNext(packets, i, was, had);
      }
    }

    method CommitNext(packets: array<Received>, i: nat, ghost was: seq<Received>, ghost had: Windows)
      requires Valid() && i < packets.Length && Committed(packets, i, was, had)
      modifies Repr(), packets
      ensures Valid() && Committed(packets, i + 1, was, had)
    {
      assert packets[i] == packets[i..][0];
      CommitAllGrows(was, had, i);
      CommitAt(packets, i);
      assert packets[i + 1..] == was[i..][1..];
    }

    method CommitAt(packets: array<Received>, i: nat)
      requires Valid() && i < packets.Length && Known(packets[i], View())
      modifies Repr(), packets
      ensures Valid() && forall j | i < j < packets.Length :: packets[j] == old(packets[j])
      ensures var o := CommitOne(old(packets[i]), old(View()));
        packets[..i + 1] == old(packets[..i]) + [o.packet] && View() == o.windows
    {
      ghost var done := packets[..i];
      var q := CommitLocked(packets[i]);
      packets[i] := q;
      assert packets[..i + 1] == done + [q];
    }
  }

  // ----- what a reader sees -----

  function Plaintext(p: Received): Option<Payload> {
    if !p.committed || p.err != None then None else Some(Payload(p.plain, p.nextHeader))
  }

  /** A number of one association, and the result that showed its plaintext. */
  datatype Shown = Shown(sa: SaId, seqno: int, result: nat)

  /** The windows, every result so far, and everything that became readable. */
  datatype World = World(windows: Windows, results: seq<Received>, shown: seq<Shown>)

  datatype Event = Arrive(p: Received) | Commit(i: nat)

  /** Any uncommitted result may arrive, replays included, and any result may be
      committed at any time, also twice. */
  predicate Enabled(s: World, e: Event) {
    match e
    case Arrive(p) => !p.committed && Known(p, s.windows)
    case Commit(i) => i < |s.results| && Known(s.results[i], s.windows)
  }

  function Next(s: World, e: Event): World
    requires Enabled(s, e)
  {
    match e
    case Arrive(p) => World(s.windows, s.results + [p], s.shown)
    case Commit(i) =>
      var o := CommitOne(s.results[i], s.windows);
      World(o.windows, s.results[i := o.packet],
            if Plaintext(o.packet) != None then s.shown + [Shown(o.packet.sa.value, o.packet.seqno, i)] else s.shown)
  }

  predicate WindowOk(w: Replay) {
    w.window > 0 && forall n | n in w.accepted :: 0 < n <= w.last
  }

  predicate Initial(s: World) {
    s.results == [] && s.shown == [] && forall id | id in s.windows :: WindowOk(s.windows[id])
  }

  predicate Spent(s: World, x: Shown) {
    x.sa in s.windows && x.seqno in s.windows[x.sa].accepted
  }

  predicate Consistent(s: World) {
    && (forall id | id in s.windows :: WindowOk(s.windows[id]))
    && (forall k | 0 <= k < |s.shown| :: Spent(s, s.shown[k]))
    && (forall i | 0 <= i < |s.results| :: Known(s.results[i], s.windows))
  }

  /** No number of an association is ever shown by two commits. */
  predicate ShownOnce(s: World) {
    forall j, k | 0 <= j < k < |s.shown| :: (s.shown[j].sa, s.shown[j].seqno) != (s.shown[k].sa, s.shown[k].seqno)
  }

  /** Whatever can be read now was recorded when it became readable. */
  predicate ReadableIsShown(s: World) {
    forall i | 0 <= i < |s.results| && Plaintext(s.results[i]) != None ::
      s.results[i].sa.Some? && Shown(s.results[i].sa.value, s.results[i].seqno, i) in s.shown
  }

  /** A number that was taken is never fresh again. */
  lemma TakenIsNotFresh(w: Replay, seqno: int)
    requires WindowOk(w) && seqno in w.accepted
    ensures Judge(w, seqno) != Fresh
  {}

  /** A readable result came from a number that was fresh and is now taken. */
  lemma CommitSpends(p: Received, windows: Windows)
    requires Known(p, windows) && forall id | id in windows :: WindowOk(windows[id])
    ensures var o := CommitOne(p, windows);
      && (forall id | id in o.windows :: WindowOk(o.windows[id]))
      && o.windows.Keys == windows.Keys
      && (forall id | id in windows :: windows[id].accepted <= o.windows[id].accepted)
      && (Plaintext(o.packet) != None ==>
            && p.sa.Some? && o.packet.sa == p.sa && o.packet.seqno == p.seqno
            && p.seqno !in windows[p.sa.value].accepted && p.seqno in o.windows[p.sa.value].accepted)
  {
    if p.sa.Some? && p.seqno in windows[p.sa.value].accepted {
      TakenIsNotFresh(windows[p.sa.value], p.seqno);
    }
  }

  /** A malformed trailer shows nothing and still uses its number up. */
  lemma BadTrailerSpendsTheNumber(p: Received, windows: Windows)
    requires Known(p, windows) && p.sa.Some? && !p.committed && p.err == None
    requires WindowOk(windows[p.sa.value]) && Judge(windows[p.sa.value], p.seqno) == Fresh && p.seqno > 0
    requires ParseTrailer(p.plain).Err?
    ensures var o := CommitOne(p, windows);
      && Plaintext(o.packet) == None && o.packet.plain == [] && o.packet.seqno == p.seqno
      && Judge(o.windows[p.sa.value], p.seqno) != Fresh
  {
    var o := CommitOne(p, windows);
    TakenIsNotFresh(o.windows[p.sa.value], p.seqno);
  }

  lemma StepKeeps(s: World, e: Event)
    requires Consistent(s) && ShownOnce(s) && ReadableIsShown(s) && Enabled(s, e)
    ensures Consistent(Next(s, e)) && ShownOnce(Next(s, e)) && ReadableIsShown(Next(s, e))
  {
    match e
    case Arrive(p) =>
    case Commit(i) =>
      CommitSpends(s.results[i], s.windows);
      var t := Next(s, e);
      forall k | 0 <= k < |t.shown|
        ensures Spent(t, t.shown[k])
      {
        if k < |s.shown| {
          assert Spent(s, s.shown[k]);
        }
      }
      assert forall x | x in s.shown :: x in t.shown;
  }

  ghost predicate Run(trace: seq<World>) {
    && |trace| > 0 && Initial(trace[0])
    && forall i | 0 <= i < |trace| - 1 :: Follows(trace[i], trace[i + 1])
  }

  ghost predicate Follows(s: World, t: World) {
    exists e :: Enabled(s, e) && t == Next(s, e)
  }

  /** In every interleaving of authentications and commits on any number of
      associations, each number shows its plaintext at most once, and what can be
      read is exactly what some successful commit showed. */
  lemma {:induction false} EveryNumberIsShownOnce(trace: seq<World>, n: nat)
    requires Run(trace) && n < |trace|
    ensures Consistent(trace[n]) && ShownOnce(trace[n]) && ReadableIsShown(trace[n])
  {
    if n == 0 {
    } else {
      EveryNumberIsShownOnce(trace, n - 1);
      assert Follows(trace[n - 1], trace[n]);
      var e :| Enabled(trace[n - 1], e) && trace[n] == Next(trace[n - 1], e);
      StepKeeps(trace[n - 1], e);
    }
  }

  /** A packet sealed with the same keys, its number fresh, is delivered intact. */
  lemma SealedIsDelivered(k: Keys, id: SaId, windows: Windows, inner: seq<Byte>, nextHeader: Byte, seqno: int)
    requires KeysOk(k) && 0 <= seqno < 0x1_0000_0000 && id in windows && Judge(windows[id], seqno) == Fresh
    ensures var p := Authenticated(k, id, windows[id], Sealed(k, inner, nextHeader, seqno));
      Known(p, windows) && Plaintext(CommitOne(p, windows).packet) == Some(Payload(inner, nextHeader))
  {
    OpenUndoesSeal(k, inner, nextHeader, seqno);
  }
}
