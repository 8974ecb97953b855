/** What the request tables promise over a whole run (sections 3.8.1.2 and 3.8.2.1 of
    RFC 8966), told against a history of what was sent that forgets nothing. */
module BabelSuppression {
  import opened BabelOrder
  import opened BabelSources
  import opened BabelRequests
  import opened Deadlines

  // ----- requests relayed and asked -----

  datatype Sent = Sent(seqno: U16, at: Time)

  /** The tables, the last request relayed for each source, the last one this node sent
      to each neighbor it still has, and the clock. */
  datatype Watch = Watch(r: Requests, relayed: map<SourceKey, Sent>, asks: map<Asked, Time>, clock: Time)

  datatype Act =
    | Relay(i: SourceKey, seqno: U16, asker: Peer, now: Time)
    | Ask(a: Asked, now: Time)
    | Leave(n: Peer)
    | Tidy(now: Time)

  predicate Relays(r: Requests, e: Act)
    requires e.Relay?
  {
    !Redundant(r.pending, e.i, e.seqno, e.now) && WithinShare(r.pending, r.byAsker, e.i, e.asker)
  }

  predicate Asks(r: Requests, e: Act)
    requires e.Ask?
  {
    !(e.a in r.asked && e.now < r.asked[e.a] + SUPPRESS)
  }

  ghost predicate Follows(s: Watch, t: Watch, e: Act) {
    s.clock <= t.clock &&
    match e
    case Relay(i, seqno, asker, now) =>
      if Relays(s.r, e) then
        t == Watch(Recorded(s.r, i, Pending(seqno, now, asker)), s.relayed[i := Sent(seqno, now)], s.asks, now)
      else t == s.(clock := now)
    case Ask(a, now) =>
      if Asks(s.r, e) then t == Watch(Asking(s.r, a, now), s.relayed, s.asks[a := now], now)
      else t == s.(clock := now)
    case Leave(n) =>
      t == s.(r := Forgotten(s.r, n), asks := map a | a in s.asks && a.neighbor != n :: s.asks[a])
    case Tidy(now) => SweepStep(s.r, t.r, now) && t == s.(r := t.r, clock := now)
  }

  ghost predicate Run(trace: seq<Watch>, acts: seq<Act>) {
    && |trace| == |acts| + 1 && trace[0] == Watch(Requests(map[], map[], map[], 0), map[], map[], 0)
    && forall i | 0 <= i < |acts| :: Follows(trace[i], trace[i + 1], acts[i])
  }

  /** The table holds exactly the relays whose window is open, and may hold closed ones. */
  predicate RelayKnown(s: Watch, i: SourceKey) {
    && (i in s.relayed ==>
          || s.relayed[i].at + SUPPRESS <= s.clock
          || (i in s.r.pending && Sent(s.r.pending[i].seqno, s.r.pending[i].sentAt) == s.relayed[i]))
    && (i in s.r.pending ==> i in s.relayed && Sent(s.r.pending[i].seqno, s.r.pending[i].sentAt) == s.relayed[i])
  }

  predicate AskKnown(s: Watch, a: Asked) {
    && (a in s.asks ==> s.asks[a] + SUPPRESS <= s.clock || (a in s.r.asked && s.r.asked[a] == s.asks[a]))
    && (a in s.r.asked ==> a in s.asks && s.r.asked[a] == s.asks[a])
  }

  ghost predicate Known(s: Watch) {
    (forall i: SourceKey :: RelayKnown(s, i)) && forall a: Asked :: AskKnown(s, a)
  }

  lemma StepKnows(s: Watch, t: Watch, e: Act)
    requires Known(s) && Follows(s, t, e)
    ensures Known(t)
  {
    forall i: SourceKey ensures RelayKnown(t, i) {
      assert RelayKnown(s, i);
    }
    forall a: Asked ensures AskKnown(t, a) {
      assert AskKnown(s, a);
    }
  }

  lemma {:induction false} RunKnows(trace: seq<Watch>, acts: seq<Act>, n: nat)
    requires Run(trace, acts) && n < |trace|
    ensures Known(trace[n])
  {
    if n == 0 {
    } else {
      RunKnows(trace, acts, n - 1);
      StepKnows(trace[n - 1], trace[n], acts[n - 1]);
    }
  }

  /** In every run a request is relayed exactly when the last one relayed for its source
      was a window ago or asked for less, and the asker has a share left: however often
      the tables are swept, and whoever asks. */
  lemma RelaysAreSuppressed(trace: seq<Watch>, acts: seq<Act>, n: nat)
    requires Run(trace, acts) && n < |acts| && acts[n].Relay?
    ensures var s, e := trace[n], acts[n];
      Relays(s.r, e) <==>
        && (e.i in s.relayed ==> s.relayed[e.i].at + SUPPRESS <= e.now || SeqnoGT(e.seqno, s.relayed[e.i].seqno))
        && WithinShare(s.r.pending, s.r.byAsker, e.i, e.asker)
  {
    RunKnows(trace, acts, n);
    assert RelayKnown(trace[n], acts[n].i);
    assert Follows(trace[n], trace[n + 1], acts[n]);
  }

  /** And this node asks one neighbor about one source at most once a window. */
  lemma AsksAreSuppressed(trace: seq<Watch>, acts: seq<Act>, n: nat)
    requires Run(trace, acts) && n < |acts| && acts[n].Ask?
    ensures var s, e := trace[n], acts[n];
      Asks(s.r, e) <==> (e.a in s.asks ==> s.asks[e.a] + SUPPRESS <= e.now)
  {
    RunKnows(trace, acts, n);
    assert AskKnown(trace[n], acts[n].a);
    assert Follows(trace[n], trace[n + 1], acts[n]);
  }

  // ----- requests repeated -----

  /** The number one starved source is asked for, how often it was again, when it last
      was, and whether that was a repeat. */
  datatype Told = Told(seqno: U16, repeats: nat, at: Time, again: bool)

  datatype Hunger = Hunger(s: Starving, told: map<SourceKey, Told>)

  datatype Turn = Starve(i: SourceKey, seqno: U16, asker: Peer, now: Time) | Again(reachable: set<RouteKey>, now: Time)

  /** What is known of one source after a walk over the repeats. */
  function ToldAgain(was: map<SourceKey, Retry>, t: map<SourceKey, Retry>, told: Told, i: SourceKey, now: Time): Told {
    if i in was && i in t && t[i] != was[i] then Told(told.seqno, told.repeats + 1, now, true) else told
  }

  ghost predicate Turns(h: Hunger, g: Hunger, e: Turn) {
    match e
    case Starve(i, seqno, asker, now) =>
      && g.s == Remembered(h.s, i, seqno, asker, now)
      && g.told ==
         if i !in g.s.retries then h.told
         else h.told[i := Told(seqno, if i in h.s.retries && i in h.told then h.told[i].repeats else 0, now, false)]
    case Again(reachable, now) =>
      && RepeatStep(h.s, g.s, reachable, now)
      && g.told == map i | i in h.told :: ToldAgain(h.s.retries, g.s.retries, h.told[i], i, now)
  }

  function Delay(t: Told): Time {
    RETRY_INITIAL * if t.again && t.repeats > 0 then Doubled(t.repeats - 1) else 1
  }

  predicate Counted(h: Hunger, i: SourceKey) {
    i in h.s.retries ==>
      && i in h.told && h.s.retries[i].seqno == h.told[i].seqno
      && h.s.retries[i].attempts == h.told[i].repeats <= RETRIES
      && h.s.retries[i].nextAt == h.told[i].at + Delay(h.told[i])
  }

  lemma TurnCounts(h: Hunger, g: Hunger, e: Turn, i: SourceKey)
    requires Turns(h, g, e) && Counted(h, i)
    ensures Counted(g, i)
  {
    match e
    case Starve(_, _, _, _) =>
    case Again(reachable, now) => assert RepeatedAt(h.s.retries, g.s.retries, i, reachable, now);
  }

  ghost predicate Fast(trace: seq<Hunger>, turns: seq<Turn>) {
    && |trace| == |turns| + 1 && trace[0] == Hunger(Starving(map[], map[], 0), map[])
    && forall i | 0 <= i < |turns| :: Turns(trace[i], trace[i + 1], turns[i])
  }

  lemma {:induction false} RunCounts(trace: seq<Hunger>, turns: seq<Turn>, n: nat, i: SourceKey)
    requires Fast(trace, turns) && n < |trace|
    ensures Counted(trace[n], i)
  {
    if n == 0 {
    } else {
      RunCounts(trace, turns, n - 1, i);
      TurnCounts(trace[n - 1], trace[n], turns[n - 1], i);
    }
  }

  predicate Repeats(h: Hunger, g: Hunger, i: SourceKey) {
    i in h.s.retries && i in g.s.retries && g.s.retries[i] != h.s.retries[i]
  }

  /** In every run a walk asks again about a starved source exactly when it still has no
      route, was asked about again fewer than four times, and the delay since it last was
      is over: three seconds, and after each repeat twice as long. It asks for the number
      last wanted, and never within the window in which asking again is refused. */
  lemma RepeatsBackOff(trace: seq<Hunger>, turns: seq<Turn>, n: nat, i: SourceKey)
    requires Fast(trace, turns) && n < |turns| && turns[n].Again? && i in trace[n].s.retries
    ensures i in trace[n].told && trace[n].s.retries[i].seqno == trace[n].told[i].seqno
    ensures var t, e := trace[n].told[i], turns[n];
      && (Repeats(trace[n], trace[n + 1], i) <==>
            i.route !in e.reachable && t.repeats < RETRIES && t.at + Delay(t) <= e.now)
      && (Repeats(trace[n], trace[n + 1], i) ==> t.at + SUPPRESS < e.now)
  {
    RunCounts(trace, turns, n, i);
    var h, g, e := trace[n], trace[n + 1], turns[n];
    assert Turns(h, g, e);
    assert RepeatedAt(h.s.retries, g.s.retries, i, e.reachable, e.now);
    DelayIsLong(h.told[i]);
  }

  lemma DelayIsLong(t: Told)
    ensures Delay(t) > SUPPRESS
  {}
}
