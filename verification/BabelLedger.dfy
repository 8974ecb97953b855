/** What a speaker remembers having told one neighbor, across packets that are
    refused a place in the transmission order or lost after they took one. */
module BabelLedger {
  import opened BabelSources
  import opened Wrappers

  /** One prefix spoken of in an Update: finite or a retraction, and whether it
      spent the record of the neighbor having been told the prefix is reachable. */
  datatype Said = Said(key: RouteKey, finite: bool, spent: bool)

  /** What a packet that never arrived gives back. */
  datatype Undo = Undo(key: RouteKey, spent: bool)

  // ----- one neighbor's record -----

  datatype Ledger = Ledger(advertised: set<RouteKey>, owed: set<RouteKey>)

  /** The Update for one prefix, or nothing: a retraction is due only to a
      neighbor that was told otherwise, unless an answer is forced. */
  function Speech(l: Ledger, key: RouteKey, force: bool, finite: bool): Option<Said> {
    if finite then Some(Said(key, true, false))
    else if key in l.advertised then Some(Said(key, false, true))
    else if force then Some(Said(key, false, false))
    else None
  }

  function Spoken(l: Ledger, key: RouteKey, finite: bool): Ledger {
    l.(advertised := if finite then l.advertised + {key} else l.advertised - {key})
  }

  /** Only a prefix something would rebuild is owed. */
  function Owing(l: Ledger, u: Undo, known: set<RouteKey>): Ledger {
    var told := if u.spent then l.advertised + {u.key} else l.advertised;
    Ledger(told, if u.key in known || u.key in told then l.owed + {u.key} else l.owed)
  }

  function OwingAll(l: Ledger, us: seq<Undo>, known: set<RouteKey>): Ledger {
    if us == [] then l else Owing(OwingAll(l, us[..|us| - 1], known), us[|us| - 1], known)
  }

  lemma {:induction false} OwingAllGivesBack(l: Ledger, us: seq<Undo>, known: set<RouteKey>, k: RouteKey)
    ensures k in OwingAll(l, us, known).advertised <==> k in l.advertised || Undo(k, true) in us
    ensures k in l.owed ==> k in OwingAll(l, us, known).owed
    ensures Undo(k, true) in us ==> k in OwingAll(l, us, known).owed
  {
    if us == [] {
    } else {
      OwingAllGivesBack(l, us[..|us| - 1], known, k);
      assert us == us[..|us| - 1] + [us[|us| - 1]];
    }
  }

  /** Nothing is said exactly of a retraction nobody asked for and nobody needs; what is
      said says what holds, and a retraction spends the record it answers to. */
  lemma SilentExactlyWhen(l: Ledger, key: RouteKey, force: bool, finite: bool)
    ensures Speech(l, key, force, finite).None? <==> !finite && !force && key !in l.advertised
    ensures Speech(l, key, force, finite).Some? ==>
      var said := Speech(l, key, force, finite).value;
      && said.key == key && said.finite == finite
      && (said.spent <==> key in l.advertised && key !in Spoken(l, key, finite).advertised)
  {}

  predicate Rebuilt(l: Ledger, us: seq<Undo>, known: set<RouteKey>, k: RouteKey) {
    k in known || k in l.advertised || Undo(k, true) in us
  }

  /** Owed afterwards is what was owed, and every key given back that something would
      rebuild: one this node knows, or one on record by then. */
  lemma {:induction false} OwingAllOwes(l: Ledger, us: seq<Undo>, known: set<RouteKey>, k: RouteKey)
    ensures k in OwingAll(l, us, known).owed
       <==> k in l.owed || exists i | 0 <= i < |us| :: us[i].key == k && Rebuilt(l, us[..i + 1], known, k)
  {
    if us == [] {
    } else {
      var last := |us| - 1;
      var before := us[..last];
      OwingAllOwes(l, before, known, k);
      OwingAllGivesBack(l, us, known, k);
      assert us[..last + 1] == us;
      assert forall i | 0 <= i < last :: before[i] == us[i] && before[..i + 1] == us[..i + 1];
      assert forall i | 0 <= i < last :: us[i].key == k ==> before[i].key == k;
    }
  }

  // ----- what a dump covers -----

  predicate NoRepeats(keys: seq<RouteKey>) {
    forall i, j | 0 <= i < j < |keys| :: keys[i] != keys[j]
  }

  predicate ToldToSome(told: seq<set<RouteKey>>, k: RouteKey) {
    exists i | 0 <= i < |told| :: k in told[i]
  }

  method AddAll(keys: seq<RouteKey>, more: set<RouteKey>) returns (all: seq<RouteKey>)
    requires NoRepeats(keys)
    ensures NoRepeats(all) && forall k :: k in all <==> k in keys || k in more
  {
    all := keys;
    var todo := more;
    while todo != {}
      invariant NoRepeats(all)
      invariant forall k | k in todo :: k in more
      invariant forall k :: k in all <==> k in keys || (k in more && k !in todo)
      decreases todo
    {
      var k :| k in todo;
      todo := todo - {k};
      if k !in all {
        all := all + [k];
      }
    }
  }

  /** Everything originated, everything in the route table, and everything some
      neighbor was told is reachable, once each. */
  method AdvertisableKeys(originate: set<RouteKey>, entries: set<RouteKey>, told: seq<set<RouteKey>>)
    returns (keys: seq<RouteKey>)
    ensures NoRepeats(keys)
    ensures forall k :: k in keys <==> k in originate || k in entries || ToldToSome(told, k)
  {
    keys := AddAll([], originate);
    keys := AddAll(keys, entries);
    for i := 0 to |told|
      invariant NoRepeats(keys)
      invariant forall k :: k in keys <==> k in originate || k in entries || ToldToSome(told[..i], k)
    {
      keys := AddAll(keys, told[i]);
      forall k
        ensures ToldToSome(told[..i + 1], k) <==> ToldToSome(told[..i], k) || k in told[i]
      {
        ToldGrows(told, i, k);
      }
    }
    assert told[..|told|] == told;
  }

  lemma ToldGrows(told: seq<set<RouteKey>>, i: nat, k: RouteKey)
    requires i < |told|
    ensures ToldToSome(told[..i + 1], k) <==> ToldToSome(told[..i], k) || k in told[i]
  {
    if k in told[i] {
      assert told[..i + 1][i] == told[i];
    }
    if ToldToSome(told[..i], k) {
      var j :| 0 <= j < i && k in told[..i][j];
      assert k in told[..i + 1][j];
    }
    if ToldToSome(told[..i + 1], k) {
      var j :| 0 <= j < i + 1 && k in told[..i + 1][j];
      assert j < i ==> k in told[..i][j];
    }
  }

  /** What a dump over these keys says to a neighbor with this record. */
  function Dumped(l: Ledger, keys: seq<RouteKey>, reach: set<RouteKey>): seq<Said> {
    if keys == [] then []
    else
      var last := keys[|keys| - 1];
      var one := Speech(l, last, false, last in reach);
      Dumped(l, keys[..|keys| - 1], reach) + if one.Some? then [one.value] else []
  }

  /** It speaks of every reachable key and of every one the neighbor was told is
      reachable, and of nothing else. */
  lemma {:induction false} DumpedHas(l: Ledger, keys: seq<RouteKey>, reach: set<RouteKey>, x: Said)
    ensures x in Dumped(l, keys, reach) <==> x.key in keys && Some(x) == Speech(l, x.key, false, x.key in reach)
  {
    if keys == [] {
    } else {
      DumpedHas(l, keys[..|keys| - 1], reach, x);
      assert keys == keys[..|keys| - 1] + [keys[|keys| - 1]];
    }
  }

  /** Once each, if the keys are. */
  lemma {:induction false} DumpedOnce(l: Ledger, keys: seq<RouteKey>, reach: set<RouteKey>)
    requires NoRepeats(keys)
    ensures var said := Dumped(l, keys, reach); forall i, j | 0 <= i < j < |said| :: said[i].key != said[j].key
  {
    if keys == [] {
    } else {
      var before, last := keys[..|keys| - 1], keys[|keys| - 1];
      DumpedOnce(l, before, reach);
      var said := Dumped(l, before, reach);
      forall i | 0 <= i < |said| ensures said[i].key != last {
        DumpedHas(l, before, reach, said[i]);
      }
    }
  }

  class Neighbor {
    var advertised: set<RouteKey>
    var owed: set<RouteKey>

    function Record(): Ledger
      reads this
    {
      Ledger(advertised, owed)
    }

    method AdvertiseTo(key: RouteKey, force: bool, finite: bool) returns (said: Option<Said>)
      modifies this
      ensures said == Speech(old(Record()), key, force, finite)
      ensures Record() == Spoken(old(Record()), key, finite)
    {
      if finite {
        advertised := advertised + {key};
        return Some(Said(key, true, false));
      }
      var sent := key in advertised;
      if !sent && !force {
        return None;
      }
      if sent {
        advertised := advertised - {key};
      }
      return Some(Said(key, false, sent));
    }

    /** A dump over the given keys speaks of every reachable one and of every one
        the neighbor was told is reachable, once each and in order. */
    method DumpFor(keys: seq<RouteKey>, reach: set<RouteKey>) returns (said: seq<Said>)
      requires NoRepeats(keys)
      modifies this
      ensures owed == old(owed)
      ensures forall k :: k in advertised <==> if k in keys then k in reach else k in old(advertised)
      ensures said == Dumped(old(Record()), keys, reach)
      ensures forall i, j | 0 <= i < j < |said| :: said[i].key != said[j].key
    {
      said := [];
      for n := 0 to |keys|
        invariant owed == old(owed) && said == Dumped(old(Record()), keys[..n], reach)
        invariant forall k :: k in advertised <==> if k in keys[..n] then k in reach else k in old(advertised)
      {
        assert keys[n] !in keys[..n];
        var one := AdvertiseTo(keys[n], false, keys[n] in reach);
        if one.Some? {
          said := said + [one.value];
        }
        assert keys[..n + 1][..n] == keys[..n] && keys[..n + 1] == keys[..n] + [keys[n]];
      }
      assert keys[..|keys|] == keys;
      DumpedOnce(old(Record()), keys, reach);
    }

    method OweAgain(u: Undo, known: set<RouteKey>)
      modifies this
      ensures Record() == Owing(old(Record()), u, known)
    {
      if u.spent {
        advertised := advertised + {u.key};
      }
      if u.key in known || u.key in advertised {
        owed := owed + {u.key};
      }
    }

    /** Gives back everything the senders lost since the last pass. */
    method ApplyLost(lost: seq<Undo>, known: set<RouteKey>)
      modifies this
      ensures Record() == OwingAll(old(Record()), lost, known)
    {
      for i := 0 to |lost|
        invariant Record() == OwingAll(old(Record()), lost[..i], known)
      {
        assert lost[..i + 1][..i] == lost[..i];
        OweAgain(lost[i], known);
      }
      assert lost[..|lost|] == lost;
    }
  }

  // ----- every interleaving with the senders -----

  /** The record, the Updates built but not yet placed, those placed and not yet
      sent, those reported lost; and what the neighbor heard last of each prefix
      and which prefixes were ever offered to it. */
  datatype State = State(
    ledger: Ledger, building: seq<Said>, queue: seq<Said>, lost: seq<Undo>, told: set<RouteKey>, offered: set<RouteKey>)

  /** known is the set of prefixes in the route table or originated at that time. */
  datatype Step =
    | Advertise(key: RouteKey, force: bool, finite: bool)
    | Place
    | Refuse(known: set<RouteKey>)
    | Deliver
    | Lose(i: nat)
    | GiveBack(known: set<RouteKey>)
    | Supersede

  function Without(s: seq<Said>, i: nat): seq<Said>
    requires i < |s|
  {
    s[..i] + s[i + 1..]
  }

  predicate Enabled(s: State, e: Step) {
    match e
    case Place => s.building != []
    case Refuse(_) => s.building != []
    case Deliver => s.queue != []
    case Lose(i) => i < |s.queue|
    case _ => true
  }

  /** Places are taken in the order the Updates were built, delivery follows that
      order, and any packet on the way may be lost. */
  function Next(s: State, e: Step): State
    requires Enabled(s, e)
  {
    match e
    case Advertise(key, force, finite) =>
      var said := Speech(s.ledger, key, force, finite);
      s.(ledger := Spoken(s.ledger, key, finite),
         building := if said.Some? then s.building + [said.value] else s.building,
         offered := if finite then s.offered + {key} else s.offered)
    case Place => s.(building := s.building[1..], queue := s.queue + [s.building[0]])
    case Refuse(known) =>
      s.(building := s.building[1..], ledger := Owing(s.ledger, Undo(s.building[0].key, s.building[0].spent), known))
    case Deliver =>
      var x := s.queue[0];
      s.(queue := s.queue[1..], told := if x.finite then s.told + {x.key} else s.told - {x.key})
    case Lose(i) => s.(queue := Without(s.queue, i), lost := s.lost + [Undo(s.queue[i].key, s.queue[i].spent)])
    case GiveBack(known) => s.(ledger := OwingAll(s.ledger, s.lost, known), lost := [])
    case Supersede => s.(ledger := s.ledger.(owed := {}))
  }

  /** Read back from its end, the line retracts k before it offers it, or offers
      it nowhere and the neighbor does not hold it. Only a retraction that spent
      the record counts: its loss gives the record back. */
  predicate Retracting(line: seq<Said>, told: bool, k: RouteKey) {
    if line == [] then !told
    else
      var x := line[|line| - 1];
      if x.key == k && x.finite then false
      else if x.key == k && x.spent then true
      else Retracting(line[..|line| - 1], told, k)
  }

  predicate Remembered(s: State, k: RouteKey) {
    || k in s.ledger.advertised
    || Undo(k, true) in s.lost
    || Retracting(s.queue + s.building, k in s.told, k)
  }

  lemma {:induction false} LosingKeeps(line: seq<Said>, i: nat, told: bool, k: RouteKey)
    requires i < |line| && Retracting(line, told, k) && !(line[i].key == k && line[i].spent)
    ensures Retracting(Without(line, i), told, k)
  {
    var last := |line| - 1;
    if i == last {
      assert Without(line, i) == line[..last];
    } else if !(line[last].key == k && line[last].spent) {
      LosingKeeps(line[..last], i, told, k);
      assert Without(line, i)[..last - 1] == Without(line[..last], i);
    }
  }

  lemma {:induction false} DeliveringKeeps(line: seq<Said>, told: bool, k: RouteKey)
    requires line != [] && Retracting(line, told, k) && (line[0].finite ==> !line[0].spent)
    ensures Retracting(line[1..], if line[0].key == k then line[0].finite else told, k)
  {
    var last := |line| - 1;
    if last <= 0 || (line[last].key == k && line[last].spent) {
    } else {
      DeliveringKeeps(line[..last], told, k);
      assert line[..last][1..] == line[1..][..last - 1];
    }
  }

  /** The record spent is exactly the record held. */
  ghost predicate Honest(s: State) {
    && (forall x | x in s.queue || x in s.building :: x.finite ==> !x.spent)
    && (forall x | x in s.queue || x in s.building :: x.spent ==> x.key in s.offered)
    && (forall u | u in s.lost :: u.spent ==> u.key in s.offered)
    && s.ledger.advertised <= s.offered
  }

  lemma AdvertiseKeeps(s: State, e: Step, k: RouteKey)
    requires e.Advertise? && Remembered(s, k)
    ensures Remembered(Next(s, e), k)
  {
    var said := Speech(s.ledger, e.key, e.force, e.finite);
    if said.Some? {
      assert (s.queue + (s.building + [said.value]))[..|s.queue| + |s.building|] == s.queue + s.building;
    }
  }

  lemma RefuseKeeps(s: State, e: Step, k: RouteKey)
    requires e.Refuse? && Enabled(s, e) && Remembered(s, k)
    ensures Remembered(Next(s, e), k)
  {
    var line, x := s.queue + s.building, s.building[0];
    assert line[|s.queue|] == x;
    if !(x.key == k && x.spent) && Retracting(line, k in s.told, k) {
      LosingKeeps(line, |s.queue|, k in s.told, k);
      assert Without(line, |s.queue|) == s.queue + s.building[1..];
    }
  }

  lemma LoseKeeps(s: State, e: Step, k: RouteKey)
    requires e.Lose? && Enabled(s, e) && Remembered(s, k)
    ensures Remembered(Next(s, e), k)
  {
    var line, x := s.queue + s.building, s.queue[e.i];
    var undo := Undo(x.key, x.spent);
    assert (s.lost + [undo])[|s.lost|] == undo;
    if !(x.key == k && x.spent) && Retracting(line, k in s.told, k) {
      LosingKeeps(line, e.i, k in s.told, k);
      assert Without(line, e.i) == Without(s.queue, e.i) + s.building;
    }
  }

  lemma StepKeeps(s: State, e: Step, k: RouteKey)
    requires Honest(s) && Enabled(s, e) && Remembered(s, k)
    ensures Remembered(Next(s, e), k)
  {
    match e
    case Advertise(_, _, _) => AdvertiseKeeps(s, e, k);
    case Place => assert (s.queue + [s.building[0]]) + s.building[1..] == s.queue + s.building;
    case Refuse(_) => RefuseKeeps(s, e, k);
    case Deliver =>
      var line := s.queue + s.building;
      assert s.queue[0] in s.queue && line[0] == s.queue[0];
      if Retracting(line, k in s.told, k) {
        DeliveringKeeps(line, k in s.told, k);
        assert line[1..] == s.queue[1..] + s.building;
      }
    case Lose(_) => LoseKeeps(s, e, k);
    case GiveBack(known) => OwingAllGivesBack(s.ledger, s.lost, known, k);
    case Supersede =>
  }

  lemma StepIsHonest(s: State, e: Step)
    requires Honest(s) && Enabled(s, e)
    ensures Honest(Next(s, e))
  {
    match e
    case GiveBack(known) =>
      forall k | k in OwingAll(s.ledger, s.lost, known).advertised
        ensures k in s.offered
      {
        OwingAllGivesBack(s.ledger, s.lost, known, k);
      }
    case Lose(i) => assert s.queue[i] in s.queue;
    case Refuse(_) => assert s.building[0] in s.building;
    case Place => assert s.building[0] in s.building;
    case _ =>
  }

  const START := State(Ledger({}, {}), [], [], [], {}, {})

  predicate Follows(s: State, t: State, e: Step) {
    Enabled(s, e) && t == Next(s, e)
  }

  ghost predicate Run(trace: seq<State>, steps: seq<Step>) {
    && |trace| == |steps| + 1 && trace[0] == START
    && forall i | 0 <= i < |steps| :: Follows(trace[i], trace[i + 1], steps[i])
  }

  lemma {:induction false} EveryRunRemembers(trace: seq<State>, steps: seq<Step>, n: nat, k: RouteKey)
    requires Run(trace, steps) && n < |trace|
    ensures Honest(trace[n]) && Remembered(trace[n], k)
  {
    if n == 0 {
    } else {
      EveryRunRemembers(trace, steps, n - 1, k);
      assert Follows(trace[n - 1], trace[n], steps[n - 1]);
      StepIsHonest(trace[n - 1], steps[n - 1]);
      StepKeeps(trace[n - 1], steps[n - 1], k);
    }
  }

  lemma {:induction false} RetractingHasWitness(line: seq<Said>, k: RouteKey)
    requires Retracting(line, true, k)
    ensures Said(k, false, true) in line
  {
    var x := line[|line| - 1];
    if x.key == k && x.spent {
      assert x == Said(k, false, true);
    } else {
      RetractingHasWitness(line[..|line| - 1], k);
    }
  }

  /** A prefix the neighbor holds is recorded as advertised, or a retraction that
      spent the record is on its way, or its loss has been reported. */
  lemma NoRetractionIsForgotten(trace: seq<State>, steps: seq<Step>, n: nat, k: RouteKey)
    requires Run(trace, steps) && n < |trace| && k in trace[n].told
    ensures var s := trace[n];
      || k in s.ledger.advertised
      || Undo(k, true) in s.lost
      || Said(k, false, true) in s.queue + s.building
  {
    EveryRunRemembers(trace, steps, n, k);
    var s := trace[n];
    if Retracting(s.queue + s.building, true, k) {
      RetractingHasWitness(s.queue + s.building, k);
    }
  }

  /** The next dump, over the keys any dump is made of, speaks of every prefix the
      neighbor holds, unless a retraction of it is on its way already. */
  lemma TheNextDumpSpeaks(trace: seq<State>, steps: seq<Step>, n: nat, k: RouteKey, known: set<RouteKey>,
                          originate: set<RouteKey>, entries: set<RouteKey>, others: seq<set<RouteKey>>,
                          keys: seq<RouteKey>, reach: set<RouteKey>)
    requires Run(trace, steps) && n < |trace| && k in trace[n].told
    requires var told := others + [OwingAll(trace[n].ledger, trace[n].lost, known).advertised];
             forall q :: q in keys <==> q in originate || q in entries || ToldToSome(told, q)
    ensures var l := OwingAll(trace[n].ledger, trace[n].lost, known);
      || Said(k, false, true) in trace[n].queue + trace[n].building
      || (k in keys && exists x :: x in Dumped(l, keys, reach) && x.key == k)
  {
    NoRetractionIsForgotten(trace, steps, n, k);
    OwingAllGivesBack(trace[n].ledger, trace[n].lost, known, k);
    var l := OwingAll(trace[n].ledger, trace[n].lost, known);
    if k in l.advertised {
      var told := others + [l.advertised];
      assert k in told[|others|];
      var x := Speech(l, k, false, k in reach).value;
      DumpedHas(l, keys, reach, x);
    }
  }

  // ----- no offer is forgotten -----

  /** The last word about k in the line is an offer. */
  predicate LastIsOffer(line: seq<Said>, k: RouteKey) {
    if line == [] then false
    else
      var x := line[|line| - 1];
      if x.key == k then x.finite else LastIsOffer(line[..|line| - 1], k)
  }

  predicate Mentions(line: seq<Said>, k: RouteKey) {
    exists i | 0 <= i < |line| :: line[i].key == k
  }

  /** Taking something else out of the line leaves its last word about k. */
  lemma {:induction false} OfferStays(line: seq<Said>, i: nat, k: RouteKey)
    requires i < |line| && LastIsOffer(line, k)
    ensures LastIsOffer(Without(line, i), k) || (line[i].key == k && line[i].finite)
  {
    var last := |line| - 1;
    if i == last {
      assert Without(line, i) == line[..last];
    } else {
      assert Without(line, i)[|line| - 2] == line[last];
      assert Without(line, i)[..|line| - 2] == Without(line[..last], i);
      if line[last].key != k {
        OfferStays(line[..last], i, k);
      }
    }
  }

  lemma {:induction false} OfferIsMentioned(line: seq<Said>, k: RouteKey)
    requires LastIsOffer(line, k)
    ensures Said(k, true, false) in line || Said(k, true, true) in line
  {
    var last := |line| - 1;
    if line[last].key == k {
      assert line[last] == Said(k, true, line[last].spent);
    } else {
      OfferIsMentioned(line[..last], k);
    }
  }

  /** The last word about k reaches the neighbor. */
  predicate Heard(s: State, e: Step, k: RouteKey) {
    e.Deliver? && s.queue != [] && s.queue[0].key == k && !Mentions(s.queue[1..] + s.building, k)
  }

  /** Delivering an earlier word leaves the last one. */
  lemma {:induction false} OfferOutlivesTheHead(line: seq<Said>, k: RouteKey)
    requires line != [] && LastIsOffer(line, k) && (line[0].key == k ==> Mentions(line[1..], k))
    ensures LastIsOffer(line[1..], k)
  {
    var last := |line| - 1;
    if last == 0 {
    } else {
      assert line[1..][last - 1] == line[last] && line[1..][..last - 1] == line[..last][1..];
      if line[last].key != k {
        if line[0].key == k {
          var i :| 0 <= i < |line[1..]| && line[1..][i].key == k;
          assert line[..last][1..][i].key == k;
        }
        OfferOutlivesTheHead(line[..last], k);
      }
    }
  }

  /** An offer of k is on record and on its way, reported lost, or owed. */
  ghost predicate Pursued(s: State, k: RouteKey) {
    k in s.ledger.advertised && (LastIsOffer(s.queue + s.building, k) || Undo(k, false) in s.lost || k in s.ledger.owed)
  }

  lemma OfferIsPursued(s: State, e: Step)
    requires e.Advertise? && e.finite
    ensures Pursued(Next(s, e), e.key)
  {
    var t := Next(s, e);
    var line := t.queue + t.building;
    assert line[|line| - 1] == Said(e.key, true, false);
  }

  lemma RefusedIsPursued(s: State, e: Step, k: RouteKey)
    requires Pursued(s, k) && e.Refuse? && Enabled(s, e)
    ensures Pursued(Next(s, e), k)
  {
    var line := s.queue + s.building;
    if LastIsOffer(line, k) {
      OfferStays(line, |s.queue|, k);
      assert Without(line, |s.queue|) == s.queue + s.building[1..];
    }
  }

  lemma LostIsPursued(s: State, e: Step, k: RouteKey)
    requires Honest(s) && Pursued(s, k) && e.Lose? && Enabled(s, e)
    ensures Pursued(Next(s, e), k)
  {
    var line, x := s.queue + s.building, s.queue[e.i];
    assert x in s.queue;
    assert (s.lost + [Undo(x.key, x.spent)])[|s.lost|] == Undo(x.key, x.spent);
    if LastIsOffer(line, k) {
      OfferStays(line, e.i, k);
      assert Without(line, e.i) == Without(s.queue, e.i) + s.building;
    }
  }

  lemma GivenBackIsPursued(s: State, e: Step, k: RouteKey)
    requires Pursued(s, k) && e.GiveBack?
    ensures Pursued(Next(s, e), k)
  {
    OwingAllGivesBack(s.ledger, s.lost, e.known, k);
    OwingAllOwes(s.ledger, s.lost, e.known, k);
    if Undo(k, false) in s.lost {
      var i :| 0 <= i < |s.lost| && s.lost[i] == Undo(k, false);
      assert s.lost[i].key == k;
    }
  }

  lemma StepPursues(s: State, e: Step, k: RouteKey)
    requires Honest(s) && Enabled(s, e) && Pursued(s, k)
    requires !(e.Advertise? && e.key == k) && !e.Supersede? && !Heard(s, e, k)
    ensures Pursued(Next(s, e), k)
  {
    var line := s.queue + s.building;
    match e
    case Advertise(_, _, _) =>
      var t := Next(s, e);
      assert t.building != s.building ==> (t.queue + t.building)[..|line|] == line;
    case Place => assert (s.queue + [s.building[0]]) + s.building[1..] == line;
    case Refuse(_) => RefusedIsPursued(s, e, k);
    case Deliver =>
      assert line[1..] == s.queue[1..] + s.building && line[0] == s.queue[0];
      if LastIsOffer(line, k) {
        OfferOutlivesTheHead(line, k);
      }
    case Lose(_) => LostIsPursued(s, e, k);
    case GiveBack(_) => GivenBackIsPursued(s, e, k);
    case Supersede =>
  }

  /** An offer once built is on its way, reported lost or owed in every later state,
      until the neighbor hears it, there is a later word about the prefix, or a dump
      takes the place of all that is owed. */
  lemma {:induction false} NoOfferIsForgotten(trace: seq<State>, steps: seq<Step>, j: nat, n: nat, k: RouteKey)
    requires Run(trace, steps) && j < n < |trace|
    requires steps[j].Advertise? && steps[j].key == k && steps[j].finite
    requires forall i | j < i < n ::
      !(steps[i].Advertise? && steps[i].key == k) && !steps[i].Supersede? && !Heard(trace[i], steps[i], k)
    ensures k in trace[n].ledger.advertised
    ensures var s := trace[n];
      Said(k, true, false) in s.queue + s.building || Undo(k, false) in s.lost || k in s.ledger.owed
    ensures Pursued(trace[n], k)
  {
    assert Follows(trace[n - 1], trace[n], steps[n - 1]);
    EveryRunRemembers(trace, steps, n - 1, k);
    if n == j + 1 {
      OfferIsPursued(trace[j], steps[j]);
    } else {
      NoOfferIsForgotten(trace, steps, j, n - 1, k);
      StepPursues(trace[n - 1], steps[n - 1], k);
    }
    EveryRunRemembers(trace, steps, n, k);
    var line := trace[n].queue + trace[n].building;
    if LastIsOffer(line, k) {
      OfferIsMentioned(line, k);
    }
  }

  /** Nothing is recorded that was never offered: a refused answer to a request
      for an unknown prefix leaves no phantom. */
  lemma NoPhantoms(trace: seq<State>, steps: seq<Step>, n: nat, k: RouteKey, known: set<RouteKey>)
    requires Run(trace, steps) && n < |trace|
    requires k in OwingAll(trace[n].ledger, trace[n].lost, known).advertised
    ensures k in trace[n].offered
  {
    EveryRunRemembers(trace, steps, n, k);
    OwingAllGivesBack(trace[n].ledger, trace[n].lost, known, k);
  }
}
