/** Merging the actions of one pass that go to the same place. */
module BabelCoalesce {
  import opened BabelTlv
  import opened BabelPackets
  import opened BabelSources
  import opened Wrappers

  datatype Target = Target(neighbor: Peer, dest: nat, priority: nat)

  /** TLVs for one target, what they consumed, and the callbacks to run when the
      action is refused. */
  datatype Action = Action(target: Target, tlvs: seq<Tlv>, rollback: seq<TlvUndo>, whenRefused: seq<nat>)

  function Shifted(us: seq<TlvUndo>, offset: int): (r: seq<TlvUndo>)
    ensures |r| == |us| && forall i | 0 <= i < |us| :: r[i] == us[i].(firstTLV := us[i].firstTLV + offset)
  {
    seq(|us|, i requires 0 <= i < |us| => us[i].(firstTLV := us[i].firstTLV + offset))
  }

  /** b's TLVs after a's, its undos renumbered onto them. */
  function Merged(a: Action, b: Action): Action {
    Action(a.target, a.tlvs + b.tlvs, a.rollback + Shifted(b.rollback, |a.tlvs|), a.whenRefused + b.whenRefused)
  }

  /** All that is said to one target, in order. */
  function Gathered(as': seq<Action>, t: Target): (r: Option<Action>)
    ensures r.Some? ==> r.value.target == t
  {
    if as' == [] then None
    else
      var before, a := Gathered(as'[..|as'| - 1], t), as'[|as'| - 1];
      if a.target != t || a.tlvs == [] then before
      else if before == None then Some(a)
      else Some(Merged(before.value, a))
  }

  /** The targets something is said to, in order of first mention. */
  function Targets(as': seq<Action>): (ts: seq<Target>) {
    if as' == [] then []
    else
      var before, a := Targets(as'[..|as'| - 1]), as'[|as'| - 1];
      if a.tlvs == [] || a.target in before then before else before + [a.target]
  }

  lemma {:induction false} TargetsAreGathered(as': seq<Action>, t: Target)
    ensures t in Targets(as') <==> Gathered(as', t).Some?
  {
    if as' == [] {
    } else {
      TargetsAreGathered(as'[..|as'| - 1], t);
      var a := as'[|as'| - 1];
      if a.target != t && a.tlvs != [] && a.target !in Targets(as'[..|as'| - 1]) {
        assert t in Targets(as') <==> t in Targets(as'[..|as'| - 1]);
      }
    }
  }

  /** The merged list so far, and where each target stands in it. */
  predicate Filed(as': seq<Action>, merged: seq<Action>, at: map<Target, nat>) {
    && |merged| == |Targets(as')|
    && (forall i | 0 <= i < |merged| :: Some(merged[i]) == Gathered(as', Targets(as')[i]))
    && (forall i | 0 <= i < |merged| :: Targets(as')[i] in at && at[Targets(as')[i]] == i)
    && (forall t | t in at :: at[t] < |merged| && Targets(as')[at[t]] == t)
  }

  /** One action per target, in order of first mention, each saying all that was
      addressed to the target; actions that say nothing are left out. */
  method Coalesce(actions: seq<Action>) returns (merged: seq<Action>)
    ensures |actions| < 2 ==> merged == actions
    ensures |actions| >= 2 ==>
      && |merged| == |Targets(actions)|
      && forall i | 0 <= i < |merged| :: Some(merged[i]) == Gathered(actions, Targets(actions)[i])
  {
    if |actions| < 2 {
      return actions;
    }
    merged := [];
    var at: map<Target, nat> := map[];
    for n := 0 to |actions|
      invariant Filed(actions[..n], merged, at)
    {
      var a := actions[n];
      assert actions[..n + 1][..n] == actions[..n];
      if a.tlvs != [] {
        FileOne(actions[..n], a, merged, at);
        if a.target !in at {
          at := at[a.target := |merged|];
          merged := merged + [a];
        } else {
          var i := at[a.target];
          merged := merged[i := Merged(merged[i], a)];
        }
        assert actions[..n + 1] == actions[..n] + [a];
      } else {
        SaysNothing(actions[..n + 1], merged, at);
      }
    }
    assert actions[..|actions|] == actions;
  }

  lemma SaysNothing(as': seq<Action>, merged: seq<Action>, at: map<Target, nat>)
    requires as' != [] && as'[|as'| - 1].tlvs == [] && Filed(as'[..|as'| - 1], merged, at)
    ensures Filed(as', merged, at)
  {}

  lemma FileOne(as': seq<Action>, a: Action, merged: seq<Action>, at: map<Target, nat>)
    requires a.tlvs != [] && Filed(as', merged, at)
    ensures a.target !in at ==> Filed(as' + [a], merged + [a], at[a.target := |merged|])
    ensures a.target in at ==> Filed(as' + [a], merged[at[a.target] := Merged(merged[at[a.target]], a)], at)
  {
    assert (as' + [a])[..|as'|] == as';
    TargetsAreGathered(as', a.target);
  }

  // ----- what merging keeps -----

  predicate ActionOk(a: Action) {
    Paired(a.tlvs) && Ascending(a.rollback) && Between(a.rollback, 0, |a.tlvs|)
  }

  /** A merged action says one after the other what its parts say, and every undo
      still points at the TLV it was filed under. */
  lemma MergingKeeps(a: Action, b: Action)
    requires ActionOk(a) && ActionOk(b)
    ensures ActionOk(Merged(a, b))
    ensures Read(Merged(a, b).tlvs, []) == Read(a.tlvs, []) + Read(b.tlvs, [])
    ensures forall i | 0 <= i < |a.rollback| ::
      Merged(a, b).tlvs[Merged(a, b).rollback[i].firstTLV] == a.tlvs[a.rollback[i].firstTLV]
    ensures forall i | 0 <= i < |b.rollback| ::
      Merged(a, b).tlvs[Merged(a, b).rollback[|a.rollback| + i].firstTLV] == b.tlvs[b.rollback[i].firstTLV]
  {
    ReadJoins(a.tlvs, b.tlvs, []);
    FreshReading(b.tlvs, InEffect(a.tlvs, []));
    JoinIsPaired(a.tlvs, b.tlvs);
  }

  lemma JoinIsPaired(a: seq<Tlv>, b: seq<Tlv>)
    requires Paired(a) && Paired(b)
    ensures Paired(a + b)
  {
    var c := a + b;
    forall i | 0 <= i < |c| && c[i].kind == UPDATE
      ensures i > 0 && c[i - 1].kind == ROUTER_ID
    {
      if i >= |a| {
        assert b[i - |a|].kind == UPDATE;
      }
    }
  }

  /** What the actions for one target say, one after the other. */
  function SaidTo(as': seq<Action>, t: Target): seq<Item> {
    if as' == [] then []
    else
      var a := as'[|as'| - 1];
      SaidTo(as'[..|as'| - 1], t) + if a.target == t then Read(a.tlvs, []) else []
  }

  /** The one action gathered for a target is well formed and says all of it; where none
      is gathered there was nothing to say. */
  lemma {:induction false} GatheringKeeps(as': seq<Action>, t: Target)
    requires forall a | a in as' :: ActionOk(a)
    ensures Gathered(as', t).Some? ==>
      ActionOk(Gathered(as', t).value) && Read(Gathered(as', t).value.tlvs, []) == SaidTo(as', t)
    ensures Gathered(as', t).None? ==> SaidTo(as', t) == []
  {
    if as' == [] {
    } else {
      var before, a := Gathered(as'[..|as'| - 1], t), as'[|as'| - 1];
      GatheringKeeps(as'[..|as'| - 1], t);
      if before.Some? {
        MergingKeeps(before.value, a);
      }
    }
  }

  /** Nothing is gathered but TLVs of the actions. */
  lemma {:induction false} GatheringDraws(as': seq<Action>, t: Target, x: Tlv)
    requires Gathered(as', t).Some? && x in Gathered(as', t).value.tlvs
    ensures exists a :: a in as' && x in a.tlvs
  {
    var before, a := Gathered(as'[..|as'| - 1], t), as'[|as'| - 1];
    if before.Some? && x in before.value.tlvs {
      GatheringDraws(as'[..|as'| - 1], t, x);
    } else {
      assert a in as' && x in a.tlvs;
    }
  }

  /** The callbacks of the actions for one target that say anything, one after the other. */
  function RefusedTo(as': seq<Action>, t: Target): seq<nat> {
    if as' == [] then []
    else
      var a := as'[|as'| - 1];
      RefusedTo(as'[..|as'| - 1], t) + if a.target == t && a.tlvs != [] then a.whenRefused else []
  }

  /** What those actions consumed, one after the other. */
  function ConsumedBy(as': seq<Action>, t: Target): seq<(RouteKey, bool)> {
    if as' == [] then []
    else
      var a := as'[|as'| - 1];
      ConsumedBy(as'[..|as'| - 1], t) + if a.target == t && a.tlvs != [] then Consumed(a.rollback) else []
  }

  function Consumed(us: seq<TlvUndo>): seq<(RouteKey, bool)> {
    seq(|us|, i requires 0 <= i < |us| => (us[i].key, us[i].spent))
  }

  lemma ConsumedJoins(us: seq<TlvUndo>, vs: seq<TlvUndo>, offset: int)
    ensures Consumed(us + Shifted(vs, offset)) == Consumed(us) + Consumed(vs)
  {}

  /** Refusing what was gathered runs every callback and undoes everything consumed, in
      the order the actions were built. */
  lemma {:induction false} GatheringUndoes(as': seq<Action>, t: Target)
    ensures match Gathered(as', t)
            case None => RefusedTo(as', t) == [] && ConsumedBy(as', t) == []
            case Some(a) => a.whenRefused == RefusedTo(as', t) && Consumed(a.rollback) == ConsumedBy(as', t)
  {
    if as' == [] {
    } else {
      var before, a := Gathered(as'[..|as'| - 1], t), as'[|as'| - 1];
      GatheringUndoes(as'[..|as'| - 1], t);
      if before.Some? {
        ConsumedJoins(before.value.rollback, a.rollback, |before.value.tlvs|);
      }
    }
  }
}
