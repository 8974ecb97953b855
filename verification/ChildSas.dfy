/** The Child SA lifecycle of one IKE session and the SPIs routed to it. */
module ChildSas {
  import opened Deadlines

  type Spi = nat
  type MuxId = nat

  datatype ChildSA = ChildSA(localSpi: Spi, remoteSpi: Spi)
  datatype Retirement = Retirement(spi: Spi, expiresAt: Time)

  const NO_CHILD := ChildSA(0, 0)
  const RETIREMENT_DEADLINE: Time := 30

  predicate Owns(esp: map<Spi, MuxId>, m: MuxId, spi: Spi) {
    spi in esp && esp[spi] == m
  }

  /** Which mux an inbound SPI is routed to. */
  class Hub {
    var esp: map<Spi, MuxId>

    /** Claims an SPI for m; one that is zero or another's is refused, and so is
        any once the transport is closed. */
    method RegisterEsp(m: MuxId, spi: Spi, closed: bool) returns (ok: bool)
      modifies this
      ensures ok <==> spi != 0 && !closed && (spi in old(esp) ==> old(esp)[spi] == m)
      ensures esp == if ok then old(esp)[spi := m] else old(esp)
      ensures forall o, s | o != m :: Owns(esp, o, s) <==> Owns(old(esp), o, s)
    {
      if spi == 0 || closed || (spi in esp && esp[spi] != m) {
        return false;
      }
      esp := esp[spi := m];
      return true;
    }

    method UnregisterEsp(m: MuxId, spi: Spi)
      modifies this
      ensures esp == if Owns(old(esp), m, spi) then old(esp) - {spi} else old(esp)
      ensures forall o, s | o != m :: Owns(esp, o, s) <==> Owns(old(esp), o, s)
    {
      if spi in esp && esp[spi] == m {
        esp := esp - {spi};
      }
    }
  }

  // ----- what a session keeps -----

  /** The active Child SA, the one it replaced that awaits the peer's Delete and
      until when, and those draining. */
  datatype Children = Children(active: ChildSA, retiring: ChildSA, retiringBy: Time, retired: seq<Retirement>)

  predicate Draining(c: Children, spi: Spi) {
    exists i | 0 <= i < |c.retired| :: c.retired[i].spi == spi
  }

  predicate Live(c: Children, spi: Spi) {
    spi != 0 && (spi == c.active.localSpi || spi == c.retiring.localSpi || Draining(c, spi))
  }

  /** No SPI plays two roles. */
  predicate RolesDistinct(c: Children) {
    && (c.active.localSpi != 0 ==> c.active.localSpi != c.retiring.localSpi && !Draining(c, c.active.localSpi))
    && (c.retiring.localSpi != 0 ==> !Draining(c, c.retiring.localSpi))
    && (forall i | 0 <= i < |c.retired| :: c.retired[i].spi != 0)
    && (forall i, j | 0 <= i < j < |c.retired| :: c.retired[i].spi != c.retired[j].spi)
  }

  /** Exactly the live SPIs are routed to m. */
  ghost predicate Routed(esp: map<Spi, MuxId>, m: MuxId, c: Children) {
    forall spi :: Owns(esp, m, spi) <==> Live(c, spi)
  }

  /** Expiries ascend, and none lies further off than the delay. */
  predicate Sorted(rs: seq<Retirement>, latest: Time, delay: Time) {
    && (forall i, j | 0 <= i < j < |rs| :: rs[i].expiresAt <= rs[j].expiresAt)
    && (forall i | 0 <= i < |rs| :: 0 < rs[i].expiresAt <= latest + delay)
  }

  ghost predicate Ok(esp: map<Spi, MuxId>, m: MuxId, c: Children, latest: Time, delay: Time) {
    && RolesDistinct(c) && Routed(esp, m, c) && Sorted(c.retired, latest, delay)
    && (c.retiring.localSpi != 0 ==> c.retiringBy > 0)
  }

  // ----- the moves, on values -----

  /** What another session claims or gives up leaves this one's SPIs alone. */
  lemma OthersDoNotMatter(esp: map<Spi, MuxId>, other: MuxId, spi: Spi, m: MuxId, c: Children)
    requires Routed(esp, m, c) && other != m
    ensures spi !in esp || Owns(esp, other, spi) ==> Routed(esp[spi := other], m, c)
    ensures Owns(esp, other, spi) ==> Routed(esp - {spi}, m, c)
  {
    forall s
      ensures s != spi ==> (Owns(esp[spi := other], m, s) <==> Live(c, s)) && (Owns(esp - {spi}, m, s) <==> Live(c, s))
    {
      assert Owns(esp, m, s) <==> Live(c, s);
    }
    assert Owns(esp, m, spi) <==> Live(c, spi);
  }

  function Activated(c: Children, child: ChildSA, now: Time): Children {
    if c.active.localSpi == 0 then c.(active := child)
    else c.(active := child, retiring := c.active, retiringBy := now + RETIREMENT_DEADLINE)
  }

  lemma ActivatingKeeps(esp: map<Spi, MuxId>, m: MuxId, c: Children, child: ChildSA, now: Time)
    requires RolesDistinct(c) && Routed(esp, m, c)
    requires c.retiring.localSpi == 0 && child.localSpi != 0 && !Live(c, child.localSpi)
    ensures RolesDistinct(Activated(c, child, now)) && Routed(esp[child.localSpi := m], m, Activated(c, child, now))
  {
    var d := Activated(c, child, now);
    assert d.retired == c.retired;
    forall spi
      ensures Owns(esp[child.localSpi := m], m, spi) <==> Live(d, spi)
    {
      assert Draining(d, spi) <==> Draining(c, spi);
      assert Owns(esp, m, spi) <==> Live(c, spi);
    }
  }

  /** The retiring SA starts to drain. */
  function Drained(c: Children, at: Time): Children {
    c.(retiring := NO_CHILD, retired := c.retired + [Retirement(c.retiring.localSpi, at)])
  }

  lemma DrainedHas(c: Children, at: Time, spi: Spi)
    ensures Draining(Drained(c, at), spi) <==> Draining(c, spi) || spi == c.retiring.localSpi
  {
    var rs := Drained(c, at).retired;
    if Draining(c, spi) {
      var i :| 0 <= i < |c.retired| && c.retired[i].spi == spi;
      assert rs[i].spi == spi;
    }
    if spi == c.retiring.localSpi {
      assert rs[|c.retired|].spi == spi;
    }
  }

  lemma DrainingKeeps(esp: map<Spi, MuxId>, m: MuxId, c: Children, at: Time)
    requires RolesDistinct(c) && Routed(esp, m, c) && c.retiring.localSpi != 0
    ensures RolesDistinct(Drained(c, at)) && Routed(esp, m, Drained(c, at))
  {
    var d := Drained(c, at);
    forall spi
      ensures Draining(d, spi) <==> Draining(c, spi) || spi == c.retiring.localSpi
    {
      DrainedHas(c, at, spi);
    }
    forall i | 0 <= i < |c.retired|
      ensures c.retired[i].spi != c.retiring.localSpi
    {
      assert c.retired[i].spi == c.retiring.localSpi ==> Draining(c, c.retiring.localSpi);
    }
  }

  lemma DroppingActiveKeeps(esp: map<Spi, MuxId>, m: MuxId, c: Children)
    requires RolesDistinct(c) && Routed(esp, m, c) && c.active.localSpi != 0
    ensures RolesDistinct(c.(active := NO_CHILD)) && Routed(esp - {c.active.localSpi}, m, c.(active := NO_CHILD))
  {
    var d := c.(active := NO_CHILD);
    assert Owns(esp, m, c.active.localSpi);
    forall spi
      ensures Owns(esp - {c.active.localSpi}, m, spi) <==> Live(d, spi)
    {
      assert Draining(d, spi) <==> Draining(c, spi);
      assert Owns(esp, m, spi) <==> Live(c, spi);
    }
  }

  lemma DroppingRetiringKeeps(esp: map<Spi, MuxId>, m: MuxId, c: Children)
    requires RolesDistinct(c) && Routed(esp, m, c) && c.retiring.localSpi != 0
    ensures RolesDistinct(c.(retiring := NO_CHILD)) && Routed(esp - {c.retiring.localSpi}, m, c.(retiring := NO_CHILD))
  {
    var d := c.(retiring := NO_CHILD);
    assert Owns(esp, m, c.retiring.localSpi);
    forall spi
      ensures Owns(esp - {c.retiring.localSpi}, m, spi) <==> Live(d, spi)
    {
      assert Draining(d, spi) <==> Draining(c, spi);
      assert Owns(esp, m, spi) <==> Live(c, spi);
    }
  }

  lemma DroppingHeadKeeps(esp: map<Spi, MuxId>, m: MuxId, c: Children)
    requires RolesDistinct(c) && Routed(esp, m, c) && c.retired != []
    ensures RolesDistinct(c.(retired := c.retired[1..]))
    ensures Routed(esp - {c.retired[0].spi}, m, c.(retired := c.retired[1..]))
  {
    var d, head := c.(retired := c.retired[1..]), c.retired[0].spi;
    forall spi
      ensures Draining(d, spi) <==> Draining(c, spi) && spi != head
    {
      if Draining(c, spi) && spi != head {
        var i :| 0 <= i < |c.retired| && c.retired[i].spi == spi;
        assert d.retired[i - 1].spi == spi;
      }
    }
    assert Draining(c, head) && Owns(esp, m, head);
    forall spi
      ensures Owns(esp - {head}, m, spi) <==> Live(d, spi)
    {
      assert Owns(esp, m, spi) <==> Live(c, spi);
    }
  }

  lemma AppendKeepsSorted(rs: seq<Retirement>, latest: Time, clock: Time, delay: Time, spi: Spi)
    requires Sorted(rs, latest, delay) && latest <= clock && 0 < clock + delay
    ensures Sorted(rs + [Retirement(spi, clock + delay)], clock, delay)
  {}

  /** What is left after entries due by now, all of them removed, have gone from the
      front. */
  ghost predicate Swept(was: seq<Retirement>, rs: seq<Retirement>, now: Time, removes: Spi -> bool) {
    && |rs| <= |was| && rs == was[|was| - |rs|..]
    && forall i | 0 <= i < |was| - |rs| :: was[i].expiresAt <= now && removes(was[i].spi)
  }

  ghost predicate SweptTo(c: Children, d: Children, now: Time, removes: Spi -> bool, ok: bool) {
    && d == c.(retired := d.retired) && Swept(c.retired, d.retired, now, removes)
    && (!ok ==> d.retired != [] && d.retired[0].expiresAt <= now && !removes(d.retired[0].spi))
  }

  lemma SweptMore(was: seq<Retirement>, rs: seq<Retirement>, now: Time, removes: Spi -> bool)
    requires Swept(was, rs, now, removes) && rs != [] && rs[0].expiresAt <= now && removes(rs[0].spi)
    ensures Swept(was, rs[1..], now, removes)
  {
    assert was[|was| - |rs|] == rs[0];
  }

  /** In a sorted list, a head that is not due means nothing is. */
  lemma NothingDue(rs: seq<Retirement>, latest: Time, delay: Time, now: Time)
    requires Sorted(rs, latest, delay) && (rs == [] || now < rs[0].expiresAt)
    ensures forall i | 0 <= i < |rs| :: now < rs[i].expiresAt
  {}

  /** One session: every operation keeps exactly the live SPIs routed, also when
      the callback that installs or removes keys fails. */
  class Session {
    const hub: Hub
    const mux: MuxId
    const delay: Time
    var active: ChildSA
    var retiring: ChildSA
    var retiringBy: Time
    var retired: seq<Retirement>
    /** The latest reading of the clock. */
    ghost var latest: Time

    /** A session starts with nothing routed to its mux. */
    constructor (h: Hub, m: MuxId, retireDelay: Time, clock: Time)
      requires retireDelay >= 0 && clock > 0 && forall spi :: !Owns(h.esp, m, spi)
      ensures Valid() && hub == h && mux == m && delay == retireDelay && latest == clock
      ensures Kids() == Children(NO_CHILD, NO_CHILD, 0, [])
    {
      hub, mux, delay, latest := h, m, retireDelay, clock;
      active, retiring, retiringBy, retired := NO_CHILD, NO_CHILD, 0, [];
    }

    function Kids(): Children
      reads this
    {
      Children(active, retiring, retiringBy, retired)
    }

    ghost predicate Valid()
      reads this, hub
    {
      Ok(hub.esp, mux, Kids(), latest, delay) && latest > 0 && delay >= 0
    }

    method CanReplace(spi: Spi) returns (ok: bool)
      ensures ok <==> retiring.localSpi == 0 && spi != active.localSpi && !Draining(Kids(), spi)
    {
      if retiring.localSpi != 0 || spi == active.localSpi {
        return false;
      }
      for i := 0 to |retired|
        invariant forall j | 0 <= j < i :: retired[j].spi != spi
      {
        if retired[i].spi == spi {
          assert Draining(Kids(), spi);
          return false;
        }
      }
      return true;
    }

    /** Routes the new SPI, installs its keys, and lets the old SA await its Delete. */
    method ReplaceChild(child: ChildSA, closed: bool, installs: bool, clock: Time) returns (ok: bool)
      requires Valid() && latest <= clock
      modifies this, hub
      ensures Valid() && latest == clock
      ensures Kids() == if ok then Activated(old(Kids()), child, clock) else old(Kids())
      ensures !ok ==> hub.esp == old(hub.esp)
      ensures ok <==>
        && old(retiring).localSpi == 0 && child.localSpi != 0 && !Live(old(Kids()), child.localSpi)
        && !closed && installs && (child.localSpi in old(hub.esp) ==> old(hub.esp)[child.localSpi] == mux)
    {
      latest := clock;
      var can := CanReplace(child.localSpi);
      if !can {
        return false;
      }
      var routed := hub.RegisterEsp(mux, child.localSpi, closed);
      if !routed {
        return false;
      }
      assert !Live(old(Kids()), child.localSpi);
      assert !Owns(old(hub.esp), mux, child.localSpi);
      if !installs {
        hub.UnregisterEsp(mux, child.localSpi);
        return false;
      }
      ActivatingKeeps(old(hub.esp), mux, old(Kids()), child, clock);
      var was := active;
      active := child;
      if was.localSpi != 0 {
        retiring := was;
        retiringBy := clock + RETIREMENT_DEADLINE;
      }
      return true;
    }

    /** Lets the retiring SA drain, or drops it at once when there is no delay. */
    method RetireRetiring(removes: bool, clock: Time) returns (ok: bool)
      requires Valid() && latest <= clock && retiring.localSpi != 0
      modifies this, hub
      ensures Valid() && latest == clock && active == old(active)
      ensures ok <==> delay > 0 || removes
      ensures !ok ==> Kids() == old(Kids()) && hub.esp == old(hub.esp)
      ensures ok && delay > 0 ==> Kids() == Drained(old(Kids()), clock + delay) && hub.esp == old(hub.esp)
      ensures ok && delay == 0 ==> Kids() == old(Kids()).(retiring := NO_CHILD)
    {
      latest := clock;
      if delay > 0 {
        StartDraining(old(latest), clock);
        return true;
      }
      ok := DropRetiring(removes);
    }

    method StartDraining(ghost before: Time, clock: Time)
      requires Ok(hub.esp, mux, Kids(), before, delay) && 0 < before <= clock == latest && delay >= 0
      requires retiring.localSpi != 0
      modifies this
      ensures Valid() && latest == clock && Kids() == Drained(old(Kids()), clock + delay)
    {
      DrainingKeeps(hub.esp, mux, Kids(), clock + delay);
      AppendKeepsSorted(retired, before, clock, delay, retiring.localSpi);
      retired := retired + [Retirement(retiring.localSpi, clock + delay)];
      retiring := NO_CHILD;
    }

    method DropRetiring(removes: bool) returns (ok: bool)
      requires Valid() && retiring.localSpi != 0
      modifies this, hub
      ensures Valid() && latest == old(latest) && ok == removes
      ensures Kids() == if ok then old(Kids()).(retiring := NO_CHILD) else old(Kids())
      ensures !ok ==> hub.esp == old(hub.esp)
    {
      if !removes {
        return false;
      }
      DroppingRetiringKeeps(hub.esp, mux, Kids());
      assert Owns(hub.esp, mux, retiring.localSpi);
      hub.UnregisterEsp(mux, retiring.localSpi);
      retiring := NO_CHILD;
      return true;
    }

    /** The active SA goes without a replacement, and at once. */
    method DropActive(removes: bool) returns (ok: bool)
      requires Valid() && active.localSpi != 0
      modifies this, hub
      ensures Valid() && latest == old(latest) && ok == removes
      ensures Kids() == if ok then old(Kids()).(active := NO_CHILD) else old(Kids())
    {
      if !removes {
        return false;
      }
      DroppingActiveKeeps(hub.esp, mux, Kids());
      assert Owns(hub.esp, mux, active.localSpi);
      hub.UnregisterEsp(mux, active.localSpi);
      active := NO_CHILD;
      return true;
    }

    /** Our Delete for the replaced SA was answered. */
    method RetireChild(remote: Spi, removes: bool, clock: Time) returns (ok: bool)
      requires Valid() && latest <= clock
      modifies this, hub
      ensures Valid()
      ensures ok <==> old(retiring).localSpi == 0 || (old(retiring).remoteSpi == remote && (delay > 0 || removes))
      ensures Kids() == if ok && old(retiring).localSpi != 0 then Retired(old(Kids()), delay, clock) else old(Kids())
    {
      if retiring.localSpi == 0 {
        return true;
      }
      if retiring.remoteSpi != remote {
        return false;
      }
      ok := RetireRetiring(removes, clock);
    }

    method ForgetChild(child: ChildSA, removes: bool) returns (ok: bool)
      requires Valid()
      modifies this, hub
      ensures Valid()
      ensures ok <==> old(active).localSpi == 0 || (old(active) == child && removes)
      ensures Kids() == if ok && old(active).localSpi != 0 then old(Kids()).(active := NO_CHILD) else old(Kids())
    {
      if active.localSpi == 0 {
        return true;
      }
      if active != child {
        return false;
      }
      ok := DropActive(removes);
    }

    /** The peer names SAs by its inbound SPIs; ours are returned. A callback that
        fails stops it there, with the mentions before it done. */
    method DeleteChildren(remotes: seq<Spi>, removes: Spi -> bool, clock: Time) returns (ok: bool, locals: seq<Spi>,
                          done: nat)
      requires Valid() && latest <= clock
      modifies this, hub
      ensures Valid() && done <= |remotes| && (ok <==> done == |remotes|)
      ensures Kids() == Deleted(old(Kids()), remotes[..done], delay, clock)
      ensures NoneStuck(old(Kids()), remotes, done, delay, clock, removes)
      ensures !ok ==> Stuck(Kids(), remotes[done], delay, removes)
      ensures locals == if ok then Named(old(Kids()), remotes, delay, clock) else []
    {
      locals, done := [], 0;
      while done < |remotes|
        invariant done <= |remotes| && Valid() && latest <= clock
        invariant Kids() == Deleted(old(Kids()), remotes[..done], delay, clock)
        invariant locals == Named(old(Kids()), remotes[..done], delay, clock)
        invariant NoneStuck(old(Kids()), remotes, done, delay, clock, removes)
      {
        OneMoreMention(old(Kids()), remotes, done, delay, clock);
        var found, spi := DeleteOne(remotes[done], removes, clock);
        if !found {
          return false, [], done;
        }
        locals := locals + spi;
        done := done + 1;
      }
      assert remotes[..|remotes|] == remotes;
      ok := true;
    }

    /** One mention: the active SA if it goes by that name, else the retiring one. */
    method DeleteOne(r: Spi, removes: Spi -> bool, clock: Time) returns (ok: bool, local: seq<Spi>)
      requires Valid() && latest <= clock
      modifies this, hub
      ensures Valid() && latest <= clock && (ok <==> !Stuck(old(Kids()), r, delay, removes))
      ensures Kids() == if ok then Mentioned(old(Kids()), r, delay, clock) else old(Kids())
      ensures ok ==> local == NamedBy(old(Kids()), r)
    {
      local := [];
      if active.localSpi != 0 && active.remoteSpi == r {
        local := [active.localSpi];
        ok := DropActive(removes(active.localSpi));
      } else if retiring.localSpi != 0 && retiring.remoteSpi == r {
        local := [retiring.localSpi];
        ok := RetireRetiring(removes(retiring.localSpi), clock);
      } else {
        ok := true;
      }
    }

    /** Gives up on a Delete that never came, then drops every SA whose overlap is
        over: looking only at the head finds them all. A callback that fails leaves
        its SA, and those behind it, as they were. */
    method ExpireRetired(now: Time, removes: Spi -> bool, clock: Time) returns (ok: bool)
      requires Valid() && latest <= clock
      modifies this, hub
      ensures Valid()
      ensures ok ==> forall i | 0 <= i < |retired| :: now < retired[i].expiresAt
      ensures ok ==> retiring.localSpi == 0 || now < retiringBy
      ensures var due := old(retiring).localSpi != 0 && now >= old(retiringBy);
        if due && delay == 0 && !removes(old(retiring).localSpi) then !ok && Kids() == old(Kids())
        else SweptTo(if due then Retired(old(Kids()), delay, clock) else old(Kids()), Kids(), now, removes, ok)
    {
      if retiring.localSpi != 0 && now >= retiringBy {
        ok := RetireRetiring(removes(retiring.localSpi), clock);
        if !ok {
          return;
        }
      }
      ok := SweepHeads(now, removes);
    }

    method SweepHeads(now: Time, removes: Spi -> bool) returns (ok: bool)
      requires Valid()
      modifies this, hub
      ensures Valid() && SweptTo(old(Kids()), Kids(), now, removes, ok)
      ensures ok ==> forall i | 0 <= i < |retired| :: now < retired[i].expiresAt
    {
      ok := true;
      ghost var was := Kids();
      while ok && retired != [] && now >= retired[0].expiresAt
        invariant Valid() && Kids() == was.(retired := retired) && Swept(was.retired, retired, now, removes)
        invariant !ok ==> retired != [] && retired[0].expiresAt <= now && !removes(retired[0].spi)
        decreases |retired|, ok
      {
        if removes(retired[0].spi) {
          SweptMore(was.retired, retired, now, removes);
        }
        ok := DropHead(removes(retired[0].spi));
      }
      if ok {
        NothingDue(retired, latest, delay, now);
      }
    }

    method DropHead(removes: bool) returns (ok: bool)
      requires Valid() && retired != []
      modifies this, hub
      ensures Valid() && latest == old(latest) && ok == removes
      ensures Kids() == if ok then old(Kids()).(retired := old(retired)[1..]) else old(Kids())
    {
      if !removes {
        return false;
      }
      DroppingHeadKeeps(hub.esp, mux, Kids());
      assert Draining(Kids(), retired[0].spi);
      assert Owns(hub.esp, mux, retired[0].spi);
      hub.UnregisterEsp(mux, retired[0].spi);
      retired := retired[1..];
      return true;
    }

    /** When the control loop has to look again: no deadline is earlier, and it is
        one of them. */
    method NextRetirement() returns (at: Time, some: bool)
      requires Valid()
      ensures some <==> retired != [] || retiring.localSpi != 0
      ensures some ==> IsDeadline(Kids(), at)
      ensures forall d | IsDeadline(Kids(), d) :: at <= d
    {
      at := 0;
      if retired != [] {
        at := retired[0].expiresAt;
      }
      if retiring.localSpi != 0 && (at == 0 || retiringBy < at) {
        at := retiringBy;
      }
      some := at != 0;
    }
  }

  predicate IsDeadline(c: Children, d: Time) {
    || (c.retiring.localSpi != 0 && d == c.retiringBy)
    || exists i | 0 <= i < |c.retired| :: c.retired[i].expiresAt == d
  }

  // ----- deletion by the peer -----

  /** The retiring SA drains, or goes at once when there is no delay. */
  function Retired(c: Children, delay: Time, clock: Time): Children {
    if delay > 0 then Drained(c, clock + delay) else c.(retiring := NO_CHILD)
  }

  /** What one mention of a name does. */
  function Mentioned(c: Children, r: Spi, delay: Time, clock: Time): Children {
    if c.active.localSpi != 0 && c.active.remoteSpi == r then c.(active := NO_CHILD)
    else if c.retiring.localSpi != 0 && c.retiring.remoteSpi == r then Retired(c, delay, clock)
    else c
  }

  function NamedBy(c: Children, r: Spi): seq<Spi> {
    if c.active.localSpi != 0 && c.active.remoteSpi == r then [c.active.localSpi]
    else if c.retiring.localSpi != 0 && c.retiring.remoteSpi == r then [c.retiring.localSpi]
    else []
  }

  /** The mention would remove keys, and the callback does not. */
  predicate Stuck(c: Children, r: Spi, delay: Time, removes: Spi -> bool) {
    if c.active.localSpi != 0 && c.active.remoteSpi == r then !removes(c.active.localSpi)
    else c.retiring.localSpi != 0 && c.retiring.remoteSpi == r && delay <= 0 && !removes(c.retiring.localSpi)
  }

  function Deleted(c: Children, remotes: seq<Spi>, delay: Time, clock: Time): Children {
    if remotes == [] then c
    else Mentioned(Deleted(c, remotes[..|remotes| - 1], delay, clock), remotes[|remotes| - 1], delay, clock)
  }

  function Named(c: Children, remotes: seq<Spi>, delay: Time, clock: Time): seq<Spi> {
    if remotes == [] then []
    else
      Named(c, remotes[..|remotes| - 1], delay, clock)
      + NamedBy(Deleted(c, remotes[..|remotes| - 1], delay, clock), remotes[|remotes| - 1])
  }

  ghost predicate NoneStuck(c: Children, remotes: seq<Spi>, n: nat, delay: Time, clock: Time, removes: Spi -> bool)
    requires n <= |remotes|
  {
    forall i | 0 <= i < n :: !Stuck(Deleted(c, remotes[..i], delay, clock), remotes[i], delay, removes)
  }

  lemma OneMoreMention(c: Children, remotes: seq<Spi>, n: nat, delay: Time, clock: Time)
    requires n < |remotes|
    ensures var b := Deleted(c, remotes[..n], delay, clock);
            && Deleted(c, remotes[..n + 1], delay, clock) == Mentioned(b, remotes[n], delay, clock)
            && Named(c, remotes[..n + 1], delay, clock) == Named(c, remotes[..n], delay, clock) + NamedBy(b, remotes[n])
  {
    assert remotes[..n + 1][..n] == remotes[..n];
  }

  function Mentions(remotes: seq<Spi>, r: Spi): (n: nat)
    ensures n > 0 <==> r in remotes
  {
    if remotes == [] then 0
    else
      assert remotes == remotes[..|remotes| - 1] + [remotes[|remotes| - 1]];
      Mentions(remotes[..|remotes| - 1], r) + if remotes[|remotes| - 1] == r then 1 else 0
  }

  /** The active and the retiring SA go by one name: the peer chose the same SPI twice. */
  predicate Shared(c: Children) {
    c.active.localSpi != 0 && c.retiring.localSpi != 0 && c.active.remoteSpi == c.retiring.remoteSpi
  }

  /** Exactly what a list of names deletes: the active SA at its first mention, and the
      retiring one at its first, or its second when the first was the active's. */
  lemma {:induction false} DeletedIsWhatWasNamed(c: Children, remotes: seq<Spi>, delay: Time, clock: Time)
    ensures Deleted(c, remotes, delay, clock).active
         == if c.active.localSpi != 0 && Mentions(remotes, c.active.remoteSpi) >= 1 then NO_CHILD else c.active
    ensures Deleted(c, remotes, delay, clock).retiring
         == if c.retiring.localSpi != 0 && Mentions(remotes, c.retiring.remoteSpi) >= (if Shared(c) then 2 else 1)
            then NO_CHILD else c.retiring
  {
    if remotes == [] {
    } else {
      DeletedIsWhatWasNamed(c, remotes[..|remotes| - 1], delay, clock);
    }
  }

  /** Every SA the peer named is gone. */
  predicate NamedAreGone(c: Children, remotes: seq<Spi>, d: Children) {
    && (c.active.localSpi != 0 && c.active.remoteSpi in remotes ==> d.active.localSpi == 0)
    && (c.retiring.localSpi != 0 && c.retiring.remoteSpi in remotes ==> d.retiring.localSpi == 0)
  }

  /** A Delete does what it says unless both SAs go by a name it mentions just once. */
  lemma NamedAreGoneExactlyWhen(c: Children, remotes: seq<Spi>, delay: Time, clock: Time)
    ensures NamedAreGone(c, remotes, Deleted(c, remotes, delay, clock))
       <==> !Shared(c) || Mentions(remotes, c.active.remoteSpi) != 1
  {
    DeletedIsWhatWasNamed(c, remotes, delay, clock);
  }

  /** Nothing keeps the peer from choosing one SPI twice: replacing a child by one of the
      same remote SPI is how the two come to share it. */
  lemma SharingIsReached(c: Children, child: ChildSA, now: Time)
    requires c.active.localSpi != 0 && child.localSpi != 0 && child.remoteSpi == c.active.remoteSpi
    ensures Shared(Activated(c, child, now))
  {
  }

  /** The input that shows it: a shared name mentioned once leaves the retiring SA. */
  lemma OneMentionDeletesOne(c: Children, r: Spi, delay: Time, clock: Time)
    requires Shared(c) && c.active.remoteSpi == r
    ensures Deleted(c, [r], delay, clock) == c.(active := NO_CHILD)
    ensures !NamedAreGone(c, [r], Deleted(c, [r], delay, clock))
  {
    assert [r][..0] == [];
  }

  // ----- how long a replaced SA lasts -----

  /** A replaced SA stays routed, and is looked at again within the deadline. */
  lemma ReplacedIsWatched(c: Children, child: ChildSA, now: Time)
    requires c.active.localSpi != 0
    ensures var d := Activated(c, child, now);
      Live(d, c.active.localSpi) && d.active == child && IsDeadline(d, now + RETIREMENT_DEADLINE)
  {
    var d := Activated(c, child, now);
    assert d.retiring == c.active;
  }

  /** Once retired it keeps receiving for exactly the delay: no look before then takes it
      away, and one that leaves nothing due has. */
  lemma OverlapLasts(c: Children, f: Children, delay: Time, clock: Time, now: Time, removes: Spi -> bool, ok: bool)
    requires RolesDistinct(c) && c.retiring.localSpi != 0 && delay > 0
    requires SweptTo(Retired(c, delay, clock), f, now, removes, ok)
    ensures now < clock + delay ==> Live(f, c.retiring.localSpi)
    ensures clock + delay <= now && (forall i | 0 <= i < |f.retired| :: now < f.retired[i].expiresAt) ==>
      !Live(f, c.retiring.localSpi)
  {
    var was := Retired(c, delay, clock).retired;
    assert was[|was| - 1] == Retirement(c.retiring.localSpi, clock + delay);
    assert f.retired != [] ==> f.retired[|f.retired| - 1] == was[|was| - 1];
    if now < clock + delay {
      assert f.retired[|f.retired| - 1].spi == c.retiring.localSpi;
    }
  }
}
