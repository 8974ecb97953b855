/** Hello history and the cost read off it (Appendix A of RFC 8966). */
module BabelHello {
  import opened BabelOrder

  const DEPTH := 16
  const DRIFT := 16

  /** What came of the most recent Hellos expected, the latest first. */
  type Arrivals = seq<bool>

  function Zeros(n: nat): (z: Arrivals)
    ensures |z| == n && forall i | 0 <= i < n :: !z[i]
  {
    seq(n, _ => false)
  }

  function Recent(a: Arrivals): (r: Arrivals)
    ensures |r| == if |a| <= DEPTH then |a| else DEPTH
    ensures forall i | 0 <= i < |r| :: r[i] == a[i]
  {
    if |a| <= DEPTH then a else a[..DEPTH]
  }

  lemma RecentTwice(x: bool, a: Arrivals)
    ensures Recent([x] + Recent(a)) == Recent([x] + a)
  {}

  /** Shifting count entries in: the bit comes last and the rest are zeros, and a
      whole vector of them is the bit throughout. */
  function Shifted(a: Arrivals, bit: bool, count: nat): Arrivals {
    if count >= DEPTH then seq(DEPTH, _ => bit)
    else if !bit then Recent(Zeros(count) + a)
    else if count == 0 then (if a == [] then [] else [true] + a[1..])
    else Recent([true] + Zeros(count - 1) + a)
  }

  lemma ShiftedOnce(a: Arrivals, count: nat)
    ensures Shifted(a, false, count) == Recent(Zeros(count) + a)
    ensures Shifted(a, true, 1) == Recent([true] + a)
  {
    assert [true] + Zeros(0) == [true];
  }

  /** The vector moved up and the bit put at the bottom of it. */
  function Pushed(bits: seq<bool>, bit: bool, count: nat): (r: seq<bool>)
    requires |bits| == DEPTH && count < DEPTH
    ensures |r| == DEPTH
  {
    var moved := Zeros(count) + bits[..DEPTH - count];
    if bit then moved[0 := true] else moved
  }

  function Upto(samples: nat, count: nat): nat {
    if samples + count <= DEPTH then samples + count else DEPTH
  }

  lemma PushingShifts(bits: seq<bool>, samples: nat, bit: bool, count: nat)
    requires |bits| == DEPTH && samples <= DEPTH && count < DEPTH
    ensures Pushed(bits, bit, count)[..Upto(samples, count)] == Shifted(bits[..samples], bit, count)
  {
    if !bit {
      RecentSlice(Zeros(count), bits, samples, Upto(samples, count));
    } else if count > 0 {
      PushingOne(bits, samples, count);
    } else {
      SettingOne(bits, samples);
    }
  }

  lemma PushingOne(bits: seq<bool>, samples: nat, count: nat)
    requires |bits| == DEPTH && samples <= DEPTH && 0 < count < DEPTH
    ensures Pushed(bits, true, count)[..Upto(samples, count)] == Recent([true] + Zeros(count - 1) + bits[..samples])
  {
    var lead := [true] + Zeros(count - 1);
    RecentSlice(lead, bits, samples, Upto(samples, count));
    assert Zeros(count)[0 := true] == lead;
    assert Pushed(bits, true, count) == lead + bits[..DEPTH - count];
  }

  lemma SettingOne(bits: seq<bool>, samples: nat)
    requires |bits| == DEPTH && samples <= DEPTH
    ensures Pushed(bits, true, 0)[..samples] == if samples == 0 then [] else [true] + bits[..samples][1..]
  {
    assert Zeros(0) + bits[..DEPTH] == bits;
    if samples > 0 {
      assert bits[0 := true][..samples] == [true] + bits[1..samples];
    }
  }

  lemma RecentSlice(lead: Arrivals, bits: seq<bool>, samples: nat, n: nat)
    requires |bits| == DEPTH && samples <= DEPTH && |lead| < DEPTH
    requires n == if samples + |lead| <= DEPTH then samples + |lead| else DEPTH
    ensures (lead + bits[..DEPTH - |lead|])[..n] == Recent(lead + bits[..samples])
  {
  }

  // ----- what the vector stands for -----

  /** The history of one neighbor, none before its first Hello. */
  datatype History = Silent | Heard(arrivals: Arrivals, expected: U16)

  function Gap(a: U16, b: U16): U16 {
    (a as int - b as int) % 0x1_0000
  }

  function Successor(seqno: U16): U16 {
    (seqno as int + 1) % 0x1_0000
  }

  /** A Hello arrives: those skipped were lost; one that was given up on too early
      undoes as many losses. A sender too far off is refused. */
  function Received(h: History, seqno: U16): (History, bool) {
    match h
    case Silent => (Heard([true], Successor(seqno)), true)
    case Heard(a, e) =>
      var ahead, behind := Gap(seqno, e), Gap(e, seqno);
      if ahead <= DRIFT then (Heard(Recent([true] + Zeros(ahead) + a), Successor(seqno)), true)
      else if behind <= DRIFT then
        (Heard(Recent([true] + a[if behind <= |a| then behind else |a|..]), Successor(seqno)), true)
      else (h, false)
  }

  function Missed(h: History): History {
    match h
    case Silent => h
    case Heard(a, e) => Heard(Recent([false] + a), Successor(e))
  }

  // ----- the vector -----

  /** The 16 bits, the latest lowest; how many of them mean something; and the
      sequence number expected next. */
  class HelloHistory {
    var bits: seq<bool>
    var expected: U16
    var started: bool
    var samples: int

    /** Bits past the samples are clear. */
    ghost predicate Valid()
      reads this
    {
      && |bits| == DEPTH && (started ==> 1 <= samples <= DEPTH)
      && (started ==> forall i | samples <= i < DEPTH :: !bits[i])
    }

    ghost function View(): History
      requires Valid()
      reads this
    {
      if started then Heard(bits[..samples], expected) else Silent
    }

    constructor ()
      ensures Valid() && View() == Silent
    {
      bits, expected, started, samples := Zeros(DEPTH), 0, false, 0;
    }

    method Record(seqno: U16) returns (ok: bool)
      requires Valid()
      modifies this
      ensures Valid() && (View(), ok) == Received(old(View()), seqno)
    {
      if !started {
        bits, expected, started, samples := [true] + Zeros(DEPTH - 1), Successor(seqno), true, 1;
        return true;
      }
      var ahead, behind := Gap(seqno, expected), Gap(expected, seqno);
      ghost var was := bits[..samples];
      if ahead <= DRIFT {
        ShiftIn(false, ahead);
        ShiftedOnce(was, ahead);
        RecentTwice(true, Zeros(ahead) + was);
        assert [true] + (Zeros(ahead) + was) == [true] + Zeros(ahead) + was;
      } else if behind <= DRIFT {
        ShiftOut(behind);
      } else {
        return false;
      }
      ShiftedOnce(bits[..samples], 1);
      ShiftIn(true, 1);
      expected := Successor(seqno);
      return true;
    }

    method Miss()
      requires Valid()
      modifies this
      ensures Valid() && View() == Missed(old(View()))
    {
      if !started {
        return;
      }
      assert Zeros(1) == [false];
      ShiftedOnce(bits[..samples], 1);
      ShiftIn(false, 1);
      expected := Successor(expected);
    }

    ghost predicate Clean()
      reads this
    {
      |bits| == DEPTH && 0 <= samples <= DEPTH && forall i | samples <= i < DEPTH :: !bits[i]
    }

    /** Only a set bit put on a vector of no samples leaves a mark past them. */
    method ShiftIn(bit: bool, count: nat)
      requires Clean()
      modifies this
      ensures started == old(started) && expected == old(expected) && |bits| == DEPTH && 0 <= samples <= DEPTH
      ensures bits[..samples] == Shifted(old(bits[..samples]), bit, count)
      ensures Clean() <==> !(bit && count == 0 && old(samples) == 0)
    {
      if count >= DEPTH {
        bits, samples := Zeros(DEPTH), DEPTH;
        if bit {
          bits := seq(DEPTH, _ => true);
        }
        return;
      }
      PushingShifts(bits, samples, bit, count);
      bits := Zeros(count) + bits[..DEPTH - count];
      if bit {
        bits := bits[0 := true];
      }
      samples := if samples + count <= DEPTH then samples + count else DEPTH;
      if bit && count == 0 && old(samples) == 0 {
        assert bits[samples];
      }
    }

    /** How many of the recent Hellos arrived, once one has. */
    method Beta() returns (received: nat, window: nat, ok: bool)
      requires Valid()
      ensures ok <==> View().Heard?
      ensures if ok then window == |View().arrivals| && received == Ones(View().arrivals) else received == window == 0
    {
      received, window, ok := 0, 0, started;
      if !started {
        return;
      }
      window := if samples < DEPTH then samples else DEPTH;
      for i := 0 to window
        invariant received == Ones(bits[..i])
      {
        assert bits[..i + 1][..i] == bits[..i];
        if bits[i] {
          received := received + 1;
        }
      }
    }

    method ShiftOut(count: int)
      requires Clean() && 0 <= count <= DEPTH
      modifies this
      ensures Clean() && started == old(started) && expected == old(expected)
      ensures bits[..samples] == old(bits[..samples])[if count <= old(samples) then count else old(samples)..]
    {
      bits := bits[count..] + Zeros(count);
      samples := if samples >= count then samples - count else 0;
    }
  }

  // ----- a late Hello -----

  /** k losses in a row. */
  function MissedTimes(h: History, k: nat): History {
    if k == 0 then h else Missed(MissedTimes(h, k - 1))
  }

  lemma SuccessorAfter(e: U16, k: nat)
    requires k > 0
    ensures Successor((e as int + (k - 1)) % 0x1_0000) == (e as int + k) % 0x1_0000
  {}

  lemma OneMoreMissed(a: Arrivals, k: nat)
    requires k > 0
    ensures Recent([false] + Recent(Zeros(k - 1) + a)) == Recent(Zeros(k) + a)
  {
    RecentTwice(false, Zeros(k - 1) + a);
    assert [false] + (Zeros(k - 1) + a) == Zeros(k) + a;
  }

  lemma {:induction false} MissedAre(a: Arrivals, e: U16, k: nat)
    requires |a| <= DEPTH
    ensures MissedTimes(Heard(a, e), k) == Heard(Recent(Zeros(k) + a), (e as int + k) % 0x1_0000)
  {
    if k == 0 {
      assert Zeros(0) + a == a;
    } else {
      MissedAre(a, e, k - 1);
      SuccessorAfter(e, k);
      OneMoreMissed(a, k);
    }
  }

  lemma GapAfter(e: U16, k: int)
    requires 0 < k < 0x1_0000
    ensures Gap((e as int + k) % 0x1_0000, e) == k && Gap(e, (e as int + k) % 0x1_0000) == 0x1_0000 - k
  {}

  lemma DroppedLosses(a: Arrivals, k: nat)
    requires |a| <= DEPTH && 0 < k <= DRIFT
    ensures |Recent(Zeros(k) + a)| >= k
    ensures Recent(Zeros(k) + a)[k..] == a[..if |a| + k <= DEPTH then |a| else DEPTH - k]
  {}

  /** The Hello that was expected arrives after k losses were counted against it. */
  lemma LateHello(a: Arrivals, e: U16, k: nat)
    requires |a| <= DEPTH && 0 < k <= DRIFT
    ensures Received(MissedTimes(Heard(a, e), k), e)
         == (Heard([true] + a[..if |a| + k <= DEPTH then |a| else DEPTH - k], Successor(e)), true)
  {
    MissedAre(a, e, k);
    GapAfter(e, k);
    DroppedLosses(a, k);
  }

  /** It leaves no trace of the losses exactly when at most one was counted or none
      of what was known had been pushed out by them. */
  lemma LateHelloRestores(a: Arrivals, e: U16, k: nat)
    requires |a| <= DEPTH && k <= DRIFT
    ensures Received(MissedTimes(Heard(a, e), k), e) == Received(Heard(a, e), e) <==> k <= 1 || |a| + k <= DEPTH
  {
    assert Zeros(0) + a == a && [true] + Zeros(0) == [true];
    if k > 0 {
      LateHello(a, e, k);
      var late, prompt := [true] + a[..if |a| + k <= DEPTH then |a| else DEPTH - k], Recent([true] + a);
      if k <= 1 || |a| + k <= DEPTH {
        assert late == prompt;
      } else {
        assert |late| < |prompt|;
      }
    }
  }

  lemma AheadIs(a: Arrivals, e: U16, k: nat)
    requires k <= DRIFT
    ensures var seqno := (e as int + k) % 0x1_0000;
      Received(Heard(a, e), seqno) == (Heard(Recent([true] + (Zeros(k) + a)), Successor(seqno)), true)
  {
    if k > 0 {
      GapAfter(e, k);
    }
    assert [true] + (Zeros(k) + a) == [true] + Zeros(k) + a;
  }

  lemma ExpectedIs(a: Arrivals, e: U16)
    ensures Received(Heard(a, e), e) == (Heard(Recent([true] + a), Successor(e)), true)
  {
    assert [true] + Zeros(0) + a == [true] + a;
  }

  /** A Hello some way ahead stands for that many losses and then the Hello expected. */
  lemma SkippedAreLost(a: Arrivals, e: U16, k: nat)
    requires |a| <= DEPTH && k <= DRIFT
    ensures var seqno, lost := (e as int + k) % 0x1_0000, MissedTimes(Heard(a, e), k);
      && Received(Heard(a, e), seqno) == Received(lost, seqno)
      && Received(lost, seqno) == (Heard(Recent([true] + lost.arrivals), Successor(seqno)), true)
  {
    var seqno, before := (e as int + k) % 0x1_0000, Recent(Zeros(k) + a);
    AheadIs(a, e, k);
    MissedAre(a, e, k);
    ExpectedIs(before, seqno);
    RecentTwice(true, Zeros(k) + a);
  }

  /** After more than a window of losses the late Hello is refused. */
  lemma TooLate(a: Arrivals, e: U16, k: nat)
    requires |a| <= DEPTH && DRIFT < k < 0x1_0000 - DRIFT
    ensures !Received(MissedTimes(Heard(a, e), k), e).1
  {
    MissedAre(a, e, k);
    GapAfter(e, k);
  }

  // ----- the cost -----

  function Ones(a: Arrivals): (n: nat)
    ensures n <= |a|
  {
    if a == [] then 0 else Ones(a[..|a| - 1]) + if a[|a| - 1] then 1 else 0
  }

  /** base * window / received, saturating. */
  function ScaleCost(base: U16, window: nat, received: nat): (c: U16)
    requires 0 < received <= window
    ensures base <= c && (received == window ==> c == base)
    ensures c < INFINITY ==> c as int * received <= base as int * window < (c as int + 1) * received
  {
    ScaleBounds(base, window, received);
    var scaled := base as int * window / received;
    if scaled >= INFINITY then INFINITY else scaled
  }

  lemma ScaleBounds(base: int, window: nat, received: nat)
    requires 0 <= base && 0 < received <= window
    ensures base <= base * window / received && (received == window ==> base * window / received == base)
    ensures base * window / received * received <= base * window < (base * window / received + 1) * received
  {
    var n, q := base * window, base * window / received;
    assert n == q * received + n % received;
    assert base * received <= base * window by {
      MulKeepsOrder(base, received, window);
    }
    if q < base {
      MulKeepsOrder(received, q + 1, base);
      assert false;
    }
    if received == window && q > base {
      MulKeepsOrder(received, base + 1, q);
      assert false;
    }
  }

  lemma MulKeepsOrder(k: int, a: int, b: int)
    requires k >= 0 && a <= b
    ensures k * a <= k * b
  {}

  /** The cost of a link: the neighbor's own figure, made worse by what this node
      fails to hear. */
  function LinkCost(h: History, txcost: U16, etx: bool): (c: U16)
    requires h.Heard? ==> 0 < |h.arrivals| <= DEPTH
    ensures txcost <= c && (!etx || h.Silent? ==> c == txcost)
    ensures h.Heard? && etx && Ones(h.arrivals) == |h.arrivals| ==> c == txcost
    ensures h.Heard? && etx && Ones(h.arrivals) == 0 ==> c == INFINITY
  {
    if txcost == INFINITY then INFINITY
    else if !etx || h.Silent? then txcost
    else if Ones(h.arrivals) == 0 then INFINITY
    else ScaleCost(txcost, |h.arrivals|, Ones(h.arrivals))
  }

  lemma DividingByMore(n: int, few: int, many: int)
    requires 0 <= n && 0 < few <= many
    ensures n / many <= n / few
  {
    var q := n / many;
    assert n == q * many + n % many && n == n / few * few + n % few;
    MulKeepsOrder(q, few, many);
    if n / few < q {
      MulKeepsOrder(few, n / few + 1, q);
      assert false;
    }
  }

  lemma ScalingByMore(base: U16, window: nat, few: nat, many: nat)
    requires 0 < few <= many <= window
    ensures ScaleCost(base, window, many) <= ScaleCost(base, window, few)
  {
    DividingByMore(base as int * window, few, many);
  }

  /** Of two histories of one length, the one that heard more never costs more. */
  lemma HearingMoreCostsLess(a: Arrivals, b: Arrivals, e: U16, f: U16, txcost: U16, etx: bool)
    requires 0 < |a| == |b| <= DEPTH && Ones(a) <= Ones(b)
    ensures LinkCost(Heard(b, f), txcost, etx) <= LinkCost(Heard(a, e), txcost, etx)
  {
    if Ones(a) > 0 {
      ScalingByMore(txcost, |a|, Ones(a), Ones(b));
    }
  }
}
