/** Segment routing over IPv6: H.Encaps, End and End.DT46 (sections 5.1, 4.1 and
    4.8 of RFC 8986) as rewriting of bytes. */
module Srv6 {
  import opened Bytes
  import opened Srv6Header
  import opened Wrappers

  const DEFAULT_HOP_LIMIT: Byte := 64

  // ----- what may be encapsulated -----

  predicate Is4In6(a: Address)
    requires |a| == ADDR_LEN
  {
    a[..10] == Zeros(10) && a[10] == 0xff && a[11] == 0xff
  }

  predicate Usable(a: Address)
    requires |a| == ADDR_LEN
  {
    !Is4In6(a) && a != Zeros(16) && a[0] != 0xff
  }

  /** The family of a packet, or 0 for one too short or of no known version. */
  function InnerNext(inner: seq<Byte>): (next: Byte)
    ensures next in {0, NEXT_IPV4, NEXT_IPV6}
  {
    if inner == [] then 0
    else if inner[0] / 16 == 4 && |inner| >= IPV4_HEADER_LEN then NEXT_IPV4
    else if inner[0] / 16 == 6 && |inner| >= IPV6_HEADER_LEN then NEXT_IPV6
    else 0
  }

  /** A packet, the address it is tunnelled from, and the path it is to visit. */
  datatype Trip = Trip(inner: seq<Byte>, source: Address, path: seq<Address>)

  predicate Addressed(t: Trip) {
    |t.source| == ADDR_LEN && forall i | 0 <= i < |t.path| :: |t.path[i]| == ADDR_LEN
  }

  predicate Acceptable(t: Trip)
    requires Addressed(t)
  {
    && 0 < |t.path| <= MAX_SEGMENTS && Usable(t.source)
    && (forall i | 0 <= i < |t.path| :: Usable(t.path[i]))
    && InnerNext(t.inner) != 0
    && SRH_FIXED_LEN + ADDR_LEN * |t.path| + |t.inner| <= 0xffff
  }

  function Overhead(segments: nat): nat {
    IPV6_HEADER_LEN + SRH_FIXED_LEN + ADDR_LEN * segments
  }

  // ----- a packet on its way -----

  function Lead(inner: seq<Byte>): (b: seq<Byte>)
    ensures |b| == 4
  {
    if InnerNext(inner) == NEXT_IPV6 then inner[..4] else [0x60, 0, 0, 0]
  }

  function HopsOf(inner: seq<Byte>): Byte {
    if InnerNext(inner) == NEXT_IPV6 then inner[7] else DEFAULT_HOP_LIMIT
  }

  function Reversed(path: seq<Address>): (r: seq<Address>)
    ensures |r| == |path| && forall i | 0 <= i < |r| :: r[i] == path[|path| - 1 - i]
  {
    seq(|path|, i requires 0 <= i < |path| => path[|path| - 1 - i])
  }

  /** The header with k segments behind it. */
  function Front(t: Trip, k: nat): (b: seq<Byte>)
    requires Addressed(t) && Acceptable(t) && k < |t.path| && k <= HopsOf(t.inner)
    ensures |b| == IPV6_HEADER_LEN + SRH_FIXED_LEN
  {
    Lead(t.inner) + U16Bytes(SRH_FIXED_LEN + ADDR_LEN * |t.path| + |t.inner|) + [ROUTING, HopsOf(t.inner) - k]
    + t.source + t.path[k]
    + [InnerNext(t.inner), 2 * |t.path|, SEGMENT_TYPE, |t.path| - 1 - k, |t.path| - 1, 0, 0, 0]
  }

  /** What is behind the header: the segments in reverse, then the packet. */
  function Carried(t: Trip): seq<Byte> {
    Joined(Reversed(t.path)) + t.inner
  }

  /** The packet on its way to segment k of its path. */
  function Flight(t: Trip, k: nat): seq<Byte>
    requires Addressed(t) && Acceptable(t) && k < |t.path| && k <= HopsOf(t.inner)
  {
    Front(t, k) + Carried(t)
  }

  lemma {:induction false} SegmentsLength(parts: seq<Address>, n: nat)
    requires n <= |parts| && forall i | 0 <= i < |parts| :: |parts[i]| == ADDR_LEN
    ensures |Joined(parts[..n])| == ADDR_LEN * n
  {
    if n == 0 {
    } else {
      SegmentsLength(parts, n - 1);
      JoinedGrows(parts, n - 1);
    }
  }

  lemma FrontParts(t: Trip, k: nat)
    requires Addressed(t) && Acceptable(t) && k < |t.path| && k <= HopsOf(t.inner)
    ensures var f := Front(t, k);
      && f[0] / 16 == 6 && f[6] == ROUTING && f[7] == HopsOf(t.inner) - k && f[24..40] == t.path[k]
      && f[40] == InnerNext(t.inner) && f[41] == 2 * |t.path| && f[42] == SEGMENT_TYPE
      && f[43] == |t.path| - 1 - k && f[44] == |t.path| - 1 && f[45] == 0 && f[46] == 0 && f[47] == 0
  {}

  lemma FlightParts(t: Trip, k: nat)
    requires Addressed(t) && Acceptable(t) && k < |t.path| && k <= HopsOf(t.inner)
    ensures var raw, n := Flight(t, k), |t.path|;
      && |raw| == Overhead(n) + |t.inner| && raw[..48] == Front(t, k)
      && raw[48..48 + ADDR_LEN * n] == Joined(Reversed(t.path)) && raw[Overhead(n)..] == t.inner
  {
    SegmentsLength(Reversed(t.path), |t.path|);
    assert Reversed(t.path)[..|t.path|] == Reversed(t.path);
  }

  /** The outer header, byte by byte: version, traffic class and flow label are those
      of an IPv6 packet and bare for an IPv4 one, the length is what follows, the hops
      are the packet's less those made, and the addresses are the tunnel's own and the
      segment it heads for. */
  lemma OuterHeader(t: Trip, k: nat)
    requires Addressed(t) && Acceptable(t) && k < |t.path| && k <= HopsOf(t.inner)
    ensures var raw, six := Flight(t, k), t.inner[0] / 16 == 6;
      && |raw| >= 40
      && raw[..4] == (if six then t.inner[..4] else [0x60, 0, 0, 0])
      && U16Of(raw[4..6]) == |raw| - 40
      && raw[6] == 43 && raw[7] == (if six then t.inner[7] else 64) - k
      && raw[8..24] == t.source && raw[24..40] == t.path[k]
  {
    FlightParts(t, k);
    FrontParts(t, k);
    var raw, f, size := Flight(t, k), Front(t, k), SRH_FIXED_LEN + ADDR_LEN * |t.path| + |t.inner|;
    assert f[..4] == Lead(t.inner) && f[4..6] == U16Bytes(size) && f[8..24] == t.source;
    assert forall i | 0 <= i < 48 :: raw[i] == raw[..48][i];
    assert raw[..4] == f[..4] && raw[4..6] == f[4..6] && raw[8..24] == f[8..24] && raw[24..40] == f[24..40];
  }

  /** What a packet whose first header is a routing header reads as. */
  lemma ReadsAs(raw: seq<Byte>, next: Byte, left: Byte, segments: seq<Address>)
    requires 0 < |segments| <= MAX_SEGMENTS && |raw| >= 48 + ADDR_LEN * |segments| && left < |segments|
    requires raw[0] / 16 == 6 && raw[6] == ROUTING
    requires raw[40..48] == [next, 2 * |segments|, SEGMENT_TYPE, left, |segments| - 1, 0, 0, 0]
    requires forall i | 0 <= i < |segments| :: Segment(raw[40..], i) == segments[i]
    ensures Parsed(raw) == Done(Header(next, left, 0, 0, segments, IPV6_HEADER_LEN))
  {
    var srh, n := raw[40..], |segments|;
    assert srh[..8] == raw[40..48];
    assert forall i | 0 <= i < 8 :: srh[i] == raw[40..48][i];
    assert srh[6..8] == [0, 0];
    assert seq(n, i requires 0 <= i < n => Segment(srh, i)) == segments;
    assert Routing(raw, raw[6], IPV6_HEADER_LEN, MAX_EXTENSION_HEADERS) == Done(IPV6_HEADER_LEN);
  }

  lemma FrontIsRouting(t: Trip, k: nat)
    requires Addressed(t) && Acceptable(t) && k < |t.path| && k <= HopsOf(t.inner)
    ensures Front(t, k)[40..48]
         == [InnerNext(t.inner), 2 * |t.path|, SEGMENT_TYPE, |t.path| - 1 - k, |t.path| - 1, 0, 0, 0]
  {}

  /** On its way, a packet reads as the reversed path with what is left of it. */
  lemma FlightReads(t: Trip, k: nat)
    requires Addressed(t) && Acceptable(t) && k < |t.path| && k <= HopsOf(t.inner)
    ensures Parsed(Flight(t, k))
         == Done(Header(InnerNext(t.inner), |t.path| - 1 - k, 0, 0, Reversed(t.path), IPV6_HEADER_LEN))
  {
    var raw := Flight(t, k);
    FrontParts(t, k);
    FlightParts(t, k);
    FrontIsRouting(t, k);
    assert raw[40..48] == raw[..48][40..48] && raw[0] == raw[..48][0] && raw[6] == raw[..48][6];
    forall i | 0 <= i < |t.path|
      ensures Segment(raw[40..], i) == Reversed(t.path)[i]
    {
      SegmentStands(t, k, i);
    }
    ReadsAs(raw, InnerNext(t.inner), |t.path| - 1 - k, Reversed(t.path));
  }

  lemma SegmentStands(t: Trip, k: nat, i: nat)
    requires Addressed(t) && Acceptable(t) && k < |t.path| && k <= HopsOf(t.inner) && i < |t.path|
    ensures |Flight(t, k)| >= 48 + ADDR_LEN * i + ADDR_LEN
    ensures Segment(Flight(t, k)[IPV6_HEADER_LEN..], i) == Reversed(t.path)[i]
  {
    var n, parts := |t.path|, Reversed(t.path);
    FlightParts(t, k);
    SegmentsLength(parts, i);
    JoinedSlice(parts, i, n);
    assert parts[..n] == parts;
    SegmentIn(Flight(t, k), Joined(parts), i);
  }

  lemma SegmentIn(raw: seq<Byte>, all: seq<Byte>, i: nat)
    requires |raw| >= 48 + |all| && raw[48..48 + |all|] == all && ADDR_LEN * i + ADDR_LEN <= |all|
    ensures Segment(raw[IPV6_HEADER_LEN..], i) == all[ADDR_LEN * i..ADDR_LEN * i + ADDR_LEN]
  {
    var a, b := Segment(raw[IPV6_HEADER_LEN..], i), all[ADDR_LEN * i..ADDR_LEN * i + ADDR_LEN];
    assert forall j | 0 <= j < ADDR_LEN :: a[j] == raw[48 + ADDR_LEN * i + j] == b[j];
  }

  // ----- End -----

  datatype Onward = Onward(raw: seq<Byte>, next: Address)

  /** A packet moved on to its next segment: hop limit, destination and counter
      change and nothing else does. */
  function Moved(raw: seq<Byte>, h: Header): (r: seq<Byte>)
    requires IPV6_HEADER_LEN <= h.offset && h.offset + SRH_FIXED_LEN <= |raw| && raw[7] > 0
    requires 0 < h.segmentsLeft <= |h.segments| && |h.segments[h.segmentsLeft - 1]| == ADDR_LEN
    ensures |r| == |raw|
  {
    raw[..7] + [raw[7] - 1] + raw[8..24] + h.segments[h.segmentsLeft - 1] + raw[40..h.offset + 3]
    + [h.segmentsLeft - 1] + raw[h.offset + 4..]
  }

  function Ended(raw: seq<Byte>): Outcome<Onward> {
    var h := Parsed(raw);
    if h.Fail? then Fail(h.why)
    else if h.value.segmentsLeft == 0 then Fail(Exhausted)
    else if raw[7] <= 1 then Fail(HopLimit)
    else Done(Onward(Moved(raw, h.value), h.value.segments[h.value.segmentsLeft - 1]))
  }

  function ByteAt(was: seq<Byte>, h: Header, i: nat): int
    requires i < |was| && 0 < h.segmentsLeft <= |h.segments| && |h.segments[h.segmentsLeft - 1]| == ADDR_LEN
  {
    if i == 7 then was[7] - 1
    else if 24 <= i < 40 then h.segments[h.segmentsLeft - 1][i - 24]
    else if i == h.offset + 3 then h.segmentsLeft - 1
    else was[i]
  }

  lemma MovedByte(was: seq<Byte>, now: seq<Byte>, h: Header)
    requires IPV6_HEADER_LEN <= h.offset && h.offset + SRH_FIXED_LEN <= |was| == |now| && was[7] > 0
    requires 0 < h.segmentsLeft <= |h.segments| && |h.segments[h.segmentsLeft - 1]| == ADDR_LEN
    requires forall i | 0 <= i < |was| :: now[i] == ByteAt(was, h, i)
    ensures now == Moved(was, h)
  {
    assert now[..7] == was[..7] && now[8..24] == was[8..24];
    assert now[24..40] == h.segments[h.segmentsLeft - 1];
    assert now[40..h.offset + 3] == was[40..h.offset + 3] && now[h.offset + 4..] == was[h.offset + 4..];
    assert now == now[..7] + [now[7]] + now[8..24] + now[24..40] + now[40..h.offset + 3] + [now[h.offset + 3]]
               + now[h.offset + 4..];
  }

  /** The waypoint. A refused packet is left as it was. */
  method End(raw: array<Byte>) returns (r: Outcome<Address>)
    modifies raw
    ensures match Ended(old(raw[..]))
      case Fail(why) => r == Fail(why) && raw[..] == old(raw[..])
      case Done(onward) => r == Done(onward.next) && raw[..] == onward.raw
  {
    var h := Parse(raw[..]);
    if h.Fail? {
      return Fail(h.why);
    }
    var header := h.value;
    if header.segmentsLeft == 0 {
      return Fail(Exhausted);
    }
    if raw[7] <= 1 {
      return Fail(HopLimit);
    }
    ghost var was := raw[..];
    raw[7] := raw[7] - 1;
    raw[header.offset + 3] := header.segmentsLeft - 1;
    var next := header.segments[raw[header.offset + 3]];
    Write(raw, 24, next);
    MovedByte(was, raw[..], header);
    return Done(next);
  }

  lemma FrontMoves(t: Trip, k: nat)
    requires Addressed(t) && Acceptable(t) && k + 1 < |t.path| && k + 1 < HopsOf(t.inner)
    ensures var f := Front(t, k);
      && f[..7] == Front(t, k + 1)[..7] && f[8..24] == Front(t, k + 1)[8..24]
      && f[40..43] == Front(t, k + 1)[40..43] && f[44..] == Front(t, k + 1)[44..]
  {}

  lemma MovedAtTheFront(front: seq<Byte>, rest: seq<Byte>, h: Header, moved: seq<Byte>)
    requires |front| == |moved| == 48 && h.offset == IPV6_HEADER_LEN && front[7] > 0
    requires 0 < h.segmentsLeft <= |h.segments| && |h.segments[h.segmentsLeft - 1]| == ADDR_LEN
    requires front[..7] == moved[..7] && front[8..24] == moved[8..24] && front[40..43] == moved[40..43]
      && front[44..] == moved[44..]
    requires moved[7] == front[7] - 1 && moved[43] == h.segmentsLeft - 1
    requires moved[24..40] == h.segments[h.segmentsLeft - 1]
    ensures Moved(front + rest, h) == moved + rest
  {
    var raw := front + rest;
    assert raw[..7] == moved[..7] && raw[8..24] == moved[8..24] && raw[40..43] == moved[40..43];
    assert raw[44..] == moved[44..] + rest;
    assert moved == moved[..7] + [moved[7]] + moved[8..24] + moved[24..40] + moved[40..43] + [moved[43]] + moved[44..];
  }

  /** End carries a packet from one segment of its path to the next. */
  lemma EndMovesOn(t: Trip, k: nat)
    requires Addressed(t) && Acceptable(t) && k + 1 < |t.path| && k + 1 < HopsOf(t.inner)
    ensures Ended(Flight(t, k)) == Done(Onward(Flight(t, k + 1), t.path[k + 1]))
  {
    FlightReads(t, k);
    FrontParts(t, k);
    FrontParts(t, k + 1);
    FrontMoves(t, k);
    var h := Header(InnerNext(t.inner), |t.path| - 1 - k, 0, 0, Reversed(t.path), IPV6_HEADER_LEN);
    MovedAtTheFront(Front(t, k), Carried(t), h, Front(t, k + 1));
    assert Flight(t, k)[7] == Front(t, k)[7];
  }

  lemma HopsRunOut(t: Trip, k: nat)
    requires Addressed(t) && Acceptable(t) && k + 1 < |t.path| && k <= HopsOf(t.inner) <= k + 1
    ensures Ended(Flight(t, k)) == Fail(HopLimit)
  {
    FlightReads(t, k);
    FrontParts(t, k);
    assert Flight(t, k)[7] == Front(t, k)[7];
  }

  // ----- End.DT46 -----

  datatype Exit = Exit(inner: seq<Byte>, family: Byte)

  /** The exit. A packet with no routing header is delivered too. */
  function Decapped(raw: seq<Byte>): Outcome<Exit> {
    if |raw| < IPV6_HEADER_LEN || raw[0] / 16 != 6 then Fail(NotSegmentRouted)
    else
      var h := Parsed(raw);
      if h.Done? && h.value.segmentsLeft != 0 then Fail(NotAtTheEnd)
      else if h.Fail? && h.why != NotSegmentRouted then Fail(h.why)
      else
        var offset :=
          if h.Done? then h.value.offset + SRH_FIXED_LEN + 8 * raw[h.value.offset + 1] as int else IPV6_HEADER_LEN;
        var upper := if h.Done? then h.value.nextHeader else raw[6];
        if upper != NEXT_IPV4 && upper != NEXT_IPV6 then Fail(NotAnExit)
        else if |raw| <= offset then Fail(Truncated)
        else Done(Exit(raw[offset..], upper))
  }

  lemma DecapsAs(raw: seq<Byte>, h: Header, n: nat)
    requires |raw| > 48 + ADDR_LEN * n && raw[0] / 16 == 6 && raw[41] == 2 * n && Parsed(raw) == Done(h)
    requires h.offset == IPV6_HEADER_LEN && h.segmentsLeft == 0 && h.nextHeader in {NEXT_IPV4, NEXT_IPV6}
    ensures Decapped(raw) == Done(Exit(raw[48 + ADDR_LEN * n..], h.nextHeader))
  {}

  /** At the last segment the exit returns the packet and its family. */
  lemma ExitDelivers(t: Trip)
    requires Addressed(t) && Acceptable(t) && |t.path| - 1 <= HopsOf(t.inner)
    ensures Decapped(Flight(t, |t.path| - 1)) == Done(Exit(t.inner, InnerNext(t.inner)))
  {
    var k := |t.path| - 1;
    var raw := Flight(t, k);
    FlightReads(t, k);
    FrontParts(t, k);
    FlightParts(t, k);
    assert raw[0] == raw[..48][0] && raw[41] == raw[..48][41];
    DecapsAs(raw, Header(InnerNext(t.inner), 0, 0, 0, Reversed(t.path), IPV6_HEADER_LEN), |t.path|);
  }

  // ----- the whole path -----

  /** One waypoint, or why the packet stops there. */
  function EndOnce(raw: seq<Byte>): Outcome<seq<Byte>> {
    var e := Ended(raw);
    if e.Fail? then Fail(e.why) else Done(e.value.raw)
  }

  function Repeated(step: seq<Byte> -> Outcome<seq<Byte>>, raw: seq<Byte>, k: nat): Outcome<seq<Byte>> {
    if k == 0 then Done(raw)
    else
      var before := Repeated(step, raw, k - 1);
      if before.Fail? then before else step(before.value)
  }

  function AfterEnds(raw: seq<Byte>, k: nat): Outcome<seq<Byte>> {
    Repeated(EndOnce, raw, k)
  }

  lemma {:induction false} StepsAddUp(step: seq<Byte> -> Outcome<seq<Byte>>, at: seq<seq<Byte>>, k: nat)
    requires k < |at| && forall i | 0 <= i < |at| - 1 :: step(at[i]) == Done(at[i + 1])
    ensures Repeated(step, at[0], k) == Done(at[k])
  {
    if k == 0 {
    } else {
      StepsAddUp(step, at, k - 1);
    }
  }

  lemma {:induction false} FailureStays(step: seq<Byte> -> Outcome<seq<Byte>>, raw: seq<Byte>, at: seq<Byte>, j: nat,
                                        k: nat)
    requires j < k && Repeated(step, raw, j) == Done(at) && step(at).Fail?
    ensures Repeated(step, raw, k) == step(at)
  {
    if j + 1 >= k {
    } else {
      FailureStays(step, raw, at, j, k - 1);
    }
  }

  lemma EndOnceMoves(t: Trip, k: nat)
    requires Addressed(t) && Acceptable(t) && k + 1 < |t.path| && k + 1 < HopsOf(t.inner)
    ensures EndOnce(Flight(t, k)) == Done(Flight(t, k + 1))
  {
    EndMovesOn(t, k);
  }

  /** The packet at each of the first n segments. */
  function Flights(t: Trip, n: nat): (at: seq<seq<Byte>>)
    requires Addressed(t) && Acceptable(t) && 0 < n <= |t.path| && (n == 1 || n <= HopsOf(t.inner))
    ensures |at| == n
  {
    seq(n, i requires 0 <= i < n => Flight(t, i))
  }

  lemma FlightsFollow(t: Trip, n: nat, i: nat)
    requires Addressed(t) && Acceptable(t) && 0 < n <= |t.path| && n <= HopsOf(t.inner) && i + 1 < n
    ensures EndOnce(Flights(t, n)[i]) == Done(Flights(t, n)[i + 1])
  {
    EndOnceMoves(t, i);
  }

  /** After k Ends the packet is on its way to segment k, with k hops spent. */
  lemma PathIsVisited(t: Trip, k: nat)
    requires Addressed(t) && Acceptable(t) && k < |t.path| && (k == 0 || k < HopsOf(t.inner))
    ensures AfterEnds(Flight(t, 0), k) == Done(Flight(t, k))
  {
    var at := Flights(t, k + 1);
    forall i | 0 <= i < |at| - 1
      ensures EndOnce(at[i]) == Done(at[i + 1])
    {
      FlightsFollow(t, k + 1, i);
    }
    StepsAddUp(EndOnce, at, k);
  }

  lemma Heading(t: Trip, k: nat)
    requires Addressed(t) && Acceptable(t) && k < |t.path| && k <= HopsOf(t.inner)
    ensures |Flight(t, k)| > 40 && Flight(t, k)[24..40] == t.path[k] && Flight(t, k)[7] == HopsOf(t.inner) - k
  {
    FrontParts(t, k);
    FlightParts(t, k);
    var raw := Flight(t, k);
    assert raw[24..40] == raw[..48][24..40] && raw[7] == raw[..48][7];
  }

  lemma EndOnceStops(t: Trip, k: nat)
    requires Addressed(t) && Acceptable(t) && k + 1 < |t.path| && k <= HopsOf(t.inner) <= k + 1
    ensures EndOnce(Flight(t, k)) == Fail(HopLimit)
  {
    HopsRunOut(t, k);
  }

  lemma StopsFrom(raw: seq<Byte>, at: seq<Byte>, k: nat, n: nat)
    requires k < n && AfterEnds(raw, k) == Done(at) && EndOnce(at) == Fail(HopLimit)
    ensures AfterEnds(raw, n) == Fail(HopLimit)
  {
    FailureStays(EndOnce, raw, at, k, n);
  }

  lemma StopsAt(t: Trip, k: nat)
    requires Addressed(t) && Acceptable(t) && k + 1 < |t.path| && k <= HopsOf(t.inner) <= k + 1
    requires k == 0 || k < HopsOf(t.inner)
    ensures AfterEnds(Flight(t, 0), |t.path| - 1) == Fail(HopLimit)
  {
    PathIsVisited(t, k);
    EndOnceStops(t, k);
    StopsFrom(Flight(t, 0), Flight(t, k), k, |t.path| - 1);
  }

  lemma FallsShort(t: Trip)
    requires Addressed(t) && Acceptable(t) && |t.path| > 1 && HopsOf(t.inner) < |t.path|
    ensures AfterEnds(Flight(t, 0), |t.path| - 1) == Fail(HopLimit)
  {
    StopsAt(t, if HopsOf(t.inner) == 0 then 0 else HopsOf(t.inner) - 1);
  }

  /** A packet encapsulated for a path of n segments reaches the last of them
      exactly when there is one segment or its hop limit is at least n, and the
      exit then returns it byte for byte with its family. */
  lemma PathRoundTrip(t: Trip)
    requires Addressed(t) && Acceptable(t)
    ensures AfterEnds(Flight(t, 0), |t.path| - 1).Done? <==> |t.path| == 1 || HopsOf(t.inner) >= |t.path|
    ensures AfterEnds(Flight(t, 0), |t.path| - 1).Done? ==>
      Decapped(AfterEnds(Flight(t, 0), |t.path| - 1).value) == Done(Exit(t.inner, InnerNext(t.inner)))
  {
    if |t.path| == 1 || HopsOf(t.inner) >= |t.path| {
      PathIsVisited(t, |t.path| - 1);
      ExitDelivers(t);
    } else {
      FallsShort(t);
    }
  }

  // ----- H.Encaps -----

  method Encapsulate(t: Trip) returns (r: Result<array<Byte>>)
    requires Addressed(t)
    ensures r.Ok? <==> Acceptable(t)
    ensures r.Ok? ==> fresh(r.value) && r.value[..] == Flight(t, 0)
  {
    if !Acceptable(t) {
      return Err;
    }
    var overhead := Overhead(|t.path|);
    var out := new Byte[overhead + |t.inner|](_ => 0);
    Write(out, overhead, t.inner);
    WriteOuter(out, 0, t);
    assert out[overhead..] == t.inner;
    assert out[..] == out[..overhead] + out[overhead..];
    FrontThenSegments(t);
    return Ok(out);
  }

  /** Everything in front of the packet. */
  function Outer(t: Trip): seq<Byte>
    requires Addressed(t) && Acceptable(t)
  {
    Front(t, 0) + Joined(Reversed(t.path))
  }

  lemma FrontThenSegments(t: Trip)
    requires Addressed(t) && Acceptable(t)
    ensures Outer(t) + t.inner == Flight(t, 0) && |Outer(t)| == Overhead(|t.path|)
  {
    FlightParts(t, 0);
  }

  /** Writes the header and the segments in front of the packet, every byte of it. */
  method WriteOuter(out: array<Byte>, start: nat, t: Trip)
    requires Addressed(t) && Acceptable(t) && start + Overhead(|t.path|) <= out.Length
    modifies out
    ensures out[start..start + Overhead(|t.path|)] == Outer(t)
    ensures forall i | 0 <= i < out.Length && !(start <= i < start + Overhead(|t.path|)) :: out[i] == old(out[i])
  {
    var at := WriteFront(out, start, t);
    at := WriteSegments(out, start, at, Reversed(t.path), Front(t, 0));
  }

  method WriteSegments(out: array<Byte>, start: nat, from: nat, segments: seq<Address>, ghost front: seq<Byte>)
    returns (at: nat)
    requires start <= from && from + ADDR_LEN * |segments| <= out.Length && out[start..from] == front
    requires forall i | 0 <= i < |segments| :: |segments[i]| == ADDR_LEN
    modifies out
    ensures at == from + ADDR_LEN * |segments| && out[start..at] == front + Joined(segments)
    ensures forall i | 0 <= i < out.Length && !(from <= i < at) :: out[i] == old(out[i])
  {
    at := from;
    for i := 0 to |segments|
      invariant at == from + ADDR_LEN * i
      invariant out[start..at] == front + Joined(segments[..i])
      invariant forall j | 0 <= j < out.Length && !(from <= j < at) :: out[j] == old(out[j])
    {
      JoinedGrows(segments, i);
      ghost var before := out[start..at];
      at := Extend(out, start, at, segments[i], before);
      assert before + segments[i] == front + (Joined(segments[..i]) + segments[i]);
    }
    assert segments[..|segments|] == segments;
  }

  method WriteFront(out: array<Byte>, start: nat, t: Trip) returns (at: nat)
    requires Addressed(t) && Acceptable(t) && start + Overhead(|t.path|) <= out.Length
    modifies out
    ensures at == start + IPV6_HEADER_LEN + SRH_FIXED_LEN && out[start..at] == Front(t, 0)
    ensures forall i | 0 <= i < out.Length && !(start <= i < at) :: out[i] == old(out[i])
  {
    var next, n := InnerNext(t.inner), |t.path|;
    var hops := DEFAULT_HOP_LIMIT;
    var lead: seq<Byte> := [0x60, 0, 0, 0];
    if next == NEXT_IPV6 {
      hops := t.inner[7];
      lead := t.inner[..4];
    }
    var srhLen := SRH_FIXED_LEN + ADDR_LEN * n;
    var head := lead + U16Bytes(srhLen + |t.inner|) + [ROUTING, hops];
    var srh := [next, 2 * n, SEGMENT_TYPE, n - 1, n - 1, 0, 0, 0];
    assert Front(t, 0) == head + t.source + t.path[0] + srh;
    at := Extend(out, start, start, head, []);
    at := Extend(out, start, at, t.source, head);
    at := Extend(out, start, at, t.path[0], head + t.source);
    at := Extend(out, start, at, srh, head + t.source + t.path[0]);
  }

  /** Moves size bytes up within a buffer, overlapping or not. */
  method MoveUp(buf: array<Byte>, source: nat, target: nat, size: nat)
    requires source <= target && target + size <= buf.Length
    modifies buf
    ensures buf[target..target + size] == old(buf[source..source + size])
    ensures forall i | 0 <= i < buf.Length && !(target <= i < target + size) :: buf[i] == old(buf[i])
  {
    var k := size;
    while k > 0
      invariant 0 <= k <= size
      invariant forall i | target + k <= i < target + size :: buf[i] == old(buf[i - target + source])
      invariant forall i | 0 <= i < buf.Length && !(target + k <= i < target + size) :: buf[i] == old(buf[i])
    {
      k := k - 1;
      buf[target + k] := buf[source + k];
    }
  }

  /** Encapsulates the packet at offset within a buffer; on refusal, and outside
      the result, the buffer is untouched. */
  method EncapsulateInPlace(buf: array<Byte>, offset: int, size: int, source: Address, path: seq<Address>)
    returns (r: Result<int>)
    requires Addressed(Trip([], source, path))
    modifies buf
    ensures r.Ok? <==>
      && 0 <= offset && 0 <= size && offset + size <= buf.Length
      && Acceptable(Trip(old(buf[offset..offset + size]), source, path))
      && offset + Overhead(|path|) + size <= buf.Length
    ensures r.Err? ==> buf[..] == old(buf[..])
    ensures r.Ok? ==>
      && r.value == Overhead(|path|) + size
      && buf[offset..offset + r.value] == Flight(Trip(old(buf[offset..offset + size]), source, path), 0)
      && forall i | 0 <= i < buf.Length && !(offset <= i < offset + r.value) :: buf[i] == old(buf[i])
  {
    if offset < 0 || size < 0 || offset + size > buf.Length {
      return Err;
    }
    var t := Trip(buf[offset..offset + size], source, path);
    if !Acceptable(t) {
      return Err;
    }
    var overhead := Overhead(|path|);
    if offset + overhead + size > buf.Length {
      return Err;
    }
    Insert(buf, offset, t);
    return Ok(overhead + size);
  }

  lemma TwoParts(s: seq<Byte>, a: nat, b: nat, c: nat)
    requires a <= b <= c <= |s|
    ensures s[a..c] == s[a..b] + s[b..c]
  {}

  method Insert(buf: array<Byte>, offset: nat, t: Trip)
    requires Addressed(t) && Acceptable(t) && offset + Overhead(|t.path|) + |t.inner| <= buf.Length
    requires buf[offset..offset + |t.inner|] == t.inner
    modifies buf
    ensures buf[offset..offset + Overhead(|t.path|) + |t.inner|] == Flight(t, 0)
    ensures forall i | 0 <= i < buf.Length && !(offset <= i < offset + Overhead(|t.path|) + |t.inner|) ::
      buf[i] == old(buf[i])
  {
    var start, size := offset + Overhead(|t.path|), |t.inner|;
    MoveUp(buf, offset, start, size);
    ghost var moved := buf[start..start + size];
    WriteOuter(buf, offset, t);
    FrontThenSegments(t);
    assert buf[start..start + size] == moved;
    TwoParts(buf[..], offset, start, start + size);
  }
}
