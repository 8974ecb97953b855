/** The segment routing header (RFC 8754) as it is found and read. */
module Srv6Header {
  import opened Bytes

  const IPV6_HEADER_LEN := 40
  const IPV4_HEADER_LEN := 20
  const SRH_FIXED_LEN := 8
  const ADDR_LEN := 16
  const ROUTING: Byte := 43
  const HOP_BY_HOP: Byte := 0
  const DEST_OPTS: Byte := 60
  const FRAGMENT: Byte := 44
  const NEXT_IPV4: Byte := 4
  const NEXT_IPV6: Byte := 41
  const SEGMENT_TYPE: Byte := 4
  const MAX_EXTENSION_HEADERS := 8
  const MAX_SEGMENTS := 16

  type Address = seq<Byte>

  datatype Why =
    | NotSegmentRouted | HeaderInvalid | Truncated | TooManySegments
    | Exhausted | HopLimit | NotAtTheEnd | NotAnExit

  datatype Outcome<T> = Done(value: T) | Fail(why: Why)

  datatype Header = Header(nextHeader: Byte, segmentsLeft: Byte, flags: Byte, tag: int, segments: seq<Address>,
                           offset: nat)

  // ----- the extension header chain -----

  /** The offset of the routing header, at most budget headers on. */
  function Routing(raw: seq<Byte>, next: Byte, offset: nat, budget: nat): (r: Outcome<nat>)
    requires offset <= |raw|
    ensures r.Done? ==> offset <= r.value <= |raw|
    decreases budget
  {
    if budget == 0 then Fail(HeaderInvalid)
    else if next == ROUTING then Done(offset)
    else if next == FRAGMENT then Fail(HeaderInvalid)
    else if next != HOP_BY_HOP && next != DEST_OPTS then Fail(NotSegmentRouted)
    else if |raw| < offset + 8 then Fail(NotSegmentRouted)
    else
      var further := offset + 8 * (1 + raw[offset + 1] as int);
      if further > |raw| then Fail(NotSegmentRouted) else Routing(raw, raw[offset], further, budget - 1)
  }

  method FindRouting(raw: seq<Byte>) returns (r: Outcome<nat>)
    requires |raw| >= IPV6_HEADER_LEN
    ensures r == Routing(raw, raw[6], IPV6_HEADER_LEN, MAX_EXTENSION_HEADERS)
  {
    var next, offset: nat := raw[6], IPV6_HEADER_LEN;
    for i := 0 to MAX_EXTENSION_HEADERS
      invariant offset <= |raw|
      invariant Routing(raw, raw[6], IPV6_HEADER_LEN, MAX_EXTENSION_HEADERS)
             == Routing(raw, next, offset, MAX_EXTENSION_HEADERS - i)
    {
      if next == ROUTING {
        return Done(offset);
      }
      if next == FRAGMENT {
        return Fail(HeaderInvalid);
      }
      if next != HOP_BY_HOP && next != DEST_OPTS {
        return Fail(NotSegmentRouted);
      }
      if |raw| < offset + 8 {
        return Fail(NotSegmentRouted);
      }
      var further := offset + 8 * (1 + raw[offset + 1] as int);
      if further > |raw| {
        return Fail(NotSegmentRouted);
      }
      next, offset := raw[offset], further;
    }
    return Fail(HeaderInvalid);
  }

  // ----- the header -----

  function Segment(srh: seq<Byte>, i: nat): Address
    requires SRH_FIXED_LEN + ADDR_LEN * i + ADDR_LEN <= |srh|
  {
    srh[SRH_FIXED_LEN + ADDR_LEN * i..SRH_FIXED_LEN + ADDR_LEN * i + ADDR_LEN]
  }

  /** What a routing header at the front of srh says, or why it is refused. */
  function ReadHeader(srh: seq<Byte>, offset: nat): (r: Outcome<Header>)
    ensures r.Done? ==>
      && r.value.offset == offset && 0 < |r.value.segments| <= MAX_SEGMENTS
      && r.value.segmentsLeft <= |r.value.segments|
      && |srh| >= SRH_FIXED_LEN && |srh| >= SRH_FIXED_LEN + 8 * srh[1] as int
      && forall i | 0 <= i < |r.value.segments| :: |r.value.segments[i]| == ADDR_LEN
  {
    if |srh| < SRH_FIXED_LEN then Fail(Truncated)
    else if srh[2] != SEGMENT_TYPE then Fail(NotSegmentRouted)
    else if |srh| < SRH_FIXED_LEN + 8 * srh[1] as int then Fail(Truncated)
    else
      var count := srh[4] as int + 1;
      if 2 * count > srh[1] then Fail(HeaderInvalid)
      else if count > MAX_SEGMENTS then Fail(TooManySegments)
      else if srh[3] > count then Fail(HeaderInvalid)
      else
        var segments := seq(count, i requires 0 <= i < count => Segment(srh, i));
        Done(Header(srh[0], srh[3], srh[5], U16Of(srh[6..8]), segments, offset))
  }

  function Parsed(raw: seq<Byte>): (r: Outcome<Header>)
    ensures r.Done? ==>
      && IPV6_HEADER_LEN <= r.value.offset && r.value.offset + SRH_FIXED_LEN <= |raw|
      && r.value.offset + SRH_FIXED_LEN + 8 * raw[r.value.offset + 1] as int <= |raw|
      && r.value.segmentsLeft <= |r.value.segments|
      && forall i | 0 <= i < |r.value.segments| :: |r.value.segments[i]| == ADDR_LEN
  {
    if |raw| < IPV6_HEADER_LEN || raw[0] / 16 != 6 then Fail(NotSegmentRouted)
    else
      var at := Routing(raw, raw[6], IPV6_HEADER_LEN, MAX_EXTENSION_HEADERS);
      if at.Fail? then Fail(at.why) else ReadHeader(raw[at.value..], at.value)
  }

  method Parse(raw: seq<Byte>) returns (r: Outcome<Header>)
    ensures r == Parsed(raw)
  {
    if |raw| < IPV6_HEADER_LEN || raw[0] / 16 != 6 {
      return Fail(NotSegmentRouted);
    }
    var at := FindRouting(raw);
    if at.Fail? {
      return Fail(at.why);
    }
    var srh := raw[at.value..];
    if |srh| < SRH_FIXED_LEN {
      return Fail(Truncated);
    }
    if srh[2] != SEGMENT_TYPE {
      return Fail(NotSegmentRouted);
    }
    var extLen := srh[1] as int;
    if |srh| < SRH_FIXED_LEN + 8 * extLen {
      return Fail(Truncated);
    }
    var count := srh[4] as int + 1;
    if 2 * count > extLen {
      return Fail(HeaderInvalid);
    }
    if count > MAX_SEGMENTS {
      return Fail(TooManySegments);
    }
    var segments := ReadSegments(srh, count);
    if srh[3] > count {
      return Fail(HeaderInvalid);
    }
    return Done(Header(srh[0], srh[3], srh[5], U16Of(srh[6..8]), segments, at.value));
  }

  method ReadSegments(srh: seq<Byte>, count: nat) returns (segments: seq<Address>)
    requires SRH_FIXED_LEN + ADDR_LEN * count <= |srh|
    ensures segments == seq(count, i requires 0 <= i < count => Segment(srh, i))
  {
    segments := [];
    for i := 0 to count
      invariant |segments| == i && forall j | 0 <= j < i :: segments[j] == Segment(srh, j)
    {
      segments := segments + [Segment(srh, i)];
    }
  }
}
