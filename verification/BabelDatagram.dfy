/** Babel packets as IPv6 and UDP carry them, with the checksum of section 8.1 of
    RFC 8200. */
module BabelDatagram {
  import opened Bytes
  import opened Wrappers

  const IPV6_HEADER_LEN := 40
  const UDP_HEADER_LEN := 8
  const NEXT_UDP: Byte := 17
  const HOP_LIMIT: Byte := 1
  const PORT := 6696

  type Address = seq<Byte>

  function Multicast(): (a: Address)
    ensures |a| == 16
  {
    [0xff, 0x02] + Zeros(11) + [1, 0, 6]
  }

  predicate LinkLocal(a: Address)
    requires |a| == 16
  {
    a[0] == 0xfe && a[1] / 64 == 2
  }

  // ----- the checksum -----

  /** The 16-bit words of a byte string added up, an odd last byte as a high one. */
  function WordSum(b: seq<Byte>): (s: int)
    ensures 0 <= s <= 0xffff * ((|b| + 1) / 2)
  {
    if b == [] then 0
    else if |b| == 1 then b[0] as int * 256
    else U16Of(b[..2]) + WordSum(b[2..])
  }

  /** The end-around-carry sum of what adds up to n. */
  function Folded(n: int): (r: int)
    requires n >= 0
    ensures 0 <= r <= 0xffff && (r == 0 <==> n == 0) && (r - n) % 0xffff == 0
  {
    if n == 0 then 0 else (n - 1) % 0xffff + 1
  }

  lemma FoldOnce(n: int)
    requires n >= 0x1_0000
    ensures 0 < n % 0x1_0000 + n / 0x1_0000 < n
    ensures Folded(n % 0x1_0000 + n / 0x1_0000) == Folded(n)
  {}

  method Fold(n: int) returns (r: int)
    requires 0 <= n
    ensures r == Folded(n)
  {
    r := n;
    while r / 0x1_0000 != 0
      invariant 0 <= r && Folded(r) == Folded(n)
      decreases r
    {
      FoldOnce(r);
      r := r % 0x1_0000 + r / 0x1_0000;
    }
  }

  method AddWords(sum: int, b: seq<Byte>) returns (r: int)
    ensures r == sum + WordSum(b)
  {
    r := sum;
    var i := 0;
    while i + 1 < |b|
      invariant 0 <= i <= |b| && i % 2 == 0 && r + WordSum(b[i..]) == sum + WordSum(b)
    {
      assert b[i..][..2] == b[i..i + 2] && b[i..][2..] == b[i + 2..];
      r := r + U16Of(b[i..i + 2]);
      i := i + 2;
    }
    if |b| % 2 == 1 {
      r := r + b[|b| - 1] as int * 256;
    }
  }

  /** The pseudo-header and the datagram added up. */
  function Total(src: Address, dst: Address, udp: seq<Byte>): (n: int)
    requires |src| == |dst| == 16 && |udp| < 0x1_0000_0000
    ensures n >= NEXT_UDP
  {
    WordSum(src) + WordSum(dst) + WordSum(U32Bytes(|udp|)) + NEXT_UDP as int + WordSum(udp)
  }

  function Checksum(src: Address, dst: Address, udp: seq<Byte>): (cs: int)
    requires |src| == |dst| == 16 && |udp| < 0x1_0000_0000
    ensures 0 < cs <= 0xffff
  {
    var cs := 0xffff - Folded(Total(src, dst, udp));
    if cs == 0 then 0xffff else cs
  }

  /** No partial sum of a datagram leaves 32 bits. */
  method UdpChecksum(src: Address, dst: Address, udp: seq<Byte>) returns (cs: int)
    requires |src| == |dst| == 16 && |udp| <= 0xffff
    ensures cs == Checksum(src, dst, udp)
  {
    var sum := AddWords(0, src);
    sum := AddWords(sum, dst);
    sum := AddWords(sum, U32Bytes(|udp|));
    sum := AddWords(sum, [0, 0, 0, NEXT_UDP]);
    assert WordSum([0, 0, 0, NEXT_UDP]) == NEXT_UDP as int by {
      assert [0, 0, 0, NEXT_UDP][2..] == [0, NEXT_UDP] && [0, NEXT_UDP][2..] == [];
    }
    sum := AddWords(sum, udp);
    assert sum < 0x1_0000_0000;
    sum := Fold(sum);
    cs := 0xffff - sum;
    if cs == 0 {
      cs := 0xffff;
    }
  }

  /** The checksum of a datagram is all ones exactly when it adds up to zero. */
  lemma AllOnesMeansZero(src: Address, dst: Address, udp: seq<Byte>)
    requires |src| == |dst| == 16 && |udp| < 0x1_0000_0000
    ensures Checksum(src, dst, udp) == 0xffff <==> Total(src, dst, udp) % 0xffff == 0
  {}

  /** A word put where a zero stood adds itself. */
  lemma {:induction false} WordAdds(before: seq<Byte>, word: int, rest: seq<Byte>)
    requires 0 <= word <= 0xffff && |before| % 2 == 0
    ensures WordSum(before + U16Bytes(word) + rest) == WordSum(before + U16Bytes(0) + rest) + word
    decreases |before|
  {
    var a, z := before + U16Bytes(word) + rest, before + U16Bytes(0) + rest;
    if before == [] {
      U16RoundTrip(word);
      U16RoundTrip(0);
      assert a[..2] == U16Bytes(word) && z[..2] == U16Bytes(0) && a[2..] == rest == z[2..];
    } else {
      WordAdds(before[2..], word, rest);
      assert a[..2] == before[..2] == z[..2];
      assert a[2..] == before[2..] + U16Bytes(word) + rest && z[2..] == before[2..] + U16Bytes(0) + rest;
    }
  }

  // ----- packets -----

  /** A UDP datagram between the Babel ports with the given checksum. */
  function Udp(payload: seq<Byte>, cs: int): (b: seq<Byte>)
    requires |payload| <= 0xffff - UDP_HEADER_LEN && 0 <= cs <= 0xffff
    ensures |b| == UDP_HEADER_LEN + |payload|
  {
    U16Bytes(PORT) + U16Bytes(PORT) + U16Bytes(UDP_HEADER_LEN + |payload|) + U16Bytes(cs) + payload
  }

  function Ipv6(src: Address, dst: Address, udp: seq<Byte>): (b: seq<Byte>)
    requires |src| == |dst| == 16 && |udp| <= 0xffff
    ensures |b| == IPV6_HEADER_LEN + |udp|
  {
    [0x60, 0, 0, 0] + U16Bytes(|udp|) + [NEXT_UDP, HOP_LIMIT] + src + dst + udp
  }

  function Built(src: Address, dst: Address, payload: seq<Byte>): seq<Byte>
    requires |src| == |dst| == 16 && |payload| <= 0xffff - UDP_HEADER_LEN
  {
    Ipv6(src, dst, Udp(payload, Checksum(src, dst, Udp(payload, 0))))
  }

  /** Everything in front of the checksum. */
  function Lead(src: Address, dst: Address, length: int): (b: seq<Byte>)
    requires |src| == |dst| == 16 && 0 <= length <= 0xffff
    ensures |b| == IPV6_HEADER_LEN + 6
  {
    [0x60, 0, 0, 0] + U16Bytes(length) + [NEXT_UDP, HOP_LIMIT] + src + dst
    + (U16Bytes(PORT) + U16Bytes(PORT) + U16Bytes(length))
  }

  lemma LeadThenChecksum(src: Address, dst: Address, payload: seq<Byte>, cs: int)
    requires |src| == |dst| == 16 && |payload| <= 0xffff - UDP_HEADER_LEN && 0 <= cs <= 0xffff
    ensures Ipv6(src, dst, Udp(payload, cs)) == Lead(src, dst, UDP_HEADER_LEN + |payload|) + U16Bytes(cs) + payload
    ensures Ipv6(src, dst, Udp(payload, cs))[IPV6_HEADER_LEN..] == Udp(payload, cs)
  {}

  /** Fills a buffer with the packet; the checksum is computed over it last. */
  method BuildPacket(src: Address, dst: Address, payload: seq<Byte>) returns (b: array<Byte>)
    requires |src| == |dst| == 16 && |payload| <= 0xffff - UDP_HEADER_LEN
    ensures fresh(b) && b[..] == Built(src, dst, payload)
  {
    var length := UDP_HEADER_LEN + |payload|;
    b := new Byte[IPV6_HEADER_LEN + length](_ => 0);
    Lay(b, Lead(src, dst, length), U16Bytes(0), payload);
    LeadThenChecksum(src, dst, payload, 0);
    var cs := UdpChecksum(src, dst, b[IPV6_HEADER_LEN..]);
    Stamp(b, Lead(src, dst, length), U16Bytes(0), payload, U16Bytes(cs));
    LeadThenChecksum(src, dst, payload, cs);
  }

  method Lay(b: array<Byte>, lead: seq<Byte>, cs: seq<Byte>, payload: seq<Byte>)
    requires b.Length == |lead| + |cs| + |payload|
    modifies b
    ensures b[..] == lead + cs + payload
  {
    var at := Extend(b, 0, 0, lead, []);
    at := Extend(b, 0, at, cs, [] + lead);
    at := Extend(b, 0, at, payload, [] + lead + cs);
    assert b[0..at] == b[..];
    assert [] + lead + cs + payload == lead + cs + payload;
  }

  method Stamp(b: array<Byte>, ghost lead: seq<Byte>, ghost blank: seq<Byte>, ghost payload: seq<Byte>, cs: seq<Byte>)
    requires b[..] == lead + blank + payload && |cs| == |blank| && |lead| == IPV6_HEADER_LEN + 6
    modifies b
    ensures b[..] == lead + cs + payload
  {
    Write(b, IPV6_HEADER_LEN + 6, cs);
  }

  datatype Heard = Heard(src: Address, payload: seq<Byte>)

  function ParsePacket(raw: seq<Byte>, local: Address): Result<Heard>
    requires |local| == 16
  {
    if |raw| < IPV6_HEADER_LEN + UDP_HEADER_LEN then Err
    else if raw[0] / 16 != 6 || raw[6] != NEXT_UDP then Err
    else
      var length := U16Of(raw[4..6]);
      var src, dst, udp := raw[8..24], raw[24..40], raw[40..];
      if length < UDP_HEADER_LEN || IPV6_HEADER_LEN + length != |raw| then Err
      else if !LinkLocal(src) || (dst != Multicast() && dst != local) then Err
      else if U16Of(udp[..2]) != PORT || U16Of(udp[2..4]) != PORT || U16Of(udp[4..6]) != length then Err
      else if U16Of(udp[6..8]) == 0 || Checksum(src, dst, udp) != 0xffff then Err
      else Ok(Heard(src, udp[8..]))
  }

  lemma UdpParts(payload: seq<Byte>, cs: int)
    requires |payload| <= 0xffff - UDP_HEADER_LEN && 0 <= cs <= 0xffff
    ensures var udp := Udp(payload, cs);
      && U16Of(udp[..2]) == PORT && U16Of(udp[2..4]) == PORT && U16Of(udp[4..6]) == |udp| && U16Of(udp[6..8]) == cs
      && udp[8..] == payload
  {
    var udp := Udp(payload, cs);
    assert udp[..2] == U16Bytes(PORT) && udp[2..4] == U16Bytes(PORT);
    assert udp[4..6] == U16Bytes(|udp|) && udp[6..8] == U16Bytes(cs);
    U16RoundTrip(PORT);
    U16RoundTrip(|udp|);
    U16RoundTrip(cs);
  }

  lemma Ipv6Parts(src: Address, dst: Address, udp: seq<Byte>)
    requires |src| == |dst| == 16 && |udp| <= 0xffff
    ensures var raw := Ipv6(src, dst, udp);
      && raw[0] == 0x60 && U16Of(raw[4..6]) == |udp| && raw[6] == NEXT_UDP
      && raw[8..24] == src && raw[24..40] == dst && raw[40..] == udp
  {
    var raw := Ipv6(src, dst, udp);
    assert raw[4..6] == U16Bytes(|udp|);
    U16RoundTrip(|udp|);
  }

  /** Putting the checksum into the datagram makes it add up to zero. */
  lemma ChecksumCancels(src: Address, dst: Address, payload: seq<Byte>)
    requires |src| == |dst| == 16 && |payload| <= 0xffff - UDP_HEADER_LEN
    ensures Total(src, dst, Udp(payload, Checksum(src, dst, Udp(payload, 0)))) % 0xffff == 0
  {
    var cs := Checksum(src, dst, Udp(payload, 0));
    var before := U16Bytes(PORT) + U16Bytes(PORT) + U16Bytes(UDP_HEADER_LEN + |payload|);
    WordAdds(before, cs, payload);
    assert Total(src, dst, Udp(payload, cs)) == Total(src, dst, Udp(payload, 0)) + cs;
  }

  /** Whatever a speaker sends from its link-local address, its neighbor reads. */
  lemma PacketRoundTrip(src: Address, dst: Address, payload: seq<Byte>, local: Address)
    requires |src| == |dst| == |local| == 16 && |payload| <= 0xffff - UDP_HEADER_LEN
    requires LinkLocal(src) && (dst == Multicast() || dst == local)
    ensures ParsePacket(Built(src, dst, payload), local) == Ok(Heard(src, payload))
  {
    var cs := Checksum(src, dst, Udp(payload, 0));
    var udp := Udp(payload, cs);
    UdpParts(payload, cs);
    Ipv6Parts(src, dst, udp);
    ChecksumCancels(src, dst, payload);
    AllOnesMeansZero(src, dst, udp);
  }

  /** Whatever is read adds up to zero. */
  lemma WhatIsReadAddsUp(raw: seq<Byte>, local: Address)
    requires |local| == 16 && ParsePacket(raw, local).Ok?
    ensures |raw| >= 48 && Total(raw[8..24], raw[24..40], raw[40..]) % 0xffff == 0
    ensures raw[40..][8..] == ParsePacket(raw, local).value.payload
  {
    AllOnesMeansZero(raw[8..24], raw[24..40], raw[40..]);
  }

  lemma {:induction false} WordSumJoins(a: seq<Byte>, b: seq<Byte>)
    requires |a| % 2 == 0
    ensures WordSum(a + b) == WordSum(a) + WordSum(b)
    decreases |a|
  {
    if a == [] {
      assert a + b == b;
    } else {
      WordSumJoins(a[2..], b);
      assert (a + b)[..2] == a[..2] && (a + b)[2..] == a[2..] + b;
    }
  }

  /** The two addresses and the datagram are the packet from its eighth octet on. */
  lemma TotalOfPacket(raw: seq<Byte>)
    requires 40 <= |raw| < 0x1_0000_0000
    ensures Total(raw[8..24], raw[24..40], raw[40..])
         == WordSum(raw[8..]) + WordSum(U32Bytes(|raw| - 40)) + NEXT_UDP as int
  {
    WordSumJoins(raw[24..40], raw[40..]);
    WordSumJoins(raw[8..24], raw[24..40] + raw[40..]);
    assert raw[8..] == raw[8..24] + (raw[24..40] + raw[40..]);
  }

  predicate Vanishes(n: int) {
    n % 0xffff == 0
  }

  /** The part of the sum that depends on the length alone. */
  function OfLength(n: int): int
    requires 40 <= n < 0x1_0000_0000
  {
    WordSum(U32Bytes(n - 40)) + NEXT_UDP as int
  }

  lemma ReadSum(raw: seq<Byte>, local: Address)
    requires |local| == 16 && ParsePacket(raw, local).Ok?
    ensures 48 <= |raw| < 0x1_0000_0000
    ensures Vanishes(WordSum(raw[8..]) + OfLength(|raw|))
  {
    WhatIsReadAddsUp(raw, local);
    TotalOfPacket(raw);
  }

  lemma WordSplits(b: seq<Byte>, i: nat)
    requires i % 2 == 0 && i + 2 <= |b|
    ensures WordSum(b) == WordSum(b[..i]) + U16Of(b[i..i + 2]) + WordSum(b[i + 2..])
  {
    WordSumJoins(b[..i], b[i..]);
    assert b == b[..i] + b[i..];
    assert b[i..][..2] == b[i..i + 2] && b[i..][2..] == b[i + 2..];
  }

  lemma WordDiffers(a: seq<Byte>, b: seq<Byte>, i: nat)
    requires |a| == |b| && i % 2 == 0 && i + 2 <= |a| && a[..i] == b[..i] && a[i + 2..] == b[i + 2..]
    ensures WordSum(b) - WordSum(a) == U16Of(b[i..i + 2]) - U16Of(a[i..i + 2])
  {
    WordSplits(a, i);
    WordSplits(b, i);
  }

  lemma SameRemainder(m: int, n: int, k: int, w: int, v: int)
    requires Vanishes(m + k) && Vanishes(n + k) && n - m == v - w && 0 <= w <= 0xffff && 0 <= v <= 0xffff
    ensures w == v || (w == 0 && v == 0xffff) || (w == 0xffff && v == 0)
  {
    var d := v - w;
    assert d % 0xffff == 0;
  }

  /** Two packets equal but for the word at i, in an address or in the datagram. */
  predicate OneWordApart(a: seq<Byte>, b: seq<Byte>, i: nat) {
    |a| == |b| && 8 <= i && i % 2 == 0 && i + 2 <= |a| && a[..i] == b[..i] && a[i + 2..] == b[i + 2..]
  }

  lemma ApartSum(a: seq<Byte>, b: seq<Byte>, i: nat)
    requires OneWordApart(a, b, i)
    ensures WordSum(b[8..]) - WordSum(a[8..]) == U16Of(b[i..i + 2]) - U16Of(a[i..i + 2])
  {
    var x, y, j := a[8..], b[8..], i - 8;
    assert x[..j] == a[..i][8..] && y[..j] == b[..i][8..];
    assert x[j + 2..] == a[i + 2..] && y[j + 2..] == b[i + 2..];
    assert x[j..j + 2] == a[i..i + 2] && y[j..j + 2] == b[i..i + 2];
    WordDiffers(x, y, j);
  }

  /** If both are read, the word is the same in both, or all zeros in one and all ones
      in the other. */
  lemma OneWordIsCaught(a: seq<Byte>, b: seq<Byte>, i: nat, local: Address)
    requires |local| == 16 && OneWordApart(a, b, i) && ParsePacket(a, local).Ok? && ParsePacket(b, local).Ok?
    ensures var w, v := U16Of(a[i..i + 2]), U16Of(b[i..i + 2]);
            w == v || (w == 0 && v == 0xffff) || (w == 0xffff && v == 0)
  {
    ReadSum(a, local);
    ReadSum(b, local);
    ApartSum(a, b, i);
    SameRemainder(WordSum(a[8..]), WordSum(b[8..]), OfLength(|a|), U16Of(a[i..i + 2]), U16Of(b[i..i + 2]));
  }
}
