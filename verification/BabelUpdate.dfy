/** The Update TLV (section 4.6.9 of RFC 8966) with the Source Prefix sub-TLV of
    RFC 9079 and the IPv4-via-IPv6 encoding of RFC 9229. */
module BabelUpdate {
  import opened Bytes
  import opened BabelTlv
  import BabelOrder
  import opened Wrappers

  const AE_WILDCARD: Byte := 0
  const AE_IPV4: Byte := 1
  const AE_IPV6: Byte := 2
  const AE_IPV4_VIA_IPV6: Byte := 4
  const SOURCE_PREFIX: Byte := 128

  datatype Source = Source(bits: Byte, address: seq<Byte>)

  datatype Update = Update(
    ae: Byte, plen: Byte, interval: int, seqno: int, metric: int, prefix: seq<Byte>, routerId: Option<seq<Byte>>,
    ignore: bool, source: Option<Source>)

  predicate IsIpv4(ae: Byte) {
    ae == AE_IPV4 || ae == AE_IPV4_VIA_IPV6
  }

  function Size(ae: Byte): nat {
    if IsIpv4(ae) then 4 else 16
  }

  function PrefixLen(plen: Byte): nat {
    (plen + 7) / 8
  }

  // ----- masking -----

  /** The n highest bits of an octet, the rest zero. */
  function TopBits(b: Byte, n: int): (r: Byte)
    requires 0 <= n <= 8
  {
    var unit := [256, 128, 64, 32, 16, 8, 4, 2, 1][n];
    b - b % unit
  }

  function Masked(address: seq<Byte>, plen: Byte): (r: seq<Byte>)
    ensures |r| == |address|
  {
    seq(|address|, i requires 0 <= i < |address| =>
      TopBits(address[i], if plen <= 8 * i then 0 else if plen >= 8 * i + 8 then 8 else plen - 8 * i))
  }

  /** Zeroes the bits past the prefix length in the octet it ends in. */
  function TailCleared(address: seq<Byte>, plen: Byte): (r: seq<Byte>)
    requires plen <= 8 * |address|
    ensures |r| == |address|
  {
    if plen > 0 && plen % 8 != 0 then address[plen / 8 := TopBits(address[plen / 8], plen % 8)] else address
  }

  /** The octets a prefix occupies, the rest zero. */
  function Padded(raw: seq<Byte>, size: nat): (r: seq<Byte>)
    requires |raw| <= size
    ensures |r| == size
  {
    raw + Zeros(size - |raw|)
  }

  lemma ClearingMasks(address: seq<Byte>, plen: Byte)
    requires plen <= 8 * |address|
    ensures TailCleared(Padded(address[..PrefixLen(plen)], |address|), plen) == Masked(address, plen)
  {
    var padded := Padded(address[..PrefixLen(plen)], |address|);
    var cleared, masked := TailCleared(padded, plen), Masked(address, plen);
    forall i | 0 <= i < |address|
      ensures cleared[i] == masked[i]
    {
      if 8 * i + 8 <= plen {
        assert cleared[i] == address[i];
      } else if plen <= 8 * i {
        assert padded[i] == 0;
        assert cleared[i] == 0;
      } else {
        assert i == plen / 8 && padded[i] == address[i];
      }
    }
  }

  lemma MaskingPads(address: seq<Byte>, plen: Byte)
    requires plen <= 8 * |address|
    ensures Masked(Padded(address[..PrefixLen(plen)], |address|), plen) == Masked(address, plen)
  {
    var padded := Padded(address[..PrefixLen(plen)], |address|);
    forall i | 0 <= i < |address|
      ensures Masked(padded, plen)[i] == Masked(address, plen)[i]
    {
      if plen > 8 * i {
        assert padded[i] == address[i];
      }
    }
  }

  // ----- encoding -----

  function SourceBody(s: Source): seq<Byte>
    requires PrefixLen(s.bits) <= |s.address|
  {
    [s.bits] + s.address[..PrefixLen(s.bits)]
  }

  predicate SourceOk(ae: Byte, s: Source) {
    0 < s.bits <= 8 * Size(ae) && |s.address| == Size(ae) && Masked(s.address, s.bits) == s.address
  }

  /** An Update the sender may build. */
  predicate UpdateOk(u: Update) {
    && (IsIpv4(u.ae) || u.ae == AE_IPV6)
    && u.plen <= 8 * Size(u.ae) && |u.prefix| == Size(u.ae) && Masked(u.prefix, u.plen) == u.prefix
    && 0 <= u.interval < 0x1_0000 && 0 <= u.seqno < 0x1_0000 && 0 <= u.metric < 0x1_0000
    && u.routerId == None && (u.source.Some? ==> SourceOk(u.ae, u.source.value))
  }

  function Fixed(u: Update): (b: seq<Byte>)
    requires 0 <= u.interval < 0x1_0000 && 0 <= u.seqno < 0x1_0000 && 0 <= u.metric < 0x1_0000
    ensures |b| == 10
  {
    [u.ae, 0x80, u.plen, 0] + U16Bytes(u.interval) + U16Bytes(u.seqno) + U16Bytes(u.metric)
  }

  function SubTlvs(u: Update): (ts: seq<Tlv>)
    requires UpdateOk(u)
    ensures forall t | t in ts :: Encodable(t)
  {
    if u.source == None then [] else [Tlv(SOURCE_PREFIX, SourceBody(u.source.value))]
  }

  lemma SubTlvsAreShort(u: Update)
    requires UpdateOk(u)
    ensures |Frames(SubTlvs(u))| <= 19
  {
    if u.source.Some? {
      var t := SubTlvs(u)[0];
      assert SubTlvs(u)[1..] == [];
      assert Frames(SubTlvs(u)) == Frame(t) + [];
    }
  }

  function EncodeUpdate(u: Update): (t: Tlv)
    requires UpdateOk(u)
    ensures Encodable(t) && t.kind == UPDATE
  {
    SubTlvsAreShort(u);
    Tlv(UPDATE, Fixed(u) + u.prefix[..PrefixLen(u.plen)] + Frames(SubTlvs(u)))
  }

  // ----- decoding -----

  /** The last prefix of each encoding, which later ones may abbreviate. */
  type Prefixes = map<Byte, seq<Byte>>

  predicate PrefixesOk(ps: Prefixes) {
    forall ae | ae in ps :: |ps[ae]| == 16
  }

  function DecodeSource(ae: Byte, body: seq<Byte>): Option<Source> {
    if |body| < 1 || body[0] == 0 || |body| - 1 < PrefixLen(body[0]) then None
    else if !IsIpv4(ae) && ae != AE_IPV6 then None
    else if body[0] > 8 * Size(ae) then None
    else Some(Source(body[0], Masked(Padded(body[1..1 + PrefixLen(body[0])], Size(ae)), body[0])))
  }

  datatype Scanned = Scanned(ignore: bool, source: Option<Source>)

  /** Mandatory sub-TLVs other than one well-formed Source Prefix void the Update. */
  function Scan(ae: Byte, subs: seq<Tlv>, seen: bool): Scanned {
    if subs == [] then Scanned(false, None)
    else
      var s := subs[0];
      if s.kind < 128 then Scan(ae, subs[1..], seen)
      else if s.kind != SOURCE_PREFIX || seen then Scanned(true, Scan(ae, subs[1..], seen).source)
      else
        var rest := Scan(ae, subs[1..], true);
        var sp := DecodeSource(ae, s.body);
        Scanned(rest.ignore || sp == None, sp)
  }

  predicate HeaderOk(ps: Prefixes, body: seq<Byte>)
    requires |body| >= 10
  {
    var ae, plen, omitted := body[0], body[2], body[3];
    && (ae == AE_WILDCARD || IsIpv4(ae) || ae == AE_IPV6)
    && (ae == AE_WILDCARD ==> plen == 0 && omitted == 0)
    && (ae != AE_WILDCARD ==> plen <= 8 * Size(ae) && (omitted > 0 ==> ae in ps))
    && omitted <= PrefixLen(plen) && |body| - 10 >= PrefixLen(plen) - omitted
  }

  /** An address from the octets of its prefix. */
  function Restored(ae: Byte, plen: Byte, raw: seq<Byte>): seq<Byte>
    requires |raw| == PrefixLen(plen) && plen <= 8 * Size(ae)
  {
    TailCleared(Padded(raw, Size(ae)), plen)
  }

  /** The prefix an Update names, spelled out. */
  function Expanded(ps: Prefixes, body: seq<Byte>): seq<Byte>
    requires PrefixesOk(ps) && |body| >= 10 && HeaderOk(ps, body)
  {
    var ae, plen, omitted := body[0], body[2], body[3];
    if ae == AE_WILDCARD then Zeros(10) + [0xff, 0xff] + Zeros(4)
    else Restored(ae, plen, (if omitted > 0 then ps[ae][..omitted] else []) + body[10..10 + PrefixLen(plen) - omitted])
  }

  function DerivedId(ip: seq<Byte>): seq<Byte> {
    if |ip| >= 8 then ip[|ip| - 8..] else Zeros(8 - |ip|) + ip
  }

  function Remembered(ps: Prefixes, body: seq<Byte>): Prefixes
    requires PrefixesOk(ps) && |body| >= 10 && HeaderOk(ps, body)
  {
    if body[0] != AE_WILDCARD && body[1] / 128 % 2 == 1 then ps[body[0] := Padded(Expanded(ps, body), 16)] else ps
  }

  /** An Update from its fields, its prefix in full and its sub-TLVs. */
  function Built(ae: Byte, flags: Byte, plen: Byte, interval: int, seqno: int, metric: int, ip: seq<Byte>,
                 subTlvs: seq<Byte>): Update
  {
    var subs := Parse(subTlvs);
    var scanned := if subs.Err? then Scanned(true, None) else Scan(ae, subs.value, false);
    Update(ae, plen, interval, seqno, metric, ip,
           if ae != AE_WILDCARD && flags / 64 % 2 == 1 then Some(DerivedId(ip)) else None,
           ((interval == 0 || ae == AE_WILDCARD) && metric != BabelOrder.INFINITY) || scanned.ignore,
           scanned.source)
  }

  function Decoded(ps: Prefixes, body: seq<Byte>): Result<Update>
    requires PrefixesOk(ps)
  {
    if |body| < 10 || !HeaderOk(ps, body) then Err
    else
      Ok(Built(body[0], body[1], body[2], U16Of(body[4..6]), U16Of(body[6..8]), U16Of(body[8..10]),
               Expanded(ps, body), body[10 + PrefixLen(body[2]) - body[3]..]))
  }

  // ----- the round trip -----

  lemma SourceRoundTrip(ae: Byte, s: Source)
    requires (IsIpv4(ae) || ae == AE_IPV6) && SourceOk(ae, s)
    ensures DecodeSource(ae, SourceBody(s)) == Some(s)
  {
    var body := SourceBody(s);
    assert body[1..1 + PrefixLen(s.bits)] == s.address[..PrefixLen(s.bits)];
    MaskingPads(s.address, s.bits);
  }

  lemma WordAfter(lead: seq<Byte>, x: int, rest: seq<Byte>)
    requires 0 <= x < 0x1_0000
    ensures var b := lead + U16Bytes(x) + rest;
      U16Of(b[|lead|..|lead| + 2]) == x
  {
    U16RoundTrip(x);
    assert (lead + U16Bytes(x) + rest)[|lead|..|lead| + 2] == U16Bytes(x);
  }

  lemma FixedParts(u: Update)
    requires 0 <= u.interval < 0x1_0000 && 0 <= u.seqno < 0x1_0000 && 0 <= u.metric < 0x1_0000
    ensures var f := Fixed(u);
      && f[0] == u.ae && f[1] == 0x80 && f[2] == u.plen && f[3] == 0
      && U16Of(f[4..6]) == u.interval && U16Of(f[6..8]) == u.seqno && U16Of(f[8..10]) == u.metric
  {
    var f, a, b, c := Fixed(u), U16Bytes(u.interval), U16Bytes(u.seqno), U16Bytes(u.metric);
    var lead := [u.ae, 0x80, u.plen, 0];
    assert f == lead + a + (b + c) == lead + a + b + c == lead + a + b + c + [];
    WordAfter(lead, u.interval, b + c);
    WordAfter(lead + a, u.seqno, c);
    WordAfter(lead + a + b, u.metric, []);
  }

  lemma Sliced(fixed: seq<Byte>, raw: seq<Byte>, subs: seq<Byte>)
    requires |fixed| == 10
    ensures var body := fixed + raw + subs;
      && body[..10] == fixed && body[4..6] == fixed[4..6] && body[6..8] == fixed[6..8] && body[8..10] == fixed[8..10]
      && body[10..10 + |raw|] == raw && body[10 + |raw|..] == subs
  {}

  /** What a body with only the prefix flag set builds. */
  lemma BuiltParts(ae: Byte, plen: Byte, interval: int, seqno: int, metric: int, ip: seq<Byte>, subTlvs: seq<Byte>)
    requires ae != AE_WILDCARD && Parse(subTlvs).Ok?
    ensures var scanned := Scan(ae, Parse(subTlvs).value, false);
      Built(ae, 0x80, plen, interval, seqno, metric, ip, subTlvs) == Update(
        ae, plen, interval, seqno, metric, ip, None,
        (interval == 0 && metric != BabelOrder.INFINITY) || scanned.ignore, scanned.source)
  {}

  lemma DecodedParts(ps: Prefixes, body: seq<Byte>, subTlvs: seq<Byte>)
    requires PrefixesOk(ps) && |body| >= 10 && HeaderOk(ps, body) && body[1] == 0x80 && body[3] == 0
    requires subTlvs == body[10 + PrefixLen(body[2])..]
    ensures Decoded(ps, body) == Ok(Built(
      body[0], 0x80, body[2], U16Of(body[4..6]), U16Of(body[6..8]), U16Of(body[8..10]), Expanded(ps, body), subTlvs))
  {}

  lemma SubTlvsRoundTrip(u: Update)
    requires UpdateOk(u)
    ensures Parse(Frames(SubTlvs(u))) == Ok(SubTlvs(u))
    ensures Scan(u.ae, SubTlvs(u), false) == Scanned(false, u.source)
  {
    ParseUndoesFrames(SubTlvs(u));
    if u.source.Some? {
      assert SubTlvs(u)[1..] == [];
      assert WithoutPadding(SubTlvs(u)) == SubTlvs(u);
      SourceRoundTrip(u.ae, u.source.value);
    }
  }

  lemma BodyParts(u: Update)
    requires UpdateOk(u)
    ensures var body, raw := EncodeUpdate(u).body, u.prefix[..PrefixLen(u.plen)];
      && |body| >= 10 + |raw| && body[0] == u.ae && body[1] == 0x80 && body[2] == u.plen && body[3] == 0
      && U16Of(body[4..6]) == u.interval && U16Of(body[6..8]) == u.seqno && U16Of(body[8..10]) == u.metric
      && body[10..10 + |raw|] == raw && body[10 + |raw|..] == Frames(SubTlvs(u))
  {
    FixedParts(u);
    Sliced(Fixed(u), u.prefix[..PrefixLen(u.plen)], Frames(SubTlvs(u)));
  }

  lemma PrefixIsSpelledOut(ps: Prefixes, u: Update)
    requires PrefixesOk(ps) && UpdateOk(u)
    ensures |EncodeUpdate(u).body| >= 10 && HeaderOk(ps, EncodeUpdate(u).body)
    ensures Expanded(ps, EncodeUpdate(u).body) == u.prefix
  {
    BodyParts(u);
    ClearingMasks(u.prefix, u.plen);
    assert [] + u.prefix[..PrefixLen(u.plen)] == u.prefix[..PrefixLen(u.plen)];
  }

  /** Whatever prefixes the decoder remembers, it reads back the Update that was
      built; one with a zero interval that is not a retraction is to be ignored. */
  lemma UpdateRoundTrip(ps: Prefixes, u: Update)
    requires PrefixesOk(ps) && UpdateOk(u)
    ensures Decoded(ps, EncodeUpdate(u).body) == Ok(u.(ignore := u.interval == 0 && u.metric != BabelOrder.INFINITY))
  {
    PrefixIsSpelledOut(ps, u);
    BodyParts(u);
    SubTlvsRoundTrip(u);
    DecodedParts(ps, EncodeUpdate(u).body, Frames(SubTlvs(u)));
    BuiltParts(u.ae, u.plen, u.interval, u.seqno, u.metric, u.prefix, Frames(SubTlvs(u)));
  }

  // ----- compression -----

  /** The R flag, and only it, names a router-id: the low eight octets of an IPv6 prefix,
      or an IPv4 one after four zeros. */
  lemma RouterIdFromPrefix(ps: Prefixes, body: seq<Byte>)
    requires PrefixesOk(ps) && Decoded(ps, body).Ok?
    ensures var u := Decoded(ps, body).value;
      && (u.routerId.Some? <==> body[0] != AE_WILDCARD && body[1] / 64 % 2 == 1)
      && (u.routerId.Some? && body[0] == AE_IPV6 ==> |u.prefix| == 16 && u.routerId == Some(u.prefix[8..]))
      && (u.routerId.Some? && IsIpv4(body[0]) ==> |u.prefix| == 4 && u.routerId == Some([0, 0, 0, 0] + u.prefix))
  {
    assert Zeros(4) == [0, 0, 0, 0];
  }

  /** An Update that leaves octets out, with them put back. */
  function SpelledOut(ps: Prefixes, body: seq<Byte>): seq<Byte>
    requires PrefixesOk(ps) && |body| >= 10 && HeaderOk(ps, body)
  {
    if body[3] == 0 then body else body[..3] + [0] + body[4..10] + ps[body[0]][..body[3]] + body[10..]
  }

  lemma SpelledOutParts(ps: Prefixes, body: seq<Byte>)
    requires PrefixesOk(ps) && |body| >= 10 && HeaderOk(ps, body) && body[3] > 0
    ensures var b, n, len := SpelledOut(ps, body), body[3] as int, PrefixLen(body[2]);
      && |b| == |body| + n && b[..3] == body[..3] && b[3] == 0 && b[4..10] == body[4..10]
      && b[10..10 + len] == ps[body[0]][..n] + body[10..10 + len - n] && b[10 + len..] == body[10 + len - n..]
  {
    var b, n, len := SpelledOut(ps, body), body[3] as int, PrefixLen(body[2]);
    var last := ps[body[0]][..n];
    assert b[10..] == last + body[10..];
    assert b[10..10 + len] == b[10..][..len];
    assert b[10 + len..] == b[10..][len..];
  }

  lemma SameHeader(ps: Prefixes, body: seq<Byte>)
    requires PrefixesOk(ps) && |body| >= 10 && HeaderOk(ps, body) && body[3] > 0
    ensures var b := SpelledOut(ps, body);
      && |b| >= 10 && b[0] == body[0] && b[1] == body[1] && b[2] == body[2] && b[3] == 0 && HeaderOk(ps, b)
      && b[4..6] == body[4..6] && b[6..8] == body[6..8] && b[8..10] == body[8..10]
  {
    SpelledOutParts(ps, body);
    var b := SpelledOut(ps, body);
    assert b[..3][0] == body[..3][0] && b[..3][1] == body[..3][1] && b[..3][2] == body[..3][2];
    SameFields(b, body);
  }

  lemma SameExpansion(ps: Prefixes, body: seq<Byte>, b: seq<Byte>)
    requires PrefixesOk(ps) && |body| >= 10 && HeaderOk(ps, body) && body[3] > 0
    requires |b| >= 10 && HeaderOk(ps, b) && b[0] == body[0] && b[2] == body[2] && b[3] == 0
    requires b[10..10 + PrefixLen(body[2])]
          == ps[body[0]][..body[3]] + body[10..10 + PrefixLen(body[2]) - body[3] as int]
    ensures Expanded(ps, b) == Expanded(ps, body)
  {
    var raw := b[10..10 + PrefixLen(b[2])];
    assert [] + raw == raw;
  }

  /** Leaving out octets shared with the last prefix of the same encoding changes
      neither what is read nor what is remembered. */
  lemma OmissionIsAbbreviation(ps: Prefixes, body: seq<Byte>)
    requires PrefixesOk(ps) && |body| >= 10 && HeaderOk(ps, body)
    ensures var b := SpelledOut(ps, body);
      |b| >= 10 && HeaderOk(ps, b) && Decoded(ps, b) == Decoded(ps, body) && Remembered(ps, b) == Remembered(ps, body)
  {
    if body[3] == 0 {
    } else {
      SameHeader(ps, body);
      SpelledOutParts(ps, body);
      SameExpansion(ps, body, SpelledOut(ps, body));
    }
  }

  lemma SameFields(a: seq<Byte>, b: seq<Byte>)
    requires |a| >= 10 && |b| >= 10 && a[4..10] == b[4..10]
    ensures a[4..6] == b[4..6] && a[6..8] == b[6..8] && a[8..10] == b[8..10]
  {
    forall i | 4 <= i < 10 ensures a[i] == b[i] {
      assert a[4..10][i - 4] == b[4..10][i - 4];
    }
  }

  /** What a sender may put in place of an Update once it has sent one whose prefix
      starts with the same n octets. */
  function Abbreviated(u: Update, n: Byte): seq<Byte>
    requires UpdateOk(u) && n <= PrefixLen(u.plen)
  {
    var body := EncodeUpdate(u).body;
    body[..3] + [n] + body[4..10] + body[10 + n as int..]
  }

  lemma Spliced(full: seq<Byte>, n: Byte, last: seq<Byte>)
    requires |full| >= 10 + n as int && full[3] == 0 && full[10..10 + n as int] == last
    ensures var short := full[..3] + [n] + full[4..10] + full[10 + n as int..];
      && short[..3] == full[..3] && short[3] == n && short[4..10] == full[4..10] && short[10..] == full[10 + n as int..]
      && short[..3] + [0] + short[4..10] + last + short[10..] == full
  {
    var short := full[..3] + [n] + full[4..10] + full[10 + n as int..];
    assert short[4..10] == full[4..10] && short[10..] == full[10 + n as int..];
    assert full == full[..3] + [full[3]] + full[4..10] + full[10..10 + n as int] + full[10 + n as int..];
  }

  /** Against a memory that holds a prefix starting alike, the abbreviated form spells
      out to the full one. */
  lemma AbbreviationSpellsOut(qs: Prefixes, full: seq<Byte>, n: Byte)
    requires PrefixesOk(qs) && |full| >= 10 && full[3] == 0 && HeaderOk(qs, full) && full[0] != AE_WILDCARD
    requires n <= PrefixLen(full[2]) && full[0] in qs && qs[full[0]][..n] == full[10..10 + n as int]
    ensures var short := full[..3] + [n] + full[4..10] + full[10 + n as int..];
      |short| >= 10 && HeaderOk(qs, short) && SpelledOut(qs, short) == full
  {
    Spliced(full, n, qs[full[0]][..n]);
    var short := full[..3] + [n] + full[4..10] + full[10 + n as int..];
    assert short[0] == full[0] && short[2] == full[2];
    if n == 0 {
      assert short == full;
    }
  }

  lemma EncodedPrefix(v: Update, n: Byte)
    requires UpdateOk(v) && n <= PrefixLen(v.plen)
    ensures var full := EncodeUpdate(v).body;
      && |full| >= 10 + PrefixLen(v.plen) && full[0] == v.ae && full[2] == v.plen && full[3] == 0
      && full[10..10 + n as int] == v.prefix[..n]
  {
    BodyParts(v);
    var full, len := EncodeUpdate(v).body, PrefixLen(v.plen);
    assert full[10..10 + n as int] == full[10..10 + len][..n];
  }

  /** Two Updates in a row, the second abbreviated against the first, are read as the
      two that were meant. */
  lemma AbbreviatedRoundTrip(ps: Prefixes, u: Update, v: Update, n: Byte)
    requires PrefixesOk(ps) && UpdateOk(u) && UpdateOk(v) && v.ae == u.ae
    requires n <= PrefixLen(v.plen) && v.prefix[..n] == u.prefix[..n]
    ensures |EncodeUpdate(u).body| >= 10 && HeaderOk(ps, EncodeUpdate(u).body)
    ensures Decoded(Remembered(ps, EncodeUpdate(u).body), Abbreviated(v, n))
         == Ok(v.(ignore := v.interval == 0 && v.metric != BabelOrder.INFINITY))
  {
    EncodingIsRemembered(ps, u);
    var qs := Remembered(ps, EncodeUpdate(u).body);
    assert qs[v.ae][..n] == u.prefix[..n];
    PrefixIsSpelledOut(qs, v);
    EncodedPrefix(v, n);
    AbbreviationSpellsOut(qs, EncodeUpdate(v).body, n);
    OmissionIsAbbreviation(qs, Abbreviated(v, n));
    UpdateRoundTrip(qs, v);
  }

  lemma EncodingIsRemembered(ps: Prefixes, u: Update)
    requires PrefixesOk(ps) && UpdateOk(u)
    ensures |EncodeUpdate(u).body| >= 10 && HeaderOk(ps, EncodeUpdate(u).body)
    ensures Remembered(ps, EncodeUpdate(u).body) == ps[u.ae := Padded(u.prefix, 16)]
  {
    PrefixIsSpelledOut(ps, u);
    BodyParts(u);
    FlaggedIsRemembered(ps, EncodeUpdate(u).body);
  }

  lemma FlaggedIsRemembered(ps: Prefixes, body: seq<Byte>)
    requires PrefixesOk(ps) && |body| >= 10 && HeaderOk(ps, body) && body[0] != AE_WILDCARD && body[1] == 0x80
    ensures Remembered(ps, body) == ps[body[0] := Padded(Expanded(ps, body), 16)]
  {
  }

  /** The per-packet decoder. */
  class PrefixDecoder {
    var prefixes: Prefixes

    /** The checks in order, the prefix rebuilt from what was left out and what was
        sent, and only then the memory of it. A refused Update changes nothing. */
    method Decode(body: seq<Byte>) returns (r: Result<Update>)
      requires PrefixesOk(prefixes)
      modifies this
      ensures PrefixesOk(prefixes) && r == Decoded(old(prefixes), body)
      ensures prefixes == if r.Ok? then Remembered(old(prefixes), body) else old(prefixes)
    {
      if |body| < 10 {
        return Err;
      }
      var ae, flags, plen, omitted := body[0], body[1], body[2], body[3];
      if ae == AE_WILDCARD {
        if plen != 0 || omitted != 0 {
          return Err;
        }
      } else if IsIpv4(ae) || ae == AE_IPV6 {
        if plen > 8 * Size(ae) || (omitted > 0 && ae !in prefixes) {
          return Err;
        }
      } else {
        return Err;
      }
      var total := PrefixLen(plen);
      if omitted > total || |body| - 10 < total - omitted {
        return Err;
      }
      var ip := Rebuild(body);
      var interval, seqno, metric := U16Of(body[4..6]), U16Of(body[6..8]), U16Of(body[8..10]);
      var id := None;
      if flags / 64 % 2 == 1 && ae != AE_WILDCARD {
        id := Some(DerivedId(ip));
      }
      var ignore := interval == 0 && metric != BabelOrder.INFINITY;
      if ae == AE_WILDCARD && metric != BabelOrder.INFINITY {
        ignore := true;
      }
      var subs := Parse(body[10 + total - omitted..]);
      if subs.Err? {
        return Ok(Update(ae, plen, interval, seqno, metric, ip, id, true, None));
      }
      var voided, source := ScanAll(ae, subs.value);
      return Ok(Update(ae, plen, interval, seqno, metric, ip, id, ignore || voided, source));
    }

    /** The prefix in full, remembered if the sender asks for it. */
    method Rebuild(body: seq<Byte>) returns (ip: seq<Byte>)
      requires PrefixesOk(prefixes) && |body| >= 10 && HeaderOk(prefixes, body)
      modifies this
      ensures PrefixesOk(prefixes) && ip == Expanded(old(prefixes), body) && prefixes == Remembered(old(prefixes), body)
    {
      var ae, plen, omitted := body[0], body[2], body[3];
      if ae == AE_WILDCARD {
        return Zeros(10) + [0xff, 0xff] + Zeros(4);
      }
      var sent := body[10..10 + PrefixLen(plen) - omitted];
      ip := Padded((if omitted > 0 then prefixes[ae][..omitted] else []) + sent, Size(ae));
      ip := TailCleared(ip, plen);
      if body[1] / 128 % 2 == 1 {
        prefixes := prefixes[ae := Padded(ip, 16)];
      }
    }
  }

  method ScanAll(ae: Byte, subs: seq<Tlv>) returns (ignore: bool, source: Option<Source>)
    ensures Scanned(ignore, source) == Scan(ae, subs, false)
  {
    ignore, source := false, None;
    var seen := false;
    for i := 0 to |subs|
      invariant Scan(ae, subs, false).ignore <==> ignore || Scan(ae, subs[i..], seen).ignore
      invariant Scan(ae, subs, false).source == if seen then source else Scan(ae, subs[i..], false).source
      invariant !seen ==> source == None
    {
      var s := subs[i];
      assert subs[i..][1..] == subs[i + 1..];
      if s.kind < 128 {
        continue;
      }
      if s.kind != SOURCE_PREFIX || seen {
        ignore := true;
        continue;
      }
      seen := true;
      source := DecodeSource(ae, s.body);
      if source == None {
        ignore := true;
      }
    }
    assert subs[|subs|..] == [];
  }
}
