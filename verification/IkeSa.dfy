/** The SA payload: proposals made of transforms (section 3.3 of RFC 7296). */
module IkeSa {
  import opened Bytes
  import opened Wrappers

  const KEY_LENGTH := 14

  /** keyLength 0 means no such attribute; unsupported marks a decoded transform
      with an attribute this implementation does not know. */
  datatype Transform = Transform(kind: Byte, id: int, keyLength: int, unsupported: bool)

  datatype Proposal = Proposal(number: Byte, protocol: Byte, spi: seq<Byte>, transforms: seq<Transform>)

  predicate TransformOk(t: Transform) {
    0 <= t.id <= 0xffff && 0 <= t.keyLength <= 0xffff && !t.unsupported
  }

  predicate TransformsOk(ts: seq<Transform>) {
    forall i | 0 <= i < |ts| :: TransformOk(ts[i])
  }

  // ----- encoding -----

  function Attributes(t: Transform): (b: seq<Byte>)
    requires TransformOk(t)
    ensures |b| <= 4
  {
    if t.keyLength == 0 then [] else U16Bytes(0x8000 + KEY_LENGTH) + U16Bytes(t.keyLength)
  }

  function EncodeTransform(t: Transform, last: bool): (b: seq<Byte>)
    requires TransformOk(t)
    ensures |b| == 8 + |Attributes(t)|
  {
    [if last then 0 else 3, 0, 0, 8 + |Attributes(t)|, t.kind, 0, t.id / 256, t.id % 256] + Attributes(t)
  }

  function EncodeTransforms(ts: seq<Transform>): seq<Byte>
    requires TransformsOk(ts)
  {
    if ts == [] then [] else EncodeTransform(ts[0], |ts| == 1) + EncodeTransforms(ts[1..])
  }

  /** A proposal within its length and count fields. */
  predicate ProposalOk(p: Proposal) {
    && |p.spi| <= 0xff && |p.transforms| <= 0xff && TransformsOk(p.transforms)
    && 8 + |p.spi| + |EncodeTransforms(p.transforms)| <= 0xffff
  }

  function EncodeProposal(p: Proposal, last: bool): (b: seq<Byte>)
    requires ProposalOk(p)
    ensures |b| >= 8
  {
    var body := EncodeTransforms(p.transforms);
    var length := 8 + |p.spi| + |body|;
    [if last then 0 else 2, 0, length / 256, length % 256, p.number, p.protocol, |p.spi|, |p.transforms|] + p.spi + body
  }

  predicate SaOk(ps: seq<Proposal>) {
    forall i | 0 <= i < |ps| :: ProposalOk(ps[i])
  }

  function EncodeSa(ps: seq<Proposal>): seq<Byte>
    requires SaOk(ps)
  {
    if ps == [] then [] else EncodeProposal(ps[0], |ps| == 1) + EncodeSa(ps[1..])
  }

  // ----- decoding -----

  /** A decoded element, whether it says another follows, and what is left. */
  datatype Decoded<T> = Decoded(value: T, more: bool, rest: seq<Byte>)

  /** Folds the attributes into a transform: one Key Length that is not zero is
      understood, everything else marks the transform. */
  function WithAttributes(t: Transform, attrs: seq<Byte>, have: bool): Result<Transform>
    decreases |attrs|
  {
    if attrs == [] then Ok(t)
    else if |attrs| < 4 then Err
    else
      var at, value := U16Of(attrs[..2]), U16Of(attrs[2..4]);
      if at >= 0x8000 then
        if at != 0x8000 + KEY_LENGTH || have then WithAttributes(t.(unsupported := true), attrs[4..], have)
        else WithAttributes(t.(keyLength := value, unsupported := t.unsupported || value == 0), attrs[4..], true)
      else if 4 + value > |attrs| then Err
      else WithAttributes(t.(unsupported := true), attrs[4 + value..], have)
  }

  function DecodeTransform(b: seq<Byte>): (r: Result<Decoded<Transform>>)
    ensures r.Ok? ==> |r.value.rest| + 8 <= |b|
  {
    if |b| < 8 || (b[0] != 0 && b[0] != 3) then Err
    else
      var length := U16Of(b[2..4]);
      if length < 8 || length > |b| then Err
      else
        var t := WithAttributes(Transform(b[4], U16Of(b[6..8]), 0, false), b[8..length], false);
        if t.Err? then Err else Ok(Decoded(t.value, b[0] == 3, b[length..]))
  }

  /** Exactly n transforms, the last of which says so, filling b. */
  function DecodeTransforms(b: seq<Byte>, n: nat): Result<seq<Transform>> {
    if n == 0 then (if b == [] then Ok([]) else Err)
    else
      var t := DecodeTransform(b);
      if t.Err? || t.value.more != (n > 1) then Err
      else
        var rest := DecodeTransforms(t.value.rest, n - 1);
        if rest.Err? then Err else Ok([t.value.value] + rest.value)
  }

  function DecodeProposal(b: seq<Byte>): (r: Result<Decoded<Proposal>>)
    ensures r.Ok? ==> |r.value.rest| + 8 <= |b|
  {
    if |b| < 8 || (b[0] != 0 && b[0] != 2) then Err
    else
      var length, spiSize := U16Of(b[2..4]), b[6] as int;
      if length < 8 || length > |b| || length - 8 < spiSize then Err
      else
        var ts := DecodeTransforms(b[8 + spiSize..length], b[7]);
        if ts.Err? then Err
        else Ok(Decoded(Proposal(b[4], b[5], b[8..8 + spiSize], ts.value), b[0] == 2, b[length..]))
  }

  function DecodeSa(body: seq<Byte>): Result<seq<Proposal>>
    decreases |body|
  {
    if body == [] then Ok([])
    else
      var p := DecodeProposal(body);
      if p.Err? || p.value.more != (p.value.rest != []) then Err
      else
        var rest := DecodeSa(p.value.rest);
        if rest.Err? then Err else Ok([p.value.value] + rest.value)
  }

  // ----- the round trip -----

  lemma AttributesRoundTrip(t: Transform)
    requires TransformOk(t)
    ensures WithAttributes(Transform(t.kind, t.id, 0, false), Attributes(t), false) == Ok(t)
  {
    if t.keyLength != 0 {
      var a := Attributes(t);
      assert a[..2] == U16Bytes(0x8000 + KEY_LENGTH) && a[2..4] == U16Bytes(t.keyLength) && a[4..] == [];
      U16RoundTrip(0x8000 + KEY_LENGTH);
      U16RoundTrip(t.keyLength);
    }
  }

  lemma TransformRoundTrip(t: Transform, last: bool, rest: seq<Byte>)
    requires TransformOk(t)
    ensures DecodeTransform(EncodeTransform(t, last) + rest) == Ok(Decoded(t, !last, rest))
  {
    var length := 8 + |Attributes(t)|;
    var b := EncodeTransform(t, last) + rest;
    assert b[8..length] == Attributes(t) && b[length..] == rest;
    AttributesRoundTrip(t);
  }

  lemma TransformsStep(b: seq<Byte>, n: nat, t: Transform, rest: seq<Byte>, ts: seq<Transform>)
    requires n > 0 && DecodeTransform(b) == Ok(Decoded(t, n > 1, rest)) && DecodeTransforms(rest, n - 1) == Ok(ts)
    ensures DecodeTransforms(b, n) == Ok([t] + ts)
  {}

  lemma OneMoreTransform(t: Transform, rest: seq<Byte>, n: nat, ts: seq<Transform>)
    requires TransformOk(t) && DecodeTransforms(rest, n) == Ok(ts)
    ensures DecodeTransforms(EncodeTransform(t, n == 0) + rest, n + 1) == Ok([t] + ts)
  {
    TransformRoundTrip(t, n == 0, rest);
    TransformsStep(EncodeTransform(t, n == 0) + rest, n + 1, t, rest, ts);
  }

  /** Reading back b, made of the first transform and the rest. */
  lemma LongerRoundTrip(ts: seq<Transform>, b: seq<Byte>, rest: seq<Byte>)
    requires ts != [] && TransformsOk(ts) && b == EncodeTransform(ts[0], |ts| == 1) + rest
    requires DecodeTransforms(rest, |ts| - 1) == Ok(ts[1..])
    ensures DecodeTransforms(b, |ts|) == Ok(ts)
  {
    OneMoreTransform(ts[0], rest, |ts| - 1, ts[1..]);
    assert [ts[0]] + ts[1..] == ts;
  }

  lemma {:induction false} TransformsRoundTrip(ts: seq<Transform>)
    requires TransformsOk(ts)
    ensures DecodeTransforms(EncodeTransforms(ts), |ts|) == Ok(ts)
  {
    if ts == [] {
    } else {
      TransformsRoundTrip(ts[1..]);
      LongerRoundTrip(ts, EncodeTransforms(ts), EncodeTransforms(ts[1..]));
    }
  }

  lemma ProposalParts(p: Proposal, last: bool, rest: seq<Byte>)
    requires ProposalOk(p)
    ensures var body := EncodeTransforms(p.transforms);
      var length, b := 8 + |p.spi| + |body|, EncodeProposal(p, last) + rest;
      && |b| >= length && b[0] == (if last then 0 else 2) && U16Of(b[2..4]) == length
      && b[4] == p.number && b[5] == p.protocol && b[6] == |p.spi| && b[7] == |p.transforms|
      && b[8..8 + |p.spi|] == p.spi && b[8 + |p.spi|..length] == body && b[length..] == rest
  {
    var body := EncodeTransforms(p.transforms);
    var length, b := 8 + |p.spi| + |body|, EncodeProposal(p, last) + rest;
    assert U16Of(b[2..4]) == length;
  }

  lemma ProposalRoundTrip(p: Proposal, last: bool, rest: seq<Byte>)
    requires ProposalOk(p)
    ensures DecodeProposal(EncodeProposal(p, last) + rest) == Ok(Decoded(p, !last, rest))
  {
    ProposalParts(p, last, rest);
    TransformsRoundTrip(p.transforms);
  }

  lemma SaStep(body: seq<Byte>, p: Proposal, ps: seq<Proposal>, rest: seq<Byte>)
    requires DecodeProposal(body) == Ok(Decoded(p, rest != [], rest)) && DecodeSa(rest) == Ok(ps)
    ensures DecodeSa(body) == Ok([p] + ps)
  {}

  lemma SaIsNotEmpty(ps: seq<Proposal>)
    requires SaOk(ps)
    ensures EncodeSa(ps) == [] <==> ps == []
  {}

  lemma OneMoreProposal(p: Proposal, rest: seq<Byte>, ps: seq<Proposal>)
    requires ProposalOk(p) && DecodeSa(rest) == Ok(ps)
    ensures DecodeSa(EncodeProposal(p, rest == []) + rest) == Ok([p] + ps)
  {
    ProposalRoundTrip(p, rest == [], rest);
    SaStep(EncodeProposal(p, rest == []) + rest, p, ps, rest);
  }

  lemma LongerSa(ps: seq<Proposal>, body: seq<Byte>, rest: seq<Byte>)
    requires ps != [] && SaOk(ps) && (rest == [] <==> |ps| == 1) && body == EncodeProposal(ps[0], |ps| == 1) + rest
    requires DecodeSa(rest) == Ok(ps[1..])
    ensures DecodeSa(body) == Ok(ps)
  {
    OneMoreProposal(ps[0], rest, ps[1..]);
    assert [ps[0]] + ps[1..] == ps;
  }

  lemma {:induction false} SaRoundTrip(ps: seq<Proposal>)
    requires SaOk(ps)
    ensures DecodeSa(EncodeSa(ps)) == Ok(ps)
  {
    if ps == [] {
    } else {
      SaRoundTrip(ps[1..]);
      SaIsNotEmpty(ps[1..]);
      LongerSa(ps, EncodeSa(ps), EncodeSa(ps[1..]));
    }
  }

  // ----- whole bodies only -----

  lemma LongerProposal(b: seq<Byte>, extra: seq<Byte>)
    requires DecodeProposal(b).Ok?
    ensures var d := DecodeProposal(b).value;
      DecodeProposal(b + extra) == Ok(Decoded(d.value, d.more, d.rest + extra))
  {
    var c, length, spiSize := b + extra, U16Of(b[2..4]), b[6] as int;
    assert c[2..4] == b[2..4] && c[8..8 + spiSize] == b[8..8 + spiSize];
    assert c[8 + spiSize..length] == b[8 + spiSize..length] && c[length..] == b[length..] + extra;
  }

  /** A body is accepted only whole: with anything after it, it is not. */
  lemma {:induction false} SaIsConsumed(body: seq<Byte>, extra: seq<Byte>)
    requires body != [] && DecodeSa(body).Ok? && extra != []
    ensures DecodeSa(body + extra).Err?
    decreases |body|
  {
    var d := DecodeProposal(body).value;
    LongerProposal(body, extra);
    if !d.more {
    } else {
      SaIsConsumed(d.rest, extra);
    }
    SaFails(body + extra, d.value, d.more, d.rest + extra);
  }

  lemma SaFails(body: seq<Byte>, p: Proposal, more: bool, rest: seq<Byte>)
    requires DecodeProposal(body) == Ok(Decoded(p, more, rest)) && rest != [] && (more ==> DecodeSa(rest).Err?)
    ensures DecodeSa(body).Err?
  {}

  // ----- the loops -----

  method EncodeSaPayload(ps: seq<Proposal>) returns (out: seq<Byte>)
    requires SaOk(ps)
    ensures out == EncodeSa(ps)
  {
    out := [];
    for i := 0 to |ps|
      invariant out + EncodeSa(ps[i..]) == EncodeSa(ps)
    {
      assert ps[i..][1..] == ps[i + 1..] && ps[i..][0] == ps[i] && |ps[i..]| == |ps| - i;
      var one := EncodeProposal(ps[i], i == |ps| - 1);
      assert out + (one + EncodeSa(ps[i + 1..])) == (out + one) + EncodeSa(ps[i + 1..]);
      out := out + one;
    }
  }

  method DecodeSaPayload(body: seq<Byte>) returns (r: Result<seq<Proposal>>)
    ensures r == DecodeSa(body)
  {
    var props: seq<Proposal> := [];
    var rest: seq<Byte> := body;
    assert DecodeSa(body).Ok? ==> props + DecodeSa(body).value == DecodeSa(body).value;
    while rest != []
      invariant DecodeSa(body) == if DecodeSa(rest).Ok? then Ok(props + DecodeSa(rest).value) else Err
      decreases |rest|
    {
      var p := DecodeProposal(rest);
      if p.Err? {
        return Err;
      }
      var d := p.value;
      if !d.more && d.rest != [] {
        return Err;
      }
      if d.more && d.rest == [] {
        return Err;
      }
      assert forall more :: props + ([d.value] + more) == (props + [d.value]) + more;
      props := props + [d.value];
      rest := d.rest;
    }
    assert props + [] == props;
    return Ok(props);
  }

  method DecodeAttributes(t: Transform, attrs: seq<Byte>) returns (r: Result<Transform>)
    ensures r == WithAttributes(t, attrs, false)
  {
    var u, rest: seq<Byte>, have := t, attrs, false;
    while rest != []
      invariant WithAttributes(t, attrs, false) == WithAttributes(u, rest, have)
      decreases |rest|
    {
      if |rest| < 4 {
        return Err;
      }
      var at, value := U16Of(rest[..2]), U16Of(rest[2..4]);
      if at >= 0x8000 {
        if at != 0x8000 + KEY_LENGTH || have {
          u := u.(unsupported := true);
        } else {
          u := u.(keyLength := value, unsupported := u.unsupported || value == 0);
          have := true;
        }
        rest := rest[4..];
      } else {
        if 4 + value > |rest| {
          return Err;
        }
        u := u.(unsupported := true);
        rest := rest[4 + value..];
      }
    }
    return Ok(u);
  }

  method DecodeTransformList(b: seq<Byte>, n: nat) returns (r: Result<seq<Transform>>)
    ensures r == DecodeTransforms(b, n)
  {
    var ts: seq<Transform> := [];
    var rest: seq<Byte> := b;
    assert DecodeTransforms(b, n).Ok? ==> ts + DecodeTransforms(b, n).value == DecodeTransforms(b, n).value;
    for i := 0 to n
      invariant DecodeTransforms(b, n)
             == if DecodeTransforms(rest, n - i).Ok? then Ok(ts + DecodeTransforms(rest, n - i).value) else Err
    {
      var t := DecodeTransform(rest);
      if t.Err? || (i < n - 1 && !t.value.more) || (i == n - 1 && t.value.more) {
        return Err;
      }
      assert forall more :: ts + ([t.value.value] + more) == (ts + [t.value.value]) + more;
      ts := ts + [t.value.value];
      rest := t.value.rest;
    }
    if rest != [] {
      return Err;
    }
    assert ts + [] == ts;
    return Ok(ts);
  }

  /** Reserved octets are sent as zero. */
  lemma ReservedAreZero(t: Transform, p: Proposal, last: bool)
    requires TransformOk(t) && ProposalOk(p)
    ensures EncodeTransform(t, last)[1] == EncodeTransform(t, last)[5] == EncodeProposal(p, last)[1] == 0
  {}
}
