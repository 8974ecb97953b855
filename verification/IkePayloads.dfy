/** The payload chain of an IKEv2 message (section 3.2 of RFC 7296). */
module IkePayloads {
  import opened Bytes
  import opened Wrappers

  const HEADER_LEN := 4
  const NONE: Byte := 0
  const SK: Byte := 46

  datatype RawPayload = RawPayload(kind: Byte, critical: bool, body: seq<Byte>)

  /** A payload the sender may chain: of a kind, and within its length field. */
  predicate PayloadOk(p: RawPayload) {
    p.kind != NONE && HEADER_LEN + |p.body| <= 0xffff
  }

  predicate ChainOk(ps: seq<RawPayload>) {
    forall i | 0 <= i < |ps| :: PayloadOk(ps[i])
  }

  function First(ps: seq<RawPayload>): Byte {
    if ps == [] then NONE else ps[0].kind
  }

  // ----- encoding -----

  function Framed(p: RawPayload, next: Byte): (b: seq<Byte>)
    requires PayloadOk(p)
    ensures |b| == HEADER_LEN + |p.body|
  {
    [next, if p.critical then 0x80 else 0] + U16Bytes(HEADER_LEN + |p.body|) + p.body
  }

  function Chain(ps: seq<RawPayload>): seq<Byte>
    requires ChainOk(ps)
  {
    if ps == [] then [] else Framed(ps[0], First(ps[1..])) + Chain(ps[1..])
  }

  method EncodeChain(ps: seq<RawPayload>) returns (body: seq<Byte>)
    requires ChainOk(ps)
    ensures body == Chain(ps)
  {
    body := [];
    for i := 0 to |ps|
      invariant body + Chain(ps[i..]) == Chain(ps)
    {
      var next := if i + 1 < |ps| then ps[i + 1].kind else NONE;
      assert ps[i..][1..] == ps[i + 1..] && First(ps[i + 1..]) == next;
      var framed := Framed(ps[i], next);
      assert body + (framed + Chain(ps[i + 1..])) == (body + framed) + Chain(ps[i + 1..]);
      body := body + framed;
    }
  }

  // ----- decoding -----

  /** Whether b starts with a payload whose declared length is within it. */
  predicate Starts(b: seq<Byte>) {
    |b| >= HEADER_LEN && HEADER_LEN <= U16Of(b[2..4]) <= |b|
  }

  function Length(b: seq<Byte>): nat
    requires Starts(b)
  {
    U16Of(b[2..4])
  }

  function Head(kind: Byte, b: seq<Byte>): RawPayload
    requires Starts(b)
  {
    RawPayload(kind, b[1] / 128 == 1, b[HEADER_LEN..Length(b)])
  }

  function Parsed(first: Byte, b: seq<Byte>): Result<seq<RawPayload>>
    decreases |b|
  {
    if first == NONE then (if b == [] then Ok([]) else Err)
    else if !Starts(b) then Err
    else
      var rest := Parsed(b[0], b[Length(b)..]);
      if rest.Err? then Err else Ok([Head(first, b)] + rest.value)
  }

  method DecodeChain(first: Byte, b: seq<Byte>) returns (r: Result<seq<RawPayload>>)
    ensures r == Parsed(first, b)
  {
    var out: seq<RawPayload> := [];
    var next: Byte, rest: seq<Byte> := first, b;
    assert Parsed(first, b).Ok? ==> out + Parsed(first, b).value == Parsed(first, b).value;
    while next != NONE
      invariant Parsed(first, b) == if Parsed(next, rest).Ok? then Ok(out + Parsed(next, rest).value) else Err
      decreases |rest|
    {
      if |rest| < HEADER_LEN {
        return Err;
      }
      var length := U16Of(rest[2..4]);
      if length < HEADER_LEN || length > |rest| {
        return Err;
      }
      var p := RawPayload(next, rest[1] / 128 == 1, rest[HEADER_LEN..length]);
      assert forall more :: out + ([p] + more) == (out + [p]) + more;
      out := out + [p];
      next, rest := rest[0], rest[length..];
    }
    if rest != [] {
      return Err;
    }
    assert out + [] == out;
    return Ok(out);
  }

  // ----- the round trip -----

  lemma FramedParts(p: RawPayload, next: Byte, rest: seq<Byte>)
    requires PayloadOk(p)
    ensures var b := Framed(p, next) + rest;
      && Starts(b) && Length(b) == HEADER_LEN + |p.body| && b[0] == next
      && Head(p.kind, b) == p && b[Length(b)..] == rest
  {
    var b := Framed(p, next) + rest;
    assert b[2..4] == U16Bytes(HEADER_LEN + |p.body|);
    U16RoundTrip(HEADER_LEN + |p.body|);
    assert b[HEADER_LEN..HEADER_LEN + |p.body|] == p.body;
  }

  lemma {:induction false} ChainRoundTrip(ps: seq<RawPayload>)
    requires ChainOk(ps)
    ensures Parsed(First(ps), Chain(ps)) == Ok(ps)
  {
    if ps == [] {
    } else {
      ChainRoundTrip(ps[1..]);
      FramedParts(ps[0], First(ps[1..]), Chain(ps[1..]));
      assert [ps[0]] + ps[1..] == ps;
    }
  }

  lemma LongerStarts(b: seq<Byte>, extra: seq<Byte>)
    requires Starts(b)
    ensures Starts(b + extra) && Length(b + extra) == Length(b) && (b + extra)[0] == b[0]
    ensures (b + extra)[Length(b)..] == b[Length(b)..] + extra
  {
    assert (b + extra)[2..4] == b[2..4];
  }

  /** A chain is accepted only whole: with anything after it, it is not. */
  lemma {:induction false} ChainIsConsumed(first: Byte, b: seq<Byte>, extra: seq<Byte>)
    requires Parsed(first, b).Ok? && extra != []
    ensures Parsed(first, b + extra).Err?
    decreases |b|
  {
    if first == NONE {
    } else {
      LongerStarts(b, extra);
      ChainIsConsumed(b[0], b[Length(b)..], extra);
    }
  }

  // ----- the outer chain -----

  /** In a message the encrypted payload ends the chain, whatever it points to. */
  function ParsedOuter(first: Byte, b: seq<Byte>): Result<seq<RawPayload>>
    decreases |b|
  {
    if first == NONE then (if b == [] then Ok([]) else Err)
    else if !Starts(b) then Err
    else if first == SK then (if Length(b) == |b| then Ok([Head(first, b)]) else Err)
    else
      var rest := ParsedOuter(b[0], b[Length(b)..]);
      if rest.Err? then Err else Ok([Head(first, b)] + rest.value)
  }

  predicate SkIsLast(ps: seq<RawPayload>) {
    forall i | 0 <= i < |ps| - 1 :: ps[i].kind != SK
  }

  /** The chain reads back exactly when nothing follows an encrypted payload; else it
      is refused. */
  lemma {:induction false} OuterRoundTrip(ps: seq<RawPayload>)
    requires ChainOk(ps)
    ensures ParsedOuter(First(ps), Chain(ps)) == if SkIsLast(ps) then Ok(ps) else Err
  {
    if ps == [] {
    } else {
      FramedParts(ps[0], First(ps[1..]), Chain(ps[1..]));
      if ps[0].kind == SK {
        if |ps| == 1 {
          assert ps == [ps[0]];
        } else {
          assert |Chain(ps[1..])| > 0 && ps[0].kind == SK;
        }
      } else {
        OuterRoundTrip(ps[1..]);
        assert [ps[0]] + ps[1..] == ps;
        SkLater(ps);
      }
    }
  }

  lemma SkLater(ps: seq<RawPayload>)
    requires ps != [] && ps[0].kind != SK
    ensures SkIsLast(ps) <==> SkIsLast(ps[1..])
  {
    var rest := ps[1..];
    assert forall i | 0 <= i < |rest| :: rest[i] == ps[i + 1];
    if SkIsLast(rest) {
      forall i | 0 <= i < |ps| - 1 ensures ps[i].kind != SK {
        assert i > 0 ==> ps[i] == rest[i - 1];
      }
    }
  }

  // ----- messages, section 3.1 -----

  const MESSAGE_HEADER_LEN := 28

  /** The SPIs are kept as the octets they are sent as. */
  datatype Header = Header(
    initiator: seq<Byte>, responder: seq<Byte>, next: Byte, major: Byte, minor: Byte, exchange: Byte, flags: Byte,
    id: int, length: int)

  /** A message, and where its encrypted payload starts, if it ends in one. */
  datatype Message = Message(header: Header, payloads: seq<RawPayload>, skAt: int)

  predicate HeaderOk(h: Header) {
    |h.initiator| == |h.responder| == 8 && 0 <= h.id < 0x1_0000_0000
  }

  /** What is sent of a header: the first kind, the version and the length are filled in. */
  function HeaderBytes(h: Header, first: Byte, length: int): (b: seq<Byte>)
    requires HeaderOk(h) && 0 <= length < 0x1_0000_0000
    ensures |b| == MESSAGE_HEADER_LEN
  {
    h.initiator + h.responder + [first, 0x20, h.exchange, h.flags] + U32Bytes(h.id) + U32Bytes(length)
  }

  function Sent(h: Header, ps: seq<RawPayload>): seq<Byte>
    requires HeaderOk(h) && ChainOk(ps) && MESSAGE_HEADER_LEN + |Chain(ps)| < 0x1_0000_0000
  {
    HeaderBytes(h, First(ps), MESSAGE_HEADER_LEN + |Chain(ps)|) + Chain(ps)
  }

  function ReadHeader(b: seq<Byte>): Header
    requires |b| >= MESSAGE_HEADER_LEN
  {
    Header(b[..8], b[8..16], b[16], b[17] / 16, b[17] % 16, b[18], b[19], U32Of(b[20..24]), U32Of(b[24..28]))
  }

  /** Where the encrypted payload starts in a message of n octets: it is the last. */
  function SkAt(ps: seq<RawPayload>, n: nat): int {
    if ps != [] && ps[|ps| - 1].kind == SK then n - HEADER_LEN - |ps[|ps| - 1].body| else 0
  }

  function ParsedMessage(b: seq<Byte>): Result<Message> {
    if |b| < MESSAGE_HEADER_LEN then Err
    else
      var h := ReadHeader(b);
      if h.length != |b| then Err
      else
        var ps := ParsedOuter(h.next, b[MESSAGE_HEADER_LEN..]);
        if ps.Err? then Err else Ok(Message(h, ps.value, SkAt(ps.value, |b|)))
  }

  /** An encrypted payload lies within what was read. */
  lemma {:induction false} SkLies(first: Byte, b: seq<Byte>)
    requires ParsedOuter(first, b).Ok?
    ensures var ps := ParsedOuter(first, b).value;
      ps != [] && ps[|ps| - 1].kind == SK ==> HEADER_LEN + |ps[|ps| - 1].body| <= |b|
    decreases |b|
  {
    if first == NONE {
    } else if first != SK {
      SkLies(b[0], b[Length(b)..]);
    }
  }

  /** The header's tests, then the chain: the length it declares is exactly what came. */
  method DecodeMessage(b: seq<Byte>) returns (r: Result<Message>)
    ensures r == ParsedMessage(b)
  {
    if |b| < MESSAGE_HEADER_LEN {
      return Err;
    }
    var h := ReadHeader(b);
    if h.length < MESSAGE_HEADER_LEN || h.length != |b| {
      return Err;
    }
    var ps, skAt := DecodeOuter(h.next, b[MESSAGE_HEADER_LEN..], |b|);
    if ps.Err? {
      return Err;
    }
    return Ok(Message(h, ps.value, skAt));
  }

  method DecodeOuter(first: Byte, b: seq<Byte>, length: nat) returns (r: Result<seq<RawPayload>>, skAt: int)
    requires |b| <= length
    ensures r == ParsedOuter(first, b) && (r.Ok? ==> skAt == SkAt(r.value, length))
  {
    var out: seq<RawPayload> := [];
    var next: Byte, rest: seq<Byte> := first, b;
    skAt := 0;
    assert ParsedOuter(first, b).Ok? ==> out + ParsedOuter(first, b).value == ParsedOuter(first, b).value;
    while next != NONE
      invariant ParsedOuter(first, b)
             == if ParsedOuter(next, rest).Ok? then Ok(out + ParsedOuter(next, rest).value) else Err
      invariant |rest| <= length && skAt == 0 && (out != [] ==> out[|out| - 1].kind != SK)
      decreases |rest|
    {
      if |rest| < HEADER_LEN {
        return Err, 0;
      }
      var size := U16Of(rest[2..4]);
      if size < HEADER_LEN || size > |rest| {
        return Err, 0;
      }
      var p := RawPayload(next, rest[1] / 128 == 1, rest[HEADER_LEN..size]);
      assert forall more :: out + ([p] + more) == (out + [p]) + more;
      out := out + [p];
      if p.kind == SK {
        skAt := length - |rest|;
        if size != |rest| {
          return Err, 0;
        }
        assert out[..|out| - 1] + [p] == out;
        return Ok(out), skAt;
      }
      next, rest := rest[0], rest[size..];
    }
    if rest != [] {
      return Err, 0;
    }
    assert out + [] == out;
    return Ok(out), 0;
  }

  lemma HeaderRoundTrip(h: Header, first: Byte, length: int, rest: seq<Byte>)
    requires HeaderOk(h) && 0 <= length < 0x1_0000_0000
    ensures var b := HeaderBytes(h, first, length) + rest;
      && ReadHeader(b) == h.(next := first, major := 2, minor := 0, length := length)
      && b[MESSAGE_HEADER_LEN..] == rest
  {
    var b := HeaderBytes(h, first, length) + rest;
    assert b[..8] == h.initiator && b[8..16] == h.responder;
    assert b[20..24] == U32Bytes(h.id) && b[24..28] == U32Bytes(length);
    U32RoundTrip(h.id);
    U32RoundTrip(length);
  }

  /** A message reads back as it was built, its encrypted payload found where it
      starts, exactly when nothing follows that payload. */
  lemma MessageRoundTrip(h: Header, ps: seq<RawPayload>)
    requires HeaderOk(h) && ChainOk(ps) && MESSAGE_HEADER_LEN + |Chain(ps)| < 0x1_0000_0000
    ensures var n := MESSAGE_HEADER_LEN + |Chain(ps)|;
      ParsedMessage(Sent(h, ps)) == if SkIsLast(ps)
        then Ok(Message(h.(next := First(ps), major := 2, minor := 0, length := n), ps, SkAt(ps, n))) else Err
    ensures SkIsLast(ps) && ps != [] && ps[|ps| - 1].kind == SK ==>
      MESSAGE_HEADER_LEN <= SkAt(ps, MESSAGE_HEADER_LEN + |Chain(ps)|)
  {
    HeaderRoundTrip(h, First(ps), MESSAGE_HEADER_LEN + |Chain(ps)|, Chain(ps));
    OuterRoundTrip(ps);
    if SkIsLast(ps) {
      SkLies(First(ps), Chain(ps));
    }
  }

  /** One octet more or less than the header declares, and the message is refused. */
  lemma MessageIsConsumed(b: seq<Byte>, c: seq<Byte>)
    requires ParsedMessage(b).Ok? && |c| >= MESSAGE_HEADER_LEN && c[24..28] == b[24..28] && |c| != |b|
    ensures ParsedMessage(c).Err?
  {
  }

  // ----- what was read, written again -----

  /** Every payload of a chain has its reserved bits clear. */
  predicate ReservedClear(first: Byte, b: seq<Byte>)
    decreases |b|
  {
    first == NONE || !Starts(b) || (b[1] % 128 == 0 && ReservedClear(b[0], b[Length(b)..]))
  }

  lemma HeadFramed(kind: Byte, b: seq<Byte>)
    requires Starts(b) && kind != NONE
    ensures PayloadOk(Head(kind, b)) && |Framed(Head(kind, b), b[0])| == Length(b)
    ensures Framed(Head(kind, b), b[0]) == b[..Length(b)] <==> b[1] % 128 == 0
  {
    var n := Length(b);
    var f := Framed(Head(kind, b), b[0]);
    assert U16Bytes(n) == b[2..4];
    assert b[..n] == [b[0], b[1]] + b[2..4] + b[HEADER_LEN..n];
    assert f == [b[0], f[1]] + b[2..4] + b[HEADER_LEN..n];
    assert f[1] == b[1] <==> b[1] % 128 == 0;
    if f == b[..n] {
      assert f[1] == b[..n][1];
    }
  }

  /** A chain that is read and written again has its length, and is the same bytes
      exactly when no reserved bit was set. */
  lemma {:induction false} ChainWrittenAgain(first: Byte, b: seq<Byte>)
    requires Parsed(first, b).Ok?
    ensures var ps := Parsed(first, b).value;
      && ChainOk(ps) && First(ps) == first && |Chain(ps)| == |b|
      && (Chain(ps) == b <==> ReservedClear(first, b))
    decreases |b|
  {
    if first == NONE {
    } else {
      var n := Length(b);
      var rest := Parsed(b[0], b[n..]).value;
      ChainWrittenAgain(b[0], b[n..]);
      HeadFramed(first, b);
      var ps := Parsed(first, b).value;
      assert ps[1..] == rest;
      var f := Framed(Head(first, b), b[0]);
      assert Chain(ps) == f + Chain(rest);
      assert b == b[..n] + b[n..];
      if Chain(ps) == b {
        assert f == Chain(ps)[..n] && Chain(rest) == Chain(ps)[n..];
      }
    }
  }
}
