/** Babel packets as sequences of type-length-value frames (sections 4.2 to 4.4
    of RFC 8966). */
module BabelTlv {
  import opened Bytes
  import opened Wrappers

  const MAGIC: Byte := 42
  const VERSION: Byte := 2
  const HEADER_LEN := 4
  const PAD1: Byte := 0
  const PADN: Byte := 1
  const ROUTER_ID: Byte := 6
  const UPDATE: Byte := 8

  datatype Tlv = Tlv(kind: Byte, body: seq<Byte>)

  /** What the sender builds: padding aside, every body fits its length field. */
  predicate Encodable(t: Tlv) {
    |t.body| < 256
  }

  // ----- encoding -----

  function Frame(t: Tlv): seq<Byte>
    requires Encodable(t)
  {
    if t.kind == PAD1 then [PAD1] else [t.kind, |t.body|] + t.body
  }

  function Frames(ts: seq<Tlv>): seq<Byte>
    requires forall t | t in ts :: Encodable(t)
  {
    if ts == [] then [] else Frame(ts[0]) + Frames(ts[1..])
  }

  function Packet(body: seq<Byte>): seq<Byte>
    requires |body| < 0x1_0000
  {
    [MAGIC, VERSION] + U16Bytes(|body|) + body
  }

  /** Appends each frame in turn. */
  method EncodeFrames(ts: seq<Tlv>) returns (body: seq<Byte>)
    requires forall t | t in ts :: Encodable(t)
    ensures body == Frames(ts)
  {
    body := [];
    for i := 0 to |ts|
      invariant body + Frames(ts[i..]) == Frames(ts)
    {
      FramesStep(ts, i, body);
      if ts[i].kind == PAD1 {
        body := body + [PAD1];
      } else {
        body := body + ([ts[i].kind, |ts[i].body|] + ts[i].body);
      }
    }
  }

  lemma FramesStep(ts: seq<Tlv>, i: nat, body: seq<Byte>)
    requires i < |ts| && forall t | t in ts :: Encodable(t)
    ensures body + Frames(ts[i..]) == (body + Frame(ts[i])) + Frames(ts[i + 1..])
  {
    var rest := ts[i..];
    assert rest[0] == ts[i] && rest[1..] == ts[i + 1..];
    assert Frames(rest) == Frame(ts[i]) + Frames(ts[i + 1..]);
  }

  // ----- decoding -----

  /** The frames of a body, padding dropped; refused unless they fill it exactly. */
  function Parse(body: seq<Byte>): (r: Result<seq<Tlv>>) {
    if body == [] then Ok([])
    else if body[0] == PAD1 then Parse(body[1..])
    else if |body| < 2 || 2 + body[1] > |body| then Err
    else
      var rest := Parse(body[2 + body[1]..]);
      if rest.Err? then Err
      else if body[0] == PADN then rest
      else Ok([Tlv(body[0], body[2..2 + body[1]])] + rest.value)
  }

  method DecodeFrames(body: seq<Byte>) returns (r: Result<seq<Tlv>>)
    ensures r == Parse(body)
  {
    var out: seq<Tlv> := [];
    var rest: seq<Byte> := body;
    assert Parse(body).Ok? ==> out + Parse(body).value == Parse(body).value;
    while rest != []
      invariant Parse(body) == if Parse(rest).Ok? then Ok(out + Parse(rest).value) else Err
    {
      if rest[0] == PAD1 {
        rest := rest[1..];
        continue;
      }
      if |rest| < 2 || 2 + rest[1] > |rest| {
        return Err;
      }
      var length := rest[1];
      if rest[0] != PADN {
        var t := Tlv(rest[0], rest[2..2 + length]);
        assert forall more :: out + ([t] + more) == (out + [t]) + more;
        out := out + [t];
      }
      rest := rest[2 + length..];
    }
    assert out + [] == out;
    return Ok(out);
  }

  function ParsePacket(b: seq<Byte>): Result<seq<Tlv>> {
    if |b| < HEADER_LEN || b[0] != MAGIC || b[1] != VERSION then Err
    else
      var length := U16Of(b[2..4]);
      if HEADER_LEN + length > |b| then Err else Parse(b[HEADER_LEN..HEADER_LEN + length])
  }

  // ----- the round trip -----

  predicate IsPadding(t: Tlv) {
    t.kind == PAD1 || t.kind == PADN
  }

  function WithoutPadding(ts: seq<Tlv>): seq<Tlv> {
    if ts == [] then []
    else if IsPadding(ts[0]) then WithoutPadding(ts[1..])
    else [ts[0]] + WithoutPadding(ts[1..])
  }

  /** Reading back what was framed gives the frames, padding aside. */
  lemma {:induction false} ParseUndoesFrames(ts: seq<Tlv>)
    requires forall t | t in ts :: Encodable(t)
    ensures Parse(Frames(ts)) == Ok(WithoutPadding(ts))
  {
    if ts == [] {
    } else {
      ParseUndoesFrames(ts[1..]);
      var t, rest := ts[0], Frames(ts[1..]);
      var body := Frame(t) + rest;
      if t.kind == PAD1 {
        assert body[1..] == rest;
      } else {
        assert body[2..2 + |t.body|] == t.body;
        assert body[2 + |t.body|..] == rest;
      }
    }
  }

  /** Octets after the declared body are not read. */
  lemma PacketRoundTrip(ts: seq<Tlv>, trailer: seq<Byte>)
    requires (forall t | t in ts :: Encodable(t)) && |Frames(ts)| < 0x1_0000
    ensures ParsePacket(Packet(Frames(ts)) + trailer) == Ok(WithoutPadding(ts))
  {
    var body := Frames(ts);
    var b := Packet(body) + trailer;
    assert b[2..4] == U16Bytes(|body|);
    U16RoundTrip(|body|);
    assert b[HEADER_LEN..HEADER_LEN + |body|] == body;
    ParseUndoesFrames(ts);
  }
}
