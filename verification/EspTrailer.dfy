/** The ESP trailer: padding 1, 2, 3, ..., the pad length and the next header
    (section 2.4 of RFC 4303). */
module EspTrailer {
  import opened Bytes
  import opened Wrappers

  datatype Payload = Payload(inner: seq<Byte>, nextHeader: Byte)

  function Padding(n: Byte): (p: seq<Byte>)
    ensures |p| == n
  {
    seq(n, i requires 0 <= i < n => i + 1)
  }

  /** A payload with pad bytes of padding and its trailer. */
  function Framed(inner: seq<Byte>, pad: Byte, nextHeader: Byte): seq<Byte> {
    inner + Padding(pad) + [pad, nextHeader]
  }

  /** The padding the sender chooses. */
  function PadFor(innerLen: nat): (pad: Byte)
    ensures pad < 4 && (innerLen + pad + 2) % 4 == 0
  {
    (4 - (innerLen + 2) % 4) % 4
  }

  function ParseTrailer(plain: seq<Byte>): Result<Payload> {
    if |plain| < 2 || |plain| % 4 != 0 then Err
    else
      var pad, nextHeader := plain[|plain| - 2], plain[|plain| - 1];
      if pad + 2 > |plain| then Err
      else
        var padding := plain[|plain| - 2 - pad..|plain| - 2];
        if exists i | 0 <= i < |padding| :: padding[i] != i + 1 then Err
        else Ok(Payload(plain[..|plain| - 2 - pad], nextHeader))
  }

  /** The receiver accepts exactly the aligned frames, however much padding they carry. */
  lemma TrailerAcceptsFrames(plain: seq<Byte>, inner: seq<Byte>, pad: Byte, nextHeader: Byte)
    requires plain == Framed(inner, pad, nextHeader)
    ensures ParseTrailer(plain) == if |plain| % 4 == 0 then Ok(Payload(inner, nextHeader)) else Err
  {
    assert plain[..|plain| - 2 - pad] == inner;
    assert plain[|plain| - 2 - pad..|plain| - 2] == Padding(pad);
  }

  lemma TrailerAcceptsNothingElse(plain: seq<Byte>)
    requires ParseTrailer(plain).Ok?
    ensures |plain| >= 2 && |plain| % 4 == 0
    ensures var p := ParseTrailer(plain).value;
      plain == Framed(p.inner, plain[|plain| - 2], p.nextHeader)
  {
    var p, pad := ParseTrailer(plain).value, plain[|plain| - 2];
    assert plain[|plain| - 2 - pad..|plain| - 2] == Padding(pad);
    assert plain == p.inner + plain[|plain| - 2 - pad..|plain| - 2] + [pad, p.nextHeader];
  }

  lemma FrameRoundTrip(inner: seq<Byte>, nextHeader: Byte)
    ensures ParseTrailer(Framed(inner, PadFor(|inner|), nextHeader)) == Ok(Payload(inner, nextHeader))
  {
    TrailerAcceptsFrames(Framed(inner, PadFor(|inner|), nextHeader), inner, PadFor(|inner|), nextHeader);
  }
}
