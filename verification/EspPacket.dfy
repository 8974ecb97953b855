/** One ESP packet, sealed and opened. The cipher is any pair of functions of
    which opening undoes sealing. */
module EspPacket {
  import opened Bytes
  import opened EspTrailer
  import opened Wrappers

  const HEADER_LEN := 8
  const IV_LEN := 8
  const ICV_LEN := 16
  const SALT_LEN := 4

  /** Sealing takes nonce, plaintext and additional data; opening takes nonce,
      ciphertext and additional data. */
  datatype Aead = Aead(
    seal: (seq<Byte>, seq<Byte>, seq<Byte>) -> seq<Byte>,
    open: (seq<Byte>, seq<Byte>, seq<Byte>) -> Result<seq<Byte>>)

  ghost predicate Lawful(a: Aead) {
    forall nonce, plain, aad ::
      |a.seal(nonce, plain, aad)| == |plain| + ICV_LEN && a.open(nonce, a.seal(nonce, plain, aad), aad) == Ok(plain)
  }

  datatype Keys = Keys(aead: Aead, salt: seq<Byte>, spi: int)

  ghost predicate KeysOk(k: Keys) {
    Lawful(k.aead) && |k.salt| == SALT_LEN && 0 <= k.spi < 0x1_0000_0000
  }

  function Header(k: Keys, seqno: int): (h: seq<Byte>)
    requires 0 <= k.spi < 0x1_0000_0000 && 0 <= seqno < 0x1_0000_0000
    ensures |h| == HEADER_LEN
  {
    U32Bytes(k.spi) + U32Bytes(seqno)
  }

  function SealedLen(innerLen: nat): nat {
    HEADER_LEN + IV_LEN + innerLen + PadFor(innerLen) + 2 + ICV_LEN
  }

  function Sealed(k: Keys, inner: seq<Byte>, nextHeader: Byte, seqno: int): seq<Byte>
    requires 0 <= k.spi < 0x1_0000_0000 && 0 <= seqno < 0x1_0000_0000
  {
    var iv := U64Bytes(seqno);
    var plain := Framed(inner, PadFor(|inner|), nextHeader);
    Header(k, seqno) + iv + k.aead.seal(k.salt + iv, plain, Header(k, seqno))
  }

  function CheckHeader(k: Keys, pkt: seq<Byte>): Result<U32> {
    if |pkt| < HEADER_LEN + IV_LEN + ICV_LEN then Err
    else if U32Of(pkt[..4]) != k.spi then Err
    else Ok(U32Of(pkt[4..8]))
  }

  function Decrypt(k: Keys, pkt: seq<Byte>): Result<seq<Byte>>
    requires |pkt| >= HEADER_LEN + IV_LEN
  {
    k.aead.open(k.salt + pkt[HEADER_LEN..HEADER_LEN + IV_LEN], pkt[HEADER_LEN + IV_LEN..], pkt[..HEADER_LEN])
  }

  /** A receiver with the sender's keys recovers the number, the payload and its
      next header, and the sealed length is what the sender reserves for it. */
  lemma OpenUndoesSeal(k: Keys, inner: seq<Byte>, nextHeader: Byte, seqno: int)
    requires KeysOk(k) && 0 <= seqno < 0x1_0000_0000
    ensures var pkt := Sealed(k, inner, nextHeader, seqno);
      && |pkt| == SealedLen(|inner|)
      && CheckHeader(k, pkt) == Ok(seqno)
      && Decrypt(k, pkt) == Ok(Framed(inner, PadFor(|inner|), nextHeader))
      && ParseTrailer(Framed(inner, PadFor(|inner|), nextHeader)) == Ok(Payload(inner, nextHeader))
  {
    var iv, header := U64Bytes(seqno), Header(k, seqno);
    var plain := Framed(inner, PadFor(|inner|), nextHeader);
    var body := k.aead.seal(k.salt + iv, plain, header);
    var pkt := header + iv + body;
    assert |body| == |plain| + ICV_LEN;
    U32RoundTrip(k.spi);
    U32RoundTrip(seqno);
    assert pkt[..4] == U32Bytes(k.spi);
    assert pkt[4..8] == U32Bytes(seqno);
    assert pkt[..HEADER_LEN] == header;
    assert pkt[HEADER_LEN..HEADER_LEN + IV_LEN] == iv;
    assert pkt[HEADER_LEN + IV_LEN..] == body;
    FrameRoundTrip(inner, nextHeader);
  }
}
