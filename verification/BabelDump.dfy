/** A dump from the Updates it is made of to the Updates its packets decode to. */
module BabelDump {
  import opened Bytes
  import opened BabelTlv
  import opened BabelUpdate
  import opened BabelPackets
  import opened BabelCoalesce
  import BabelOrder
  import opened Wrappers

  /** An Update and the router-id it is sent under. */
  datatype Say = Say(id: seq<Byte>, update: Update)

  predicate SayOk(s: Say) {
    |s.id| == 8 && UpdateOk(s.update)
  }

  predicate SaysOk(said: seq<Say>) {
    forall i | 0 <= i < |said| :: SayOk(said[i])
  }

  function RouterIdTlv(id: seq<Byte>): Tlv {
    Tlv(ROUTER_ID, [0, 0] + id)
  }

  /** A Router-Id and the Update it is for. */
  datatype Pair = Pair(id: Tlv, update: Tlv)

  predicate PairsOk(ps: seq<Pair>) {
    forall i | 0 <= i < |ps| :: ps[i].id.kind == ROUTER_ID && ps[i].id.body != [] && ps[i].update.kind == UPDATE
  }

  function Flat(ps: seq<Pair>): seq<Tlv> {
    if ps == [] then [] else [ps[0].id, ps[0].update] + Flat(ps[1..])
  }

  lemma {:induction false} FlatIsPaired(ps: seq<Pair>)
    requires PairsOk(ps)
    ensures Paired(Flat(ps))
  {
    if ps == [] {
    } else {
      FlatIsPaired(ps[1..]);
      JoinIsPaired([ps[0].id, ps[0].update], Flat(ps[1..]));
    }
  }

  lemma {:induction false} FlatReads(ps: seq<Pair>, id: seq<Byte>)
    requires PairsOk(ps)
    ensures |Read(Flat(ps), id)| == |ps|
    ensures forall i | 0 <= i < |ps| :: Read(Flat(ps), id)[i] == Item(ps[i].update, ps[i].id.body)
  {
    if ps == [] {
    } else {
      var ts, rest, body := Flat(ps), Flat(ps[1..]), ps[0].id.body;
      FlatReads(ps[1..], body);
      assert ts[1..] == [ps[0].update] + rest;
      assert ts[1..][1..] == rest;
      assert Read(ts, id) == [Item(ps[0].update, body)] + Read(rest, body);
    }
  }

  function Pairs(said: seq<Say>): (ps: seq<Pair>)
    requires SaysOk(said)
    ensures |ps| == |said| && PairsOk(ps)
  {
    seq(|said|, i requires 0 <= i < |said| => Pair(RouterIdTlv(said[i].id), EncodeUpdate(said[i].update)))
  }

  /** Each Update behind a Router-Id of its own. */
  function DumpTlvs(said: seq<Say>): seq<Tlv>
    requires SaysOk(said)
  {
    Flat(Pairs(said))
  }

  /** A dump may be cut into packets: no Update is apart from its Router-Id. */
  lemma DumpIsPaired(said: seq<Say>)
    requires SaysOk(said)
    ensures Paired(DumpTlvs(said))
  {
    FlatIsPaired(Pairs(said));
  }

  // ----- through the bytes -----

  /** TLVs that fit their length field and are not padding. */
  predicate Plain(ts: seq<Tlv>) {
    forall t | t in ts :: Encodable(t) && !IsPadding(t)
  }

  /** A TLV of a dump is no longer than this. */
  const LONGEST := 45

  predicate Short(ts: seq<Tlv>) {
    Plain(ts) && forall t | t in ts :: |t.body| <= LONGEST
  }

  lemma {:induction false} FlatIsShort(ps: seq<Pair>)
    requires PairsOk(ps) && forall i | 0 <= i < |ps| :: |ps[i].id.body| <= LONGEST && |ps[i].update.body| <= LONGEST
    ensures Short(Flat(ps))
  {
    if ps == [] {
    } else {
      FlatIsShort(ps[1..]);
    }
  }

  lemma DumpIsShort(said: seq<Say>)
    requires SaysOk(said)
    ensures Short(DumpTlvs(said))
  {
    var ps := Pairs(said);
    forall i | 0 <= i < |ps|
      ensures |ps[i].id.body| <= LONGEST && |ps[i].update.body| <= LONGEST
    {
      SubTlvsAreShort(said[i].update);
    }
    FlatIsShort(ps);
  }

  /** A packet with room for two such TLVs has room for every group of a dump. */
  lemma DumpFits(said: seq<Say>, packetSize: int)
    requires SaysOk(said) && packetSize >= HEADER_LEN + 2 * (2 + LONGEST)
    ensures GroupsFit(DumpTlvs(said), packetSize)
  {
    var ts := DumpTlvs(said);
    DumpIsShort(said);
    forall i | 0 <= i < |ts|
      ensures HEADER_LEN + Encoded(ts[i..GroupEnd(ts, i)]) <= packetSize
    {
      var group := ts[i..GroupEnd(ts, i)];
      assert group[0] in ts;
      if |group| == 2 {
        assert group[1] in ts && group[1..] == [group[1]] && [group[1]][1..] == [];
        assert Encoded([group[1]]) == 2 + |group[1].body|;
      } else {
        assert group[1..] == [];
      }
    }
  }

  /** What is heard of one packet by whoever parses its bytes afresh. */
  function HeardOf(batch: seq<Tlv>): seq<Item>
    requires Plain(batch) && |Frames(batch)| < 0x1_0000
  {
    var r := ParsePacket(Packet(Frames(batch)));
    if r.Err? then [] else Read(r.value, [])
  }

  predicate Sendable(ps: seq<Piece>) {
    forall i | 0 <= i < |ps| :: Plain(ps[i].batch) && |Frames(ps[i].batch)| < 0x1_0000
  }

  function Heard(ps: seq<Piece>): seq<Item>
    requires Sendable(ps)
  {
    if ps == [] then [] else Heard(ps[..|ps| - 1]) + HeardOf(ps[|ps| - 1].batch)
  }

  lemma {:induction false} NoPadding(ts: seq<Tlv>)
    requires Plain(ts)
    ensures WithoutPadding(ts) == ts
  {
    if ts == [] {
    } else {
      assert !IsPadding(ts[0]);
      NoPadding(ts[1..]);
    }
  }

  lemma PacketIsHeard(batch: seq<Tlv>)
    requires Plain(batch) && |Frames(batch)| < 0x1_0000
    ensures HeardOf(batch) == Read(batch, [])
  {
    var packet := Packet(Frames(batch));
    PacketRoundTrip(batch, []);
    assert packet + [] == packet;
    NoPadding(batch);
  }

  /** Packets of a list within the size a length field can hold are heard as they
      were meant. */
  lemma {:induction false} PiecesAreHeard(ts: seq<Tlv>, rollback: seq<TlvUndo>, ps: seq<Piece>, n: nat, used: nat,
                                          packetSize: int)
    requires Plain(ts) && Covers(ts, rollback, ps, n, used)
    requires Sized(ps, packetSize) && packetSize < HEADER_LEN + 0x1_0000
    ensures Sendable(ps) && Heard(ps) == Said(ps)
  {
    if ps == [] {
    } else {
      var p := ps[|ps| - 1];
      PiecesAreHeard(ts, rollback, ps[..|ps| - 1], p.first, used - |p.undo|, packetSize);
      assert Plain(p.batch);
      EncodedBoundsFrames(p.batch);
      PacketIsHeard(p.batch);
      assert forall i | 0 <= i < |ps| - 1 :: ps[i] == ps[..|ps| - 1][i];
    }
  }

  /** However a dump is cut into packets that cover it and keep to the packet size,
      parsing the bytes of each afresh gives back its Updates in order, each under its
      own router-id. */
  lemma DumpSurvives(said: seq<Say>, rollback: seq<TlvUndo>, pieces: seq<Piece>, packetSize: int, ps: Prefixes, i: nat)
    requires SaysOk(said) && PrefixesOk(ps) && i < |said|
    requires Covers(DumpTlvs(said), rollback, pieces, |DumpTlvs(said)|, |rollback|)
    requires Sized(pieces, packetSize) && packetSize < HEADER_LEN + 0x1_0000
    ensures Sendable(pieces) && |Heard(pieces)| == |said| && Heard(pieces)[i].id == [0, 0] + said[i].id
    ensures Decoded(ps, Heard(pieces)[i].tlv.body)
         == Ok(said[i].update.(ignore := said[i].update.interval == 0 && said[i].update.metric != BabelOrder.INFINITY))
  {
    var ts := DumpTlvs(said);
    DumpIsShort(said);
    DumpIsPaired(said);
    PiecesAreHeard(ts, rollback, pieces, |ts|, |rollback|, packetSize);
    WholeCover(ts, rollback, pieces);
    FlatReads(Pairs(said), []);
    UpdateRoundTrip(ps, said[i].update);
  }

  /** Through merging, cutting and the bytes: what a target hears of the packets of its
      one merged action is what the actions for it said, in order. */
  lemma MergedIsHeard(as': seq<Action>, t: Target, pieces: seq<Piece>, packetSize: int)
    requires forall a | a in as' :: ActionOk(a) && Plain(a.tlvs)
    requires Gathered(as', t).Some?
    requires var g := Gathered(as', t).value; Covers(g.tlvs, g.rollback, pieces, |g.tlvs|, |g.rollback|)
    requires Sized(pieces, packetSize) && packetSize < HEADER_LEN + 0x1_0000
    ensures Sendable(pieces) && Heard(pieces) == SaidTo(as', t)
  {
    var g := Gathered(as', t).value;
    forall x | x in g.tlvs
      ensures Encodable(x) && !IsPadding(x)
    {
      GatheringDraws(as', t, x);
    }
    GatheringKeeps(as', t);
    PiecesAreHeard(g.tlvs, g.rollback, pieces, |g.tlvs|, |g.rollback|, packetSize);
    WholeCover(g.tlvs, g.rollback, pieces);
  }
}
