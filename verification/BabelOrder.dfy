/** The two orders the Babel core rests on: feasibility distances, compared with
    sequence numbers that wrap at 16 bits, and peer names, which break ties. */
module BabelOrder {

  type U16 = x: int | 0 <= x < 0x1_0000

  /** The unreachable metric. */
  const INFINITY: U16 := 0xffff

  /** A sequence number and a metric, as advertised or as recorded. */
  datatype Distance = Distance(seqno: U16, metric: U16)

  /** How far `a` is ahead of `b` on the 16-bit circle. */
  function Ahead(a: U16, b: U16): U16 {
    (a - b) % 0x1_0000
  }

  /** int16(a - b) > 0 */
  predicate SeqnoGT(a: U16, b: U16) {
    0 < Ahead(a, b) < 0x8000
  }

  /** `d` is strictly better than `stored`: newer, or as new and cheaper. */
  predicate Better(d: Distance, stored: Distance) {
    SeqnoGT(d.seqno, stored.seqno) || (d.seqno == stored.seqno && d.metric < stored.metric)
  }

  predicate AtLeastAsGood(d: Distance, e: Distance) {
    d == e || Better(d, e)
  }

  /** `x` lies in the half circle that starts at `base`. */
  predicate InHalf(x: U16, base: U16) {
    Ahead(x, base) < 0x8000
  }

  /** Within a half circle the modular order is the order of the offsets. */
  lemma SeqnoOrderIsLinear(a: U16, b: U16, base: U16)
    requires InHalf(a, base) && InHalf(b, base)
    ensures SeqnoGT(a, b) <==> Ahead(a, base) > Ahead(b, base)
    ensures a == b <==> Ahead(a, base) == Ahead(b, base)
  {
    var x: int, y: int := Ahead(a, base), Ahead(b, base);
    var d: int := (x - y) % 0x1_0000;
    assert Ahead(a, b) == d;
  }

  /** On the whole circle it is not an order at all: three numbers can each be
      newer than the next, so a half circle is what the comparison needs. */
  lemma SeqnoOrderCycles()
    ensures SeqnoGT(22000, 0) && SeqnoGT(44000, 22000) && SeqnoGT(0, 44000)
    ensures !exists base: U16 :: InHalf(0, base) && InHalf(22000, base) && InHalf(44000, base)
  {
    assert Ahead(22000, 0) == 22000 && Ahead(44000, 22000) == 22000 && Ahead(0, 44000) == 21536;
    forall base: U16 | InHalf(0, base) && InHalf(22000, base) && InHalf(44000, base)
      ensures false
    {
      SeqnoOrderIsLinear(22000, 0, base);
      SeqnoOrderIsLinear(44000, 22000, base);
      SeqnoOrderIsLinear(0, 44000, base);
    }
  }

  /** Better is a strict order on the distances of one half circle. */
  lemma BetterIsStrictOrder(a: Distance, b: Distance, c: Distance, base: U16)
    requires InHalf(a.seqno, base) && InHalf(b.seqno, base) && InHalf(c.seqno, base)
    ensures !Better(a, a)
    ensures Better(a, b) ==> !Better(b, a)
    ensures Better(a, b) && Better(b, c) ==> Better(a, c)
    ensures Better(a, b) || Better(b, a) || a == b
    ensures AtLeastAsGood(a, b) <==> Better(a, b) || a == b
    ensures AtLeastAsGood(a, b) && Better(b, c) ==> Better(a, c)
  {
    SeqnoOrderIsLinear(a.seqno, b.seqno, base);
    SeqnoOrderIsLinear(b.seqno, a.seqno, base);
    SeqnoOrderIsLinear(b.seqno, c.seqno, base);
    SeqnoOrderIsLinear(a.seqno, c.seqno, base);
    SeqnoOrderIsLinear(a.seqno, a.seqno, base);
  }

  /** Peer names in the order of their characters, a proper prefix first. */
  predicate Precedes(a: string, b: string) {
    b != "" && (a == "" || a[0] < b[0] || (a[0] == b[0] && Precedes(a[1..], b[1..])))
  }

  lemma {:induction false} PrecedesIsTotal(a: string, b: string)
    ensures Precedes(a, b) || Precedes(b, a) || a == b
    ensures !(Precedes(a, b) && Precedes(b, a))
    ensures !Precedes(a, a)
  {
    if a != "" && b != "" {
      PrecedesIsTotal(a[1..], b[1..]);
      assert a == [a[0]] + a[1..] && b == [b[0]] + b[1..];
    } else if a != "" {
      PrecedesIsTotal(a[1..], a[1..]);
    }
  }

  lemma {:induction false} PrecedesIsTransitive(a: string, b: string, c: string)
    requires Precedes(a, b) && Precedes(b, c)
    ensures Precedes(a, c)
  {
    if a == "" || a[0] != b[0] || b[0] != c[0] {
    } else {
      PrecedesIsTransitive(a[1..], b[1..], c[1..]);
    }
  }
}
