/** Splitting a list of TLVs into packets without changing what it says. */
module BabelPackets {
  import opened Bytes
  import opened BabelTlv
  import opened BabelSources

  // ----- what a packet says -----

  /** A TLV other than a Router-Id, with the Router-Id body an Update was read under. */
  datatype Item = Item(tlv: Tlv, id: seq<Byte>)

  /** Reading TLVs in order with the given Router-Id in effect; [] is none. */
  function Read(ts: seq<Tlv>, id: seq<Byte>): seq<Item> {
    if ts == [] then []
    else if ts[0].kind == ROUTER_ID then Read(ts[1..], ts[0].body)
    else [Item(ts[0], if ts[0].kind == UPDATE then id else [])] + Read(ts[1..], id)
  }

  /** The Router-Id in effect after reading. */
  function InEffect(ts: seq<Tlv>, id: seq<Byte>): seq<Byte> {
    if ts == [] then id
    else InEffect(ts[1..], if ts[0].kind == ROUTER_ID then ts[0].body else id)
  }

  lemma {:induction false} InEffectJoins(a: seq<Tlv>, b: seq<Tlv>, id: seq<Byte>)
    ensures InEffect(a + b, id) == InEffect(b, InEffect(a, id))
  {
    if a == [] {
      assert a + b == b;
    } else {
      InEffectJoins(a[1..], b, if a[0].kind == ROUTER_ID then a[0].body else id);
      assert (a + b)[1..] == a[1..] + b;
    }
  }

  lemma {:induction false} ReadJoins(a: seq<Tlv>, b: seq<Tlv>, id: seq<Byte>)
    ensures Read(a + b, id) == Read(a, id) + Read(b, InEffect(a, id))
  {
    if a == [] {
      assert a + b == b;
    } else {
      assert (a + b)[1..] == a[1..] + b && (a + b)[0] == a[0];
      if a[0].kind == ROUTER_ID {
        ReadJoins(a[1..], b, a[0].body);
      } else {
        ReadJoins(a[1..], b, id);
        var item := [Item(a[0], if a[0].kind == UPDATE then id else [])];
        var later := Read(b, InEffect(a, id));
        assert item + (Read(a[1..], id) + later) == (item + Read(a[1..], id)) + later;
      }
    }
  }

  /** Every Update directly follows the Router-Id it is paired with. */
  predicate Paired(ts: seq<Tlv>) {
    && (forall i | 0 <= i < |ts| && ts[i].kind == ROUTER_ID :: ts[i].body != [])
    && (forall i | 0 <= i < |ts| && ts[i].kind == UPDATE :: i > 0 && ts[i - 1].kind == ROUTER_ID)
  }

  /** A list whose Updates are paired says the same whatever went before it. */
  lemma {:induction false} FreshReading(ts: seq<Tlv>, id: seq<Byte>)
    requires Paired(ts)
    ensures Read(ts, id) == Read(ts, [])
  {
    if ts == [] || ts[0].kind == ROUTER_ID {
    } else {
      assert ts[0].kind != UPDATE;
      if |ts| > 1 {
        assert ts[1].kind != UPDATE;
      }
      assert Paired(ts[1..]);
      FreshReading(ts[1..], id);
    }
  }

  // ----- splitting -----

  function Encoded(ts: seq<Tlv>): (n: nat) {
    if ts == [] then 0 else 2 + |ts[0].body| + Encoded(ts[1..])
  }

  lemma {:induction false} EncodedJoins(a: seq<Tlv>, b: seq<Tlv>)
    ensures Encoded(a + b) == Encoded(a) + Encoded(b)
  {
    if a == [] {
      assert a + b == b;
    } else {
      EncodedJoins(a[1..], b);
      assert (a + b)[1..] == a[1..] + b;
    }
  }

  lemma {:induction false} EncodedBoundsFrames(ts: seq<Tlv>)
    requires forall t | t in ts :: Encodable(t)
    ensures |Frames(ts)| <= Encoded(ts)
  {
    if ts == [] {
    } else {
      EncodedBoundsFrames(ts[1..]);
    }
  }

  /** A Router-Id keeps the Update that follows it. */
  function GroupEnd(ts: seq<Tlv>, i: nat): (end: nat)
    requires i < |ts|
    ensures i < end <= |ts|
  {
    if ts[i].kind == ROUTER_ID && i + 1 < |ts| && ts[i + 1].kind == UPDATE then i + 2 else i + 1
  }

  /** A group without the Router-Id already in effect. */
  function Trimmed(group: seq<Tlv>, inEffect: seq<Byte>): seq<Tlv>
    requires group != []
  {
    if group[0].kind == ROUTER_ID && group[0].body == inEffect then group[1..] else group
  }

  /** The packet being built: what it holds, its size, the Router-Id it has set
      and the first TLV it stands for. */
  datatype Open = Open(batch: seq<Tlv>, size: int, inEffect: seq<Byte>, first: nat)

  /** Nothing but TLVs of the list. */
  predicate Drawn(batch: seq<Tlv>, ts: seq<Tlv>) {
    forall t | t in batch :: t in ts
  }

  predicate OpenOk(ts: seq<Tlv>, o: Open, i: nat) {
    && o.first <= i <= |ts|
    && (o.batch == [] <==> o.first == i)
    && Read(o.batch, []) == Read(ts[o.first..i], [])
    && InEffect(o.batch, []) == InEffect(ts[o.first..i], []) == o.inEffect
    && o.size == HEADER_LEN + Encoded(o.batch) && Drawn(o.batch, ts)
  }

  function Extended(o: Open, group: seq<Tlv>): Open
    requires group != []
  {
    var trimmed := Trimmed(group, o.inEffect);
    Open(o.batch + trimmed, o.size + Encoded(trimmed), if group[0].kind == ROUTER_ID then group[0].body else o.inEffect,
         o.first)
  }

  lemma TrimmingKeepsMeaning(group: seq<Tlv>, inEffect: seq<Byte>)
    requires group != []
    ensures Read(Trimmed(group, inEffect), inEffect) == Read(group, inEffect)
    ensures InEffect(Trimmed(group, inEffect), inEffect) == InEffect(group, inEffect)
  {}

  lemma GroupIsPaired(ts: seq<Tlv>, i: nat)
    requires Paired(ts) && i < |ts| && (i > 0 ==> ts[i].kind != UPDATE)
    ensures Paired(ts[i..GroupEnd(ts, i)])
    ensures GroupEnd(ts, i) < |ts| ==> ts[GroupEnd(ts, i)].kind != UPDATE
  {
    assert ts[i].kind != UPDATE;
  }

  lemma GroupSets(ts: seq<Tlv>, i: nat, id: seq<Byte>)
    requires i < |ts|
    ensures InEffect(ts[i..GroupEnd(ts, i)], id) == if ts[i].kind == ROUTER_ID then ts[i].body else id
  {
    var group := ts[i..GroupEnd(ts, i)];
    assert group[0] == ts[i];
    var then' := if ts[i].kind == ROUTER_ID then ts[i].body else id;
    if |group| == 2 {
      assert group[1..] == [ts[i + 1]] && [ts[i + 1]][1..] == [];
      assert InEffect([ts[i + 1]], then') == then';
    } else {
      assert group[1..] == [];
    }
  }

  lemma DrawnMore(batch: seq<Tlv>, ts: seq<Tlv>, i: nat, end: nat, inEffect: seq<Byte>)
    requires Drawn(batch, ts) && i < end <= |ts|
    ensures Drawn(batch + Trimmed(ts[i..end], inEffect), ts)
  {
    var trimmed := Trimmed(ts[i..end], inEffect);
    forall t | t in batch + trimmed
      ensures t in ts
    {
      if t !in batch {
        assert t in ts[i..end];
      }
    }
  }

  lemma ExtendKeeps(ts: seq<Tlv>, o: Open, i: nat)
    requires Paired(ts) && OpenOk(ts, o, i) && i < |ts| && (i > 0 ==> ts[i].kind != UPDATE)
    ensures OpenOk(ts, Extended(o, ts[i..GroupEnd(ts, i)]), GroupEnd(ts, i))
  {
    var end := GroupEnd(ts, i);
    var group := ts[i..end];
    var trimmed := Trimmed(group, o.inEffect);
    ReadJoins(o.batch, trimmed, []);
    ReadJoins(ts[o.first..i], group, []);
    InEffectJoins(o.batch, trimmed, []);
    InEffectJoins(ts[o.first..i], group, []);
    assert ts[o.first..i] + group == ts[o.first..end];
    TrimmingKeepsMeaning(group, o.inEffect);
    GroupSets(ts, i, o.inEffect);
    EncodedJoins(o.batch, trimmed);
    DrawnMore(o.batch, ts, i, end, o.inEffect);
    assert group[0] == ts[i];
    if o.batch == [] {
      assert o.inEffect == [];
    }
  }

  // ----- undos -----

  /** What one prefix's TLVs consumed, filed under the first of them. */
  datatype TlvUndo = TlvUndo(firstTLV: int, key: RouteKey, spent: bool)

  predicate Ascending(us: seq<TlvUndo>) {
    forall i, j | 0 <= i < j < |us| :: us[i].firstTLV <= us[j].firstTLV
  }

  predicate Between(us: seq<TlvUndo>, lo: int, hi: int) {
    forall i | 0 <= i < |us| :: lo <= us[i].firstTLV < hi
  }

  /** Drops the undos below lo and splits off those below hi. */
  method TakeUndos(rollback: seq<TlvUndo>, lo: int, hi: int)
    returns (taken: seq<TlvUndo>, rest: seq<TlvUndo>)
    requires Ascending(rollback) && lo <= hi
    ensures |taken| + |rest| <= |rollback| && rest == rollback[|rollback| - |rest|..]
    ensures taken == rollback[|rollback| - |rest| - |taken|..|rollback| - |rest|]
    ensures forall i | 0 <= i < |rollback| ::
      && (i < |rollback| - |rest| - |taken| <==> rollback[i].firstTLV < lo)
      && (i < |rollback| - |rest| <==> rollback[i].firstTLV < hi)
    ensures |taken| + |rest| < |rollback| ==> rollback[0].firstTLV < lo
  {
    var m := 0;
    while m < |rollback| && rollback[m].firstTLV < lo
      invariant m <= |rollback|
      invariant forall i | 0 <= i < m :: rollback[i].firstTLV < lo
    {
      m := m + 1;
    }
    var n := m;
    while n < |rollback| && rollback[n].firstTLV < hi
      invariant m <= n <= |rollback|
      invariant forall i | 0 <= i < n :: rollback[i].firstTLV < hi
    {
      n := n + 1;
    }
    taken, rest := rollback[m..n], rollback[n..];
  }

  // ----- the packets -----

  /** One packet: its TLVs, the stretch of the action it stands for, the undos of
      that stretch, and whether it got a place in the transmission order. */
  datatype Piece = Piece(batch: seq<Tlv>, first: nat, end: nat, undo: seq<TlvUndo>, placed: bool)

  /** No Router-Id and Update pair straddles this point. */
  predicate Boundary(ts: seq<Tlv>, i: nat) {
    0 < i < |ts| ==> ts[i].kind != UPDATE
  }

  predicate PieceOk(ts: seq<Tlv>, p: Piece) {
    && p.first < p.end <= |ts|
    && Boundary(ts, p.first)
    && Read(p.batch, []) == Read(ts[p.first..p.end], [])
    && Between(p.undo, p.first, p.end) && Drawn(p.batch, ts)
  }

  /** The pieces cover the first n TLVs and carry the first used undos, one after
      the other. */
  predicate Covers(ts: seq<Tlv>, rollback: seq<TlvUndo>, ps: seq<Piece>, n: nat, used: nat) {
    if ps == [] then n == 0 && used == 0
    else
      var p := ps[|ps| - 1];
      && PieceOk(ts, p) && p.end == n
      && |p.undo| <= used <= |rollback| && p.undo == rollback[used - |p.undo|..used]
      && Covers(ts, rollback, ps[..|ps| - 1], p.first, used - |p.undo|)
  }

  /** What the packets say, each read from a fresh parser state. */
  function Said(ps: seq<Piece>): seq<Item> {
    if ps == [] then [] else Said(ps[..|ps| - 1]) + Read(ps[|ps| - 1].batch, [])
  }

  function Undos(ps: seq<Piece>): seq<TlvUndo> {
    if ps == [] then [] else Undos(ps[..|ps| - 1]) + ps[|ps| - 1].undo
  }

  function Lost(ps: seq<Piece>): seq<TlvUndo> {
    if ps == [] then []
    else if ps[|ps| - 1].placed then Lost(ps[..|ps| - 1])
    else Lost(ps[..|ps| - 1]) + ps[|ps| - 1].undo
  }

  predicate Placed(ps: seq<Piece>) {
    ps == [] || (ps[|ps| - 1].placed && Placed(ps[..|ps| - 1]))
  }

  predicate Sized(ps: seq<Piece>, packetSize: int) {
    ps == [] || (HEADER_LEN + Encoded(ps[|ps| - 1].batch) <= packetSize && Sized(ps[..|ps| - 1], packetSize))
  }

  predicate GroupsFit(ts: seq<Tlv>, packetSize: int) {
    forall i | 0 <= i < |ts| :: HEADER_LEN + Encoded(ts[i..GroupEnd(ts, i)]) <= packetSize
  }

  lemma StretchIsPaired(ts: seq<Tlv>, p: Piece)
    requires Paired(ts) && PieceOk(ts, p)
    ensures Paired(ts[p.first..p.end])
  {
    var stretch := ts[p.first..p.end];
    forall i | 0 <= i < |stretch| && stretch[i].kind == UPDATE
      ensures i > 0 && stretch[i - 1].kind == ROUTER_ID
    {
      assert ts[p.first + i].kind == UPDATE;
    }
  }

  /** Pieces that cover a paired list say what the list says. */
  lemma {:induction false} CoveringKeepsMeaning(ts: seq<Tlv>, rollback: seq<TlvUndo>, ps: seq<Piece>, n: nat, used: nat)
    requires Paired(ts) && n <= |ts| && Covers(ts, rollback, ps, n, used)
    ensures Said(ps) == Read(ts[..n], [])
  {
    if ps == [] {
    } else {
      var p := ps[|ps| - 1];
      CoveringKeepsMeaning(ts, rollback, ps[..|ps| - 1], p.first, used - |p.undo|);
      StretchIsPaired(ts, p);
      ReadJoins(ts[..p.first], ts[p.first..n], []);
      FreshReading(ts[p.first..n], InEffect(ts[..p.first], []));
      assert ts[..p.first] + ts[p.first..n] == ts[..n];
    }
  }

  lemma {:induction false} CoveringKeepsUndos(ts: seq<Tlv>, rollback: seq<TlvUndo>, ps: seq<Piece>, n: nat, used: nat)
    requires used <= |rollback| && Covers(ts, rollback, ps, n, used)
    ensures Undos(ps) == rollback[..used]
  {
    if ps == [] {
    } else {
      var p := ps[|ps| - 1];
      CoveringKeepsUndos(ts, rollback, ps[..|ps| - 1], p.first, used - |p.undo|);
      assert rollback[..used - |p.undo|] + rollback[used - |p.undo|..used] == rollback[..used];
    }
  }

  /** The packets closed so far, the undos of those refused, whether none was, and
      how many undos they carry between them. */
  datatype Cut = Cut(pieces: seq<Piece>, lost: seq<TlvUndo>, whole: bool, used: nat)

  /** The undos that are left belong to the TLVs from n on. */
  predicate LeftAfter(ts: seq<Tlv>, rollback: seq<TlvUndo>, used: nat, n: nat) {
    used <= |rollback| && forall i | used <= i < |rollback| :: n <= rollback[i].firstTLV < |ts|
  }

  predicate CutOk(ts: seq<Tlv>, rollback: seq<TlvUndo>, c: Cut, n: nat) {
    && LeftAfter(ts, rollback, c.used, n)
    && Covers(ts, rollback, c.pieces, n, c.used)
    && c.lost == Lost(c.pieces) && c.whole == Placed(c.pieces)
  }

  /** A packet closed with the next undos. */
  function Closed(c: Cut, p: Piece): Cut {
    Cut(c.pieces + [p], if p.placed then c.lost else c.lost + p.undo, c.whole && p.placed, c.used + |p.undo|)
  }

  lemma ClosingCovers(ts: seq<Tlv>, rollback: seq<TlvUndo>, ps: seq<Piece>, p: Piece, used: nat)
    requires PieceOk(ts, p) && used + |p.undo| <= |rollback| && p.undo == rollback[used..used + |p.undo|]
    requires Covers(ts, rollback, ps, p.first, used)
    ensures Covers(ts, rollback, ps + [p], p.end, used + |p.undo|)
  {
    assert (ps + [p])[..|ps|] == ps;
  }

  lemma ClosingLists(ps: seq<Piece>, p: Piece)
    ensures Lost(ps + [p]) == if p.placed then Lost(ps) else Lost(ps) + p.undo
    ensures Placed(ps + [p]) == (Placed(ps) && p.placed)
  {
    assert (ps + [p])[..|ps|] == ps;
  }

  lemma ClosingKeeps(ts: seq<Tlv>, rollback: seq<TlvUndo>, c: Cut, p: Piece)
    requires CutOk(ts, rollback, c, p.first) && PieceOk(ts, p)
    requires c.used + |p.undo| <= |rollback| && p.undo == rollback[c.used..c.used + |p.undo|]
    requires LeftAfter(ts, rollback, c.used + |p.undo|, p.end)
    ensures CutOk(ts, rollback, Closed(c, p), p.end)
  {
    ClosingCovers(ts, rollback, c.pieces, p, c.used);
    ClosingLists(c.pieces, p);
  }

  /** Closes the packet being built. */
  method Take(ts: seq<Tlv>, rollback: seq<TlvUndo>, c: Cut, o: Open, i: nat, placed: bool) returns (d: Cut)
    requires CutOk(ts, rollback, c, o.first) && Ascending(rollback)
    requires OpenOk(ts, o, i) && o.batch != [] && Boundary(ts, o.first)
    ensures CutOk(ts, rollback, d, i)
    ensures d.pieces != [] && d.pieces[..|d.pieces| - 1] == c.pieces && d.pieces[|d.pieces| - 1].batch == o.batch
  {
    var undo := NextUndos(ts, rollback, c.used, o.first, i);
    var p := Piece(o.batch, o.first, i, undo, placed);
    ClosingKeeps(ts, rollback, c, p);
    d := Cut(c.pieces + [p], if placed then c.lost else c.lost + undo, c.whole && placed, c.used + |undo|);
    assert d == Closed(c, p);
  }

  /** The undos of the next TLVs: nothing is pending below them, so none is dropped. */
  method NextUndos(ts: seq<Tlv>, rollback: seq<TlvUndo>, used: nat, lo: nat, hi: nat) returns (undo: seq<TlvUndo>)
    requires LeftAfter(ts, rollback, used, lo) && Ascending(rollback) && lo <= hi <= |ts|
    ensures used + |undo| <= |rollback| && undo == rollback[used..used + |undo|] && Between(undo, lo, hi)
    ensures LeftAfter(ts, rollback, used + |undo|, hi)
  {
    var pending := rollback[used..];
    assert forall i | 0 <= i < |pending| :: pending[i] == rollback[used + i];
    var rest;
    undo, rest := TakeUndos(pending, lo, hi);
    assert forall i | used <= i < |rollback| :: rollback[i] == pending[i - used];
  }

  /** Adds one group, closing the packet first when the group would not fit. */
  method AddGroup(ts: seq<Tlv>, rollback: seq<TlvUndo>, c: Cut, o: Open, i: nat, packetSize: int, placed: bool)
    returns (d: Cut, q: Open)
    requires Paired(ts) && Ascending(rollback) && i < |ts| && Boundary(ts, i)
    requires CutOk(ts, rollback, c, o.first) && OpenOk(ts, o, i) && Boundary(ts, o.first)
    ensures CutOk(ts, rollback, d, q.first) && OpenOk(ts, q, GroupEnd(ts, i)) && Boundary(ts, q.first)
    ensures q.first <= i
    ensures GroupsFit(ts, packetSize) && Sized(c.pieces, packetSize) && (o.batch != [] ==> o.size <= packetSize)
        ==> Sized(d.pieces, packetSize) && q.size <= packetSize
  {
    var group := ts[i..GroupEnd(ts, i)];
    d, q := c, o;
    if o.batch != [] && o.size + Encoded(Trimmed(group, o.inEffect)) > packetSize {
      d := Take(ts, rollback, c, o, i, placed);
      q := Open([], HEADER_LEN, [], i);
      assert ts[i..i] == [];
    }
    ExtendKeeps(ts, q, i);
    q := Extended(q, group);
  }

  lemma NothingLeft(ts: seq<Tlv>, rollback: seq<TlvUndo>, used: nat)
    requires LeftAfter(ts, rollback, used, |ts|)
    ensures used == |rollback|
  {
    if used < |rollback| {
      SomethingLeft(ts, rollback, used, |ts|);
      assert false;
    }
  }

  lemma SomethingLeft(ts: seq<Tlv>, rollback: seq<TlvUndo>, used: nat, n: nat)
    requires used < |rollback| && LeftAfter(ts, rollback, used, n)
    ensures n < |ts|
  {
    assert n <= rollback[used].firstTLV < |ts|;
  }

  lemma CutIsDone(ts: seq<Tlv>, rollback: seq<TlvUndo>, c: Cut)
    requires Paired(ts) && CutOk(ts, rollback, c, |ts|)
    ensures Covers(ts, rollback, c.pieces, |ts|, |rollback|)
    ensures Said(c.pieces) == Read(ts, []) && Undos(c.pieces) == rollback
  {
    NothingLeft(ts, rollback, c.used);
    WholeCover(ts, rollback, c.pieces);
  }

  lemma WholeCover(ts: seq<Tlv>, rollback: seq<TlvUndo>, ps: seq<Piece>)
    requires Paired(ts) && Covers(ts, rollback, ps, |ts|, |rollback|)
    ensures Said(ps) == Read(ts, []) && Undos(ps) == rollback
  {
    CoveringKeepsMeaning(ts, rollback, ps, |ts|, |rollback|);
    CoveringKeepsUndos(ts, rollback, ps, |ts|, |rollback|);
    assert ts[..|ts|] == ts && rollback[..|rollback|] == rollback;
  }

  /** Splits an action at the packet size and asks a place for each packet. Read
      each from a fresh state, the packets say what the action says, in order;
      none is too large when every group fits alone; and each undo travels with
      the packet that carries its TLVs. */
  method ReserveBatches(ts: seq<Tlv>, rollback: seq<TlvUndo>, packetSize: int, free: nat -> bool)
    returns (pieces: seq<Piece>, lost: seq<TlvUndo>, whole: bool)
    requires Paired(ts) && Ascending(rollback) && Between(rollback, 0, |ts|)
    ensures Covers(ts, rollback, pieces, |ts|, |rollback|)
    ensures Said(pieces) == Read(ts, []) && Undos(pieces) == rollback
    ensures lost == Lost(pieces) && whole == Placed(pieces)
    ensures GroupsFit(ts, packetSize) ==> Sized(pieces, packetSize)
  {
    var o := Open([], HEADER_LEN, [], 0);
    var c := Cut([], [], true, 0);
    var i := 0;
    while i < |ts|
      invariant CutOk(ts, rollback, c, o.first) && OpenOk(ts, o, i) && Boundary(ts, o.first) && Boundary(ts, i)
      invariant o.batch == [] ==> i == 0
      invariant GroupsFit(ts, packetSize) ==> Sized(c.pieces, packetSize) && (o.batch != [] ==> o.size <= packetSize)
    {
      GroupIsPaired(ts, i);
      c, o := AddGroup(ts, rollback, c, o, i, packetSize, free(|c.pieces|));
      i := GroupEnd(ts, i);
    }
    if o.batch != [] {
      c := Take(ts, rollback, c, o, |ts|, free(|c.pieces|));
    }
    CutIsDone(ts, rollback, c);
    pieces, lost, whole := c.pieces, c.lost, c.whole;
  }
}
