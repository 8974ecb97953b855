/** The sources of one destination: an ordered list, longest prefix first, and
    the per-length index a busy list is looked up through instead. */
module SadrSources {
  import opened Wrappers

  /** A forwarding target, known only by equality. */
  type Value = nat

  /** A masked prefix: its leading bits, in a family of `width` bits. */
  datatype Prefix = Prefix(width: nat, bits: seq<bool>)

  /** A source, absent when it matches every address, and its value. */
  datatype SrcEntry = SrcEntry(src: Option<Prefix>, value: Value)

  /** An address is its bits; an invalid one has none. */
  predicate Contains(p: Prefix, a: seq<bool>) {
    a != [] && |a| == p.width && p.bits <= a
  }

  predicate Accepts(src: Option<Prefix>, a: seq<bool>) {
    src.None? || Contains(src.value, a)
  }

  function Bits(src: Option<Prefix>): int {
    if src.None? then -1 else |src.value.bits|
  }

  predicate Ordered(srcs: seq<SrcEntry>) {
    forall i, j | 0 <= i < j < |srcs| :: Bits(srcs[i].src) >= Bits(srcs[j].src)
  }

  predicate Distinct(srcs: seq<SrcEntry>) {
    forall i, j | 0 <= i < j < |srcs| :: srcs[i].src != srcs[j].src
  }

  predicate SrcsOk(srcs: seq<SrcEntry>) {
    Ordered(srcs) && Distinct(srcs)
  }

  /** The value a list holds for one source. */
  function ValueOf(srcs: seq<SrcEntry>, src: Option<Prefix>): Option<Value> {
    if srcs == [] then None
    else if srcs[0].src == src then Some(srcs[0].value)
    else ValueOf(srcs[1..], src)
  }

  lemma {:induction false} ValueOfIsMembership(srcs: seq<SrcEntry>, src: Option<Prefix>, v: Value)
    requires Distinct(srcs)
    ensures ValueOf(srcs, src) == Some(v) <==> SrcEntry(src, v) in srcs
  {
    if srcs == [] {
    } else {
      ValueOfIsMembership(srcs[1..], src, v);
      assert srcs == [srcs[0]] + srcs[1..];
      forall j | 0 < j < |srcs| ensures srcs[j].src != srcs[0].src {
      }
    }
  }

  // ----- the answer -----

  /** The entry accepting the address with the longest source, if any does. */
  ghost predicate IsPick(srcs: seq<SrcEntry>, a: seq<bool>, r: Option<Value>) {
    match r
    case None => forall e | e in srcs :: !Accepts(e.src, a)
    case Some(v) =>
      exists src :: SrcEntry(src, v) in srcs && Accepts(src, a)
        && forall e | e in srcs && Accepts(e.src, a) :: Bits(e.src) <= Bits(src)
  }

  /** The first specific source in order that contains the address. */
  function Scan(srcs: seq<SrcEntry>, a: seq<bool>): Option<Value> {
    if srcs == [] then None
    else if srcs[0].src.Some? && Contains(srcs[0].src.value, a) then Some(srcs[0].value)
    else Scan(srcs[1..], a)
  }

  function Pick(srcs: seq<SrcEntry>, a: seq<bool>): Option<Value> {
    var specific := Scan(srcs, a);
    if specific.Some? then specific else ValueOf(srcs, None)
  }

  lemma {:induction false} ScanFindsTheLongest(srcs: seq<SrcEntry>, a: seq<bool>)
    requires Ordered(srcs)
    ensures Scan(srcs, a).None? ==> forall e | e in srcs && e.src.Some? :: !Contains(e.src.value, a)
    ensures Scan(srcs, a).Some? ==>
              exists src :: SrcEntry(Some(src), Scan(srcs, a).value) in srcs && Contains(src, a)
                && forall e | e in srcs && Accepts(e.src, a) :: Bits(e.src) <= |src.bits|
  {
    if srcs == [] {
    } else {
      var rest := srcs[1..];
      ScanFindsTheLongest(rest, a);
      assert srcs == [srcs[0]] + rest;
      if srcs[0].src.Some? && Contains(srcs[0].src.value, a) {
        assert SrcEntry(srcs[0].src, srcs[0].value) in srcs;
        forall e | e in srcs ensures Bits(e.src) <= Bits(srcs[0].src) {
          var i :| 0 <= i < |srcs| && srcs[i] == e;
        }
      } else if Scan(rest, a).Some? {
        var src :| SrcEntry(Some(src), Scan(rest, a).value) in rest && Contains(src, a)
          && forall e | e in rest && Accepts(e.src, a) :: Bits(e.src) <= |src.bits|;
        assert SrcEntry(Some(src), Scan(srcs, a).value) in srcs;
      }
    }
  }

  /** The ordered scan answers the longest source, the match-all one last. */
  lemma PickIsTheLongest(srcs: seq<SrcEntry>, a: seq<bool>)
    requires SrcsOk(srcs)
    ensures IsPick(srcs, a, Pick(srcs, a))
  {
    ScanFindsTheLongest(srcs, a);
    if Scan(srcs, a).None? {
      match ValueOf(srcs, None)
      case Some(v) => ValueOfIsMembership(srcs, None, v);
      case None =>
        forall e | e in srcs ensures e.src.Some? {
          ValueOfIsMembership(srcs, None, e.value);
        }
    }
  }

  /** Two sources of one length that contain the same address are one source. */
  lemma PickIsUnique(srcs: seq<SrcEntry>, a: seq<bool>, x: Option<Value>, y: Option<Value>)
    requires SrcsOk(srcs) && IsPick(srcs, a, x) && IsPick(srcs, a, y)
    ensures x == y
  {
    if x.Some? && y.Some? {
      var p :| SrcEntry(p, x.value) in srcs && Accepts(p, a)
        && forall e | e in srcs && Accepts(e.src, a) :: Bits(e.src) <= Bits(p);
      var q :| SrcEntry(q, y.value) in srcs && Accepts(q, a)
        && forall e | e in srcs && Accepts(e.src, a) :: Bits(e.src) <= Bits(q);
      assert SrcEntry(p, x.value).src == p && SrcEntry(q, y.value).src == q;
      assert Bits(p) == Bits(q);
      if p.Some? {
        assert p.value.bits == a[..|p.value.bits|] == q.value.bits;
      }
      ValueOfIsMembership(srcs, p, x.value);
      ValueOfIsMembership(srcs, p, y.value);
    }
  }

  // ----- edits -----

  /** The first place whose source is no longer than `bits`, where a binary
      search of the ordered list ends. */
  function Place(srcs: seq<SrcEntry>, bits: int): (n: nat)
    ensures n <= |srcs|
    ensures forall i | 0 <= i < n :: Bits(srcs[i].src) > bits
    ensures n < |srcs| ==> Bits(srcs[n].src) <= bits
  {
    if srcs == [] || Bits(srcs[0].src) <= bits then 0 else 1 + Place(srcs[1..], bits)
  }

  function Find(srcs: seq<SrcEntry>, src: Option<Prefix>): (n: nat)
    ensures n <= |srcs|
    ensures n < |srcs| ==> srcs[n].src == src
    ensures forall i | 0 <= i < n :: srcs[i].src != src
  {
    if srcs == [] || srcs[0].src == src then 0 else 1 + Find(srcs[1..], src)
  }

  datatype Change = Put(src: Option<Prefix>, value: Value) | Delete(src: Option<Prefix>)

  function Apply(c: Change, srcs: seq<SrcEntry>): seq<SrcEntry> {
    var at := Find(srcs, c.src);
    match c
    case Put(src, value) =>
      if at < |srcs| then srcs[at := SrcEntry(src, value)]
      else
        Inserted(srcs, Place(srcs, Bits(src)), SrcEntry(src, value))
    case Delete(_) =>
      if at < |srcs| then srcs[..at] + srcs[at + 1..] else srcs
  }

  /** A change writes its own source and no other, and keeps the order. */
  lemma ApplyChangesOneSource(c: Change, srcs: seq<SrcEntry>)
    requires SrcsOk(srcs)
    ensures SrcsOk(Apply(c, srcs))
    ensures forall src, v :: SrcEntry(src, v) in Apply(c, srcs) <==>
              if src == c.src then c.Put? && v == c.value else SrcEntry(src, v) in srcs
  {
    var at, out := Find(srcs, c.src), Apply(c, srcs);
    if at < |srcs| {
      if c.Put? {
        ReplaceChangesOne(srcs, at, c.value);
      } else {
        DeleteChangesOne(srcs, at);
      }
    } else if c.Put? {
      InsertChangesOne(srcs, c.src, c.value);
    } else {
      assert forall v :: SrcEntry(c.src, v) !in srcs;
    }
  }

  lemma ReplaceChangesOne(srcs: seq<SrcEntry>, at: nat, v: Value)
    requires SrcsOk(srcs) && at < |srcs|
    ensures var out := srcs[at := SrcEntry(srcs[at].src, v)];
            && SrcsOk(out)
            && forall s, w :: SrcEntry(s, w) in out <==> if s == srcs[at].src then w == v else SrcEntry(s, w) in srcs
  {
    var out := srcs[at := SrcEntry(srcs[at].src, v)];
    assert forall i | 0 <= i < |srcs| :: out[i].src == srcs[i].src;
    assert out[at] == SrcEntry(srcs[at].src, v);
    forall s, w | s != srcs[at].src ensures SrcEntry(s, w) in out <==> SrcEntry(s, w) in srcs {
      if SrcEntry(s, w) in srcs {
        var i :| 0 <= i < |srcs| && srcs[i] == SrcEntry(s, w);
        assert out[i] == SrcEntry(s, w);
      }
    }
  }

  lemma DeleteChangesOne(srcs: seq<SrcEntry>, at: nat)
    requires SrcsOk(srcs) && at < |srcs|
    ensures var out := srcs[..at] + srcs[at + 1..];
            && SrcsOk(out)
            && forall s, w :: SrcEntry(s, w) in out <==> s != srcs[at].src && SrcEntry(s, w) in srcs
  {
    var out := srcs[..at] + srcs[at + 1..];
    assert forall i | 0 <= i < |out| :: out[i] == srcs[if i < at then i else i + 1];
    forall s, w | s != srcs[at].src && SrcEntry(s, w) in srcs ensures SrcEntry(s, w) in out {
      var i :| 0 <= i < |srcs| && srcs[i] == SrcEntry(s, w);
      assert out[if i < at then i else i - 1] == SrcEntry(s, w);
    }
  }

  function Inserted(srcs: seq<SrcEntry>, n: nat, e: SrcEntry): seq<SrcEntry>
    requires n <= |srcs|
  {
    srcs[..n] + [e] + srcs[n..]
  }

  lemma InsertKeepsOrder(srcs: seq<SrcEntry>, n: nat, e: SrcEntry)
    requires SrcsOk(srcs) && n <= |srcs| && forall i | 0 <= i < |srcs| :: srcs[i].src != e.src
    requires forall i | 0 <= i < n :: Bits(srcs[i].src) > Bits(e.src)
    requires n < |srcs| ==> Bits(srcs[n].src) <= Bits(e.src)
    ensures SrcsOk(Inserted(srcs, n, e))
  {
    var out := Inserted(srcs, n, e);
    forall i, j | 0 <= i < j < |out|
      ensures Bits(out[i].src) >= Bits(out[j].src) && out[i].src != out[j].src
    {
      if i < n < j {
        assert out[i] == srcs[i] && out[j] == srcs[j - 1];
      } else if j <= n {
        assert out[i] == srcs[i];
      } else {
        assert out[j] == srcs[j - 1];
      }
    }
  }

  lemma InsertChangesOne(srcs: seq<SrcEntry>, src: Option<Prefix>, v: Value)
    requires SrcsOk(srcs) && forall i | 0 <= i < |srcs| :: srcs[i].src != src
    ensures var out := Inserted(srcs, Place(srcs, Bits(src)), SrcEntry(src, v));
            && SrcsOk(out)
            && forall s, w :: SrcEntry(s, w) in out <==> if s == src then w == v else SrcEntry(s, w) in srcs
  {
    var n := Place(srcs, Bits(src));
    InsertKeepsOrder(srcs, n, SrcEntry(src, v));
    forall s, w
      ensures SrcEntry(s, w) in Inserted(srcs, n, SrcEntry(src, v))
         <==> if s == src then w == v else SrcEntry(s, w) in srcs
    {
      InsertAddsOne(srcs, n, SrcEntry(src, v), SrcEntry(s, w));
    }
  }

  lemma InsertAddsOne(srcs: seq<SrcEntry>, n: nat, e: SrcEntry, x: SrcEntry)
    requires n <= |srcs|
    ensures x in Inserted(srcs, n, e) <==> x == e || x in srcs
  {
    assert srcs == srcs[..n] + srcs[n..];
  }

  function Without(srcs: seq<SrcEntry>, value: Value): seq<SrcEntry> {
    if srcs == [] then []
    else if srcs[0].value == value then Without(srcs[1..], value)
    else [srcs[0]] + Without(srcs[1..], value)
  }

  lemma {:induction false} WithoutMembers(srcs: seq<SrcEntry>, value: Value, e: SrcEntry)
    ensures e in Without(srcs, value) <==> e in srcs && e.value != value
  {
    if srcs == [] {
    } else {
      WithoutMembers(srcs[1..], value, e);
      assert srcs == [srcs[0]] + srcs[1..];
    }
  }

  lemma {:induction false} WithoutKeepsOrder(srcs: seq<SrcEntry>, value: Value)
    requires SrcsOk(srcs)
    ensures SrcsOk(Without(srcs, value))
  {
    if srcs == [] {
    } else {
      var rest, kept := srcs[1..], Without(srcs[1..], value);
      WithoutKeepsOrder(rest, value);
      forall j | 0 <= j < |kept| ensures kept[j].src != srcs[0].src && Bits(srcs[0].src) >= Bits(kept[j].src) {
        WithoutMembers(rest, value, kept[j]);
        var i :| 0 <= i < |rest| && rest[i] == kept[j];
        assert srcs[i + 1] == kept[j];
      }
    }
  }
}
