/** The per-length index of a source list: one map per distinct length, built
    only where it pays, and why a lookup through it answers what the scan does. */
module SadrIndex {
  import opened SadrSources
  import opened Wrappers

  datatype Group = Group(bits: nat, m: map<Prefix, Value>)

  const INDEX_THRESHOLD := 4

  /** The address masked to `n` bits, or no prefix at all. */
  function Masked(a: seq<bool>, n: nat): Option<Prefix> {
    if a != [] && n <= |a| then Some(Prefix(|a|, a[..n])) else None
  }

  /** One masked probe per length, longest first. */
  function Probe(byLen: seq<Group>, a: seq<bool>): Option<Value> {
    if byLen == [] then None
    else
      var p := Masked(a, byLen[0].bits);
      if p.Some? && p.value in byLen[0].m then Some(byLen[0].m[p.value])
      else Probe(byLen[1..], a)
  }

  predicate Hits(g: Group, a: seq<bool>) {
    Masked(a, g.bits).Some? && Masked(a, g.bits).value in g.m
  }

  predicate Files(g: Group, e: SrcEntry) {
    e.src.Some? && |e.src.value.bits| == g.bits && e.src.value in g.m && g.m[e.src.value] == e.value
  }

  /** Every specific source is filed under its length, nothing else is, and the
      longer lengths come first. */
  ghost predicate IsIndex(byLen: seq<Group>, srcs: seq<SrcEntry>) {
    && (forall i, j | 0 <= i < j < |byLen| :: byLen[i].bits > byLen[j].bits)
    && (forall i, p | 0 <= i < |byLen| && p in byLen[i].m ::
          |p.bits| == byLen[i].bits && SrcEntry(Some(p), byLen[i].m[p]) in srcs)
    && (forall e | e in srcs && e.src.Some? :: exists i :: 0 <= i < |byLen| && Files(byLen[i], e))
  }

  lemma {:induction false} ProbeIsTheFirstHit(byLen: seq<Group>, a: seq<bool>)
    ensures Probe(byLen, a).None? ==> forall i | 0 <= i < |byLen| :: !Hits(byLen[i], a)
    ensures Probe(byLen, a).Some? ==>
              exists i :: 0 <= i < |byLen| && Hits(byLen[i], a)
                && Probe(byLen, a).value == byLen[i].m[Masked(a, byLen[i].bits).value]
                && forall j | 0 <= j < i :: !Hits(byLen[j], a)
  {
    if byLen != [] && !Hits(byLen[0], a) {
      var rest := byLen[1..];
      ProbeIsTheFirstHit(rest, a);
      assert forall i | 0 <= i < |rest| :: rest[i] == byLen[i + 1];
      if Probe(rest, a).Some? {
        var i :| 0 <= i < |rest| && Hits(rest[i], a)
          && Probe(rest, a).value == rest[i].m[Masked(a, rest[i].bits).value]
          && forall j | 0 <= j < i :: !Hits(rest[j], a);
        assert Hits(byLen[i + 1], a);
        assert forall j | 0 <= j < i + 1 :: !Hits(byLen[j], a) by {
          forall j | 0 < j < i + 1 ensures !Hits(byLen[j], a) {
            assert !Hits(rest[j - 1], a);
          }
        }
      }
    } else if byLen != [] {
      assert Hits(byLen[0], a);
    }
  }

  /** A source containing the address is the address masked to its length, so
      the group of that length hits. */
  lemma ContainingSourceHits(byLen: seq<Group>, srcs: seq<SrcEntry>, e: SrcEntry, a: seq<bool>) returns (i: nat)
    requires IsIndex(byLen, srcs) && e in srcs && e.src.Some? && Contains(e.src.value, a)
    ensures i < |byLen| && Hits(byLen[i], a) && byLen[i].bits == |e.src.value.bits|
    ensures byLen[i].m[Masked(a, byLen[i].bits).value] == e.value
  {
    i :| 0 <= i < |byLen| && Files(byLen[i], e);
    assert e.src.value == Prefix(|a|, a[..byLen[i].bits]);
  }

  /** The indexed lookup is the ordered scan. */
  lemma ProbeAnswersLikeScan(byLen: seq<Group>, srcs: seq<SrcEntry>, a: seq<bool>)
    requires IsIndex(byLen, srcs) && SrcsOk(srcs)
    ensures Probe(byLen, a) == Scan(srcs, a)
  {
    ProbeIsTheFirstHit(byLen, a);
    ScanFindsTheLongest(srcs, a);
    if Scan(srcs, a).Some? {
      var src :| SrcEntry(Some(src), Scan(srcs, a).value) in srcs && Contains(src, a)
        && forall e | e in srcs && Accepts(e.src, a) :: Bits(e.src) <= |src.bits|;
      var k := ContainingSourceHits(byLen, srcs, SrcEntry(Some(src), Scan(srcs, a).value), a);
      var i :| 0 <= i < |byLen| && Hits(byLen[i], a)
        && Probe(byLen, a).value == byLen[i].m[Masked(a, byLen[i].bits).value]
        && forall j | 0 <= j < i :: !Hits(byLen[j], a);
      var e := HitIsASource(byLen, srcs, i, a);
      assert Accepts(e.src, a) && Bits(e.src) <= |src.bits|;
      assert i == k;
    } else if Probe(byLen, a).Some? {
      var i :| 0 <= i < |byLen| && Hits(byLen[i], a);
      var e := HitIsASource(byLen, srcs, i, a);
    }
  }

  lemma HitIsASource(byLen: seq<Group>, srcs: seq<SrcEntry>, i: nat, a: seq<bool>) returns (e: SrcEntry)
    requires IsIndex(byLen, srcs) && i < |byLen| && Hits(byLen[i], a)
    ensures e in srcs && e.src.Some? && Contains(e.src.value, a) && |e.src.value.bits| == byLen[i].bits
  {
    var p := Masked(a, byLen[i].bits).value;
    e := SrcEntry(Some(p), byLen[i].m[p]);
  }

  /** The map holds exactly the sources of one run. */
  ghost predicate HoldsRun(g: Group, srcs: seq<SrcEntry>) {
    && (forall e | e in srcs :: Files(g, e))
    && (forall p | p in g.m :: |p.bits| == g.bits && SrcEntry(Some(p), g.m[p]) in srcs)
  }

  lemma RunGrows(g: Group, srcs: seq<SrcEntry>, i: nat, end: nat)
    requires SrcsOk(srcs) && i <= end < |srcs| && HoldsRun(g, srcs[i..end])
    requires srcs[end].src.Some? && |srcs[end].src.value.bits| == g.bits
    ensures HoldsRun(Group(g.bits, g.m[srcs[end].src.value := srcs[end].value]), srcs[i..end + 1])
  {
    var e, run := srcs[end], srcs[i..end];
    assert srcs[i..end + 1] == run + [e];
    forall x | x in run ensures x.src != e.src {
      var k :| 0 <= k < |run| && run[k] == x;
      assert srcs[i + k] == x;
    }
  }

  /** One more run at the end of an index. */
  lemma IndexGrows(byLen: seq<Group>, srcs: seq<SrcEntry>, at: nat, g: Group, end: nat)
    requires at <= end <= |srcs| && IsIndex(byLen, srcs[..at]) && HoldsRun(g, srcs[at..end])
    requires forall i | 0 <= i < |byLen| :: byLen[i].bits > g.bits
    ensures IsIndex(byLen + [g], srcs[..end])
  {
    var more, before, run := byLen + [g], srcs[..at], srcs[at..end];
    assert srcs[..end] == before + run;
    forall e: SrcEntry | e in before + run && e.src.Some? ensures exists i :: 0 <= i < |more| && Files(more[i], e) {
      if e in before {
        var i :| 0 <= i < |byLen| && Files(byLen[i], e);
        assert Files(more[i], e);
      } else {
        assert Files(more[|byLen|], e);
      }
    }
  }

  lemma IndexIgnoresAny(byLen: seq<Group>, srcs: seq<SrcEntry>, at: nat)
    requires at < |srcs| && IsIndex(byLen, srcs[..at]) && srcs[at].src.None?
    ensures IsIndex(byLen, srcs[..at + 1])
  {
    assert srcs[..at + 1] == srcs[..at] + [srcs[at]];
  }

  ghost function Lengths(srcs: seq<SrcEntry>): set<int> {
    set i | 0 <= i < |srcs| && srcs[i].src.Some? :: Bits(srcs[i].src)
  }

  ghost function Specific(srcs: seq<SrcEntry>): set<int> {
    set i | 0 <= i < |srcs| && srcs[i].src.Some?
  }

  lemma OneMoreSource(srcs: seq<SrcEntry>, i: nat)
    requires Ordered(srcs) && i < |srcs|
    ensures srcs[i].src.None? ==>
              Lengths(srcs[..i + 1]) == Lengths(srcs[..i]) && Specific(srcs[..i + 1]) == Specific(srcs[..i])
    ensures srcs[i].src.Some? ==>
              && Lengths(srcs[..i + 1]) == Lengths(srcs[..i]) + {Bits(srcs[i].src)}
              && Specific(srcs[..i + 1]) == Specific(srcs[..i]) + {i}
    ensures srcs[i].src.Some? ==>
              (Bits(srcs[i].src) in Lengths(srcs[..i]) <==> i > 0 && Bits(srcs[i - 1].src) == Bits(srcs[i].src))
  {
    var before, after := srcs[..i], srcs[..i + 1];
    assert after == before + [srcs[i]];
    if srcs[i].src.Some? {
      assert after[i] == srcs[i];
      forall b ensures b in Lengths(after) <==> b in Lengths(before) || b == Bits(srcs[i].src) {
        if b in Lengths(before) {
          var k :| 0 <= k < |before| && before[k].src.Some? && Bits(before[k].src) == b;
          assert after[k] == before[k];
        }
      }
      if i > 0 && Bits(srcs[i - 1].src) == Bits(srcs[i].src) {
        assert before[i - 1] == srcs[i - 1];
      }
    }
  }

  lemma OneMoreCount(srcs: seq<SrcEntry>, i: nat)
    requires Ordered(srcs) && i < |srcs|
    ensures |Specific(srcs[..i + 1])| == |Specific(srcs[..i])| + (if srcs[i].src.Some? then 1 else 0)
    ensures |Lengths(srcs[..i + 1])| == |Lengths(srcs[..i])| +
              (if srcs[i].src.Some? && (i == 0 || Bits(srcs[i - 1].src) != Bits(srcs[i].src)) then 1 else 0)
  {
    OneMoreSource(srcs, i);
    assert i !in Specific(srcs[..i]);
    if srcs[i].src.Some? && Bits(srcs[i].src) in Lengths(srcs[..i]) {
      assert Lengths(srcs[..i]) + {Bits(srcs[i].src)} == Lengths(srcs[..i]);
    }
  }

  /** How many specific sources there are, and over how many lengths. */
  method CountRuns(srcs: seq<SrcEntry>) returns (specific: nat, runs: nat)
    requires Ordered(srcs)
    ensures specific == |Specific(srcs)| && runs == |Lengths(srcs)|
  {
    specific, runs := 0, 0;
    for i := 0 to |srcs|
      invariant specific == |Specific(srcs[..i])| && runs == |Lengths(srcs[..i])|
    {
      OneMoreCount(srcs, i);
      if srcs[i].src.Some? {
        specific := specific + 1;
        if i == 0 || Bits(srcs[i - 1].src) != Bits(srcs[i].src) {
          runs := runs + 1;
        }
      }
    }
    assert srcs[..|srcs|] == srcs;
  }

  /** An index where lengths carry enough sources each for maps to pay. */
  method IndexSrcs(srcs: seq<SrcEntry>) returns (byLen: Option<seq<Group>>)
    requires SrcsOk(srcs)
    ensures byLen.Some? <==> |Lengths(srcs)| > 0 && |Specific(srcs)| >= |Lengths(srcs)| * INDEX_THRESHOLD
    ensures byLen.Some? ==> IsIndex(byLen.value, srcs)
  {
    var specific, runs := CountRuns(srcs);
    if runs == 0 || specific < runs * INDEX_THRESHOLD {
      return None;
    }
    var groups := BuildGroups(srcs);
    return Some(groups);
  }

  method BuildGroups(srcs: seq<SrcEntry>) returns (groups: seq<Group>)
    requires SrcsOk(srcs)
    ensures IsIndex(groups, srcs)
  {
    groups := [];
    var i := 0;
    while i < |srcs|
      invariant 0 <= i <= |srcs|
      invariant IsIndex(groups, srcs[..i])
      invariant forall k, j | 0 <= k < |groups| && i <= j < |srcs| :: groups[k].bits > Bits(srcs[j].src)
    {
      if srcs[i].src.None? {
        IndexIgnoresAny(groups, srcs, i);
        i := i + 1;
      } else {
        var g, end := BuildGroup(srcs, i);
        IndexGrows(groups, srcs, i, g, end);
        groups, i := groups + [g], end;
      }
    }
    assert srcs[..i] == srcs;
  }

  /** The run of one length that starts at `i`. */
  method BuildGroup(srcs: seq<SrcEntry>, i: nat) returns (g: Group, end: nat)
    requires SrcsOk(srcs) && i < |srcs| && srcs[i].src.Some?
    ensures i < end <= |srcs| && g.bits == |srcs[i].src.value.bits| && HoldsRun(g, srcs[i..end])
    ensures forall j | end <= j < |srcs| :: g.bits > Bits(srcs[j].src)
  {
    var bits := |srcs[i].src.value.bits|;
    var m: map<Prefix, Value> := map[];
    end := i;
    while end < |srcs| && srcs[end].src.Some? && |srcs[end].src.value.bits| == bits
      invariant i <= end <= |srcs| && Bits(srcs[if end == i then i else end - 1].src) == bits
      invariant HoldsRun(Group(bits, m), srcs[i..end])
    {
      RunGrows(Group(bits, m), srcs, i, end);
      m := m[srcs[end].src.value := srcs[end].value];
      end := end + 1;
    }
    RestIsShorter(srcs, end - 1, bits);
    g := Group(bits, m);
  }

  lemma RestIsShorter(srcs: seq<SrcEntry>, last: nat, bits: nat)
    requires SrcsOk(srcs) && last < |srcs| && Bits(srcs[last].src) == bits
    requires last + 1 < |srcs| ==> srcs[last + 1].src == None || |srcs[last + 1].src.value.bits| != bits
    ensures forall j | last + 1 <= j < |srcs| :: bits > Bits(srcs[j].src)
  {
    forall j | last + 1 <= j < |srcs|
      ensures bits > Bits(srcs[j].src)
    {
      assert Bits(srcs[last].src) >= Bits(srcs[last + 1].src);
      assert j > last + 1 ==> Bits(srcs[last + 1].src) >= Bits(srcs[j].src);
    }
  }
}
