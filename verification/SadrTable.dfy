/** Source-address-dependent lookup: destination first, over source and
    destination pairs, against the naive answer. */
module SadrTable {
  import opened SadrBits
  import opened SadrSources
  import opened SadrTrie
  import opened SadrIndex
  import opened Wrappers

  // ----- the walk -----

  /** The answer from destinations shorter than `lo`, the longest first. */
  ghost function BestBelow(t: Trie, a: Address, src: seq<bool>, lo: nat): Option<Value>
    requires Valid(t) && lo <= 129
  {
    if lo == 0 then None
    else if Pick(SrcsAt(t, a[..lo - 1]), src).Some? then Pick(SrcsAt(t, a[..lo - 1]), src)
    else BestBelow(t, a, src, lo - 1)
  }

  lemma {:induction false} NothingBetween(t: Trie, a: Address, src: seq<bool>, lo: nat, hi: nat)
    requires Valid(t) && lo <= hi <= 129
    requires forall m | lo <= m < hi :: SrcsAt(t, a[..m]) == []
    ensures BestBelow(t, a, src, hi) == BestBelow(t, a, src, lo)
    decreases hi
  {
    if lo >= hi {
    } else {
      NothingBetween(t, a, src, lo, hi - 1);
    }
  }

  /** Below a prefix the walk has reached, the rest of the trie does not count. */
  ghost predicate Reached(t: Trie, cur: Trie, a: Address, lo: nat)
    requires Valid(t)
  {
    && Valid(cur) && lo <= 128 && Under(cur, a[..lo])
    && forall m | lo <= m <= 128 :: SrcsAt(t, a[..m]) == SrcsAt(cur, a[..m])
  }

  lemma StepDown(t: Trie, cur: Trie, a: Address, lo: nat)
    requires Valid(t) && Reached(t, cur, a, lo) && cur.Node? && cur.address[..cur.prefixLen] == a[..cur.prefixLen]
    ensures forall m | lo <= m < cur.prefixLen :: SrcsAt(t, a[..m]) == []
    ensures SrcsAt(t, a[..cur.prefixLen]) == cur.srcs
    ensures cur.prefixLen < 128 ==> Reached(t, cur.Child(a[cur.prefixLen]), a, cur.prefixLen + 1)
  {
    var n := cur.prefixLen;
    assert a[..n][..n] == a[..n];
    if n < 128 {
      ChildReached(cur, a);
    }
  }

  lemma ChildReached(cur: Trie, a: Address)
    requires cur.Node? && Valid(cur) && cur.prefixLen < 128 && cur.address[..cur.prefixLen] == a[..cur.prefixLen]
    ensures Reached(cur, cur.Child(a[cur.prefixLen]), a, cur.prefixLen + 1)
  {
    var n := cur.prefixLen;
    assert cur.address[..n] + [a[n]] == a[..n + 1];
    forall m | n + 1 <= m <= 128 ensures SrcsAt(cur, a[..m]) == SrcsAt(cur.Child(a[n]), a[..m]) {
      assert a[..m][..n] == a[..n] && a[..m][n] == a[n];
    }
  }

  lemma WalkEnds(t: Trie, cur: Trie, a: Address, src: seq<bool>, lo: nat)
    requires Valid(t) && Reached(t, cur, a, lo)
    requires cur.Nil? || cur.address[..cur.prefixLen] != a[..cur.prefixLen]
    ensures BestBelow(t, a, src, 129) == BestBelow(t, a, src, lo)
  {
    forall m | lo <= m < 129 ensures SrcsAt(t, a[..m]) == [] {
      if cur.Node? && m >= cur.prefixLen {
        assert a[..m][..cur.prefixLen] == a[..cur.prefixLen];
      }
    }
    NothingBetween(t, a, src, lo, 129);
  }

  /** One node's answer, through the index where there is one. */
  method PickAt(srcs: seq<SrcEntry>, src: seq<bool>) returns (r: Option<Value>)
    requires SrcsOk(srcs)
    ensures r == Pick(srcs, src)
  {
    var byLen := IndexSrcs(srcs);
    if byLen.Some? {
      ProbeAnswersLikeScan(byLen.value, srcs, src);
      r := ProbeGroups(byLen.value, src);
    } else {
      r := ScanSources(srcs, src);
    }
    if r.None? {
      r := ValueOf(srcs, None);
    }
  }

  method ProbeGroups(byLen: seq<Group>, src: seq<bool>) returns (r: Option<Value>)
    ensures r == Probe(byLen, src)
  {
    var i := 0;
    while i < |byLen|
      invariant 0 <= i <= |byLen| && Probe(byLen, src) == Probe(byLen[i..], src)
    {
      var p := Masked(src, byLen[i].bits);
      assert byLen[i..][1..] == byLen[i + 1..];
      if p.Some? && p.value in byLen[i].m {
        return Some(byLen[i].m[p.value]);
      }
      i := i + 1;
    }
    return None;
  }

  method ScanSources(srcs: seq<SrcEntry>, src: seq<bool>) returns (r: Option<Value>)
    ensures r == Scan(srcs, src)
  {
    var i := 0;
    while i < |srcs|
      invariant 0 <= i <= |srcs| && Scan(srcs, src) == Scan(srcs[i..], src)
    {
      assert srcs[i..][1..] == srcs[i + 1..];
      if srcs[i].src.Some? && Contains(srcs[i].src.value, src) {
        return Some(srcs[i].value);
      }
      i := i + 1;
    }
    return None;
  }

  /** The walk down one root: a deeper match overwrites a shallower one. */
  method LookupFrom(t: Trie, src: seq<bool>, a: Address) returns (result: Option<Value>)
    requires Valid(t)
    ensures result == BestBelow(t, a, src, 129)
  {
    result := None;
    var hi, lo := Hi(a), Lo(a);
    var cur := t;
    ghost var depth: nat := 0;
    while cur.Node? && Matches(cur.address, cur.prefixLen, hi, lo)
      invariant Reached(t, cur, a, depth)
      invariant result == BestBelow(t, a, src, depth)
      decreases cur
    {
      MatchesIsPrefix(cur.address, cur.prefixLen, a);
      StepDown(t, cur, a, depth);
      NothingBetween(t, a, src, depth, cur.prefixLen);
      var here := PickAt(cur.srcs, src);
      if here.Some? {
        result := here;
      }
      if cur.prefixLen == 128 {
        return;
      }
      depth := cur.prefixLen + 1;
      cur := cur.Child(a[cur.prefixLen]);
    }
    if cur.Node? {
      MatchesIsPrefix(cur.address, cur.prefixLen, a);
    }
    WalkEnds(t, cur, a, src, depth);
  }

  // ----- the table -----

  /** A prefix as a caller passes it: unmasked, and possibly invalid. */
  datatype Net = Net(addr: seq<bool>, len: int) {
    predicate IsValid() {
      (|addr| == 32 || |addr| == 128) && 0 <= len <= |addr|
    }

    /** The masked prefix; an invalid source matches everything. */
    function Source(): Option<Prefix> {
      if IsValid() then Some(Prefix(|addr|, addr[..len])) else None
    }
  }

  /** IPv4 is held in its mapped form. */
  function Mapped(): (m: seq<bool>)
    ensures |m| == 96
  {
    seq(96, i => i >= 80)
  }

  function As16(addr: seq<bool>): Address
    requires |addr| == 32 || |addr| == 128
  {
    if |addr| == 32 then Mapped() + addr else addr
  }

  datatype Roots = Roots(ipv4: Trie, ipv6: Trie)

  ghost predicate RootsOk(r: Roots) {
    Valid(r.ipv4) && Under(r.ipv4, Mapped()) && Valid(r.ipv6)
  }

  function Held(r: Roots, width: nat, d: seq<bool>): seq<SrcEntry>
    requires RootsOk(r)
  {
    if width == 32 then SrcsAt(r.ipv4, Mapped() + d) else if width == 128 then SrcsAt(r.ipv6, d) else []
  }

  /** The value held for one source and destination pair. */
  function Get(r: Roots, width: nat, d: seq<bool>, src: Option<Prefix>): Option<Value>
    requires RootsOk(r)
  {
    ValueOf(Held(r, width, d), src)
  }

  predicate ValidPair(src: Net, dst: Net) {
    dst.IsValid() && (!src.IsValid() || |src.addr| == |dst.addr|)
  }

  function Changed(r: Roots, dst: Net, c: Change): Roots
    requires RootsOk(r) && dst.IsValid()
  {
    if |dst.addr| == 32 then r.(ipv4 := Edit(r.ipv4, As16(dst.addr), dst.len + 96, c))
    else r.(ipv6 := Edit(r.ipv6, As16(dst.addr), dst.len, c))
  }

  lemma HeldIsOk(r: Roots, width: nat, d: seq<bool>)
    requires RootsOk(r)
    ensures SrcsOk(Held(r, width, d))
  {
    if width == 32 {
      SrcsAtIsOk(r.ipv4, Mapped() + d);
    } else if width == 128 {
      SrcsAtIsOk(r.ipv6, d);
    }
  }

  lemma {:induction false} SrcsAtIsOk(t: Trie, d: seq<bool>)
    requires Valid(t)
    ensures SrcsOk(SrcsAt(t, d))
  {
    if !t.Node? || |d| <= t.prefixLen {
    } else {
      SrcsAtIsOk(t.Child(d[t.prefixLen]), d);
    }
  }

  lemma SameMembersSameValue(x: seq<SrcEntry>, y: seq<SrcEntry>, src: Option<Prefix>)
    requires Distinct(x) && Distinct(y) && forall v :: SrcEntry(src, v) in x <==> SrcEntry(src, v) in y
    ensures ValueOf(x, src) == ValueOf(y, src)
  {
    if ValueOf(x, src).Some? {
      ValueOfIsMembership(x, src, ValueOf(x, src).value);
      ValueOfIsMembership(y, src, ValueOf(x, src).value);
    } else if ValueOf(y, src).Some? {
      ValueOfIsMembership(y, src, ValueOf(y, src).value);
      ValueOfIsMembership(x, src, ValueOf(y, src).value);
    }
  }

  lemma ChangeHeld(r: Roots, dst: Net, c: Change, width: nat, d: seq<bool>)
    requires RootsOk(r) && dst.IsValid()
    ensures RootsOk(Changed(r, dst, c))
    ensures Held(Changed(r, dst, c), width, d) ==
            if width == |dst.addr| && d == dst.addr[..dst.len] then Apply(c, Held(r, width, d)) else Held(r, width, d)
  {
    if |dst.addr| == 32 {
      var target := As16(dst.addr)[..dst.len + 96];
      assert target == Mapped() + dst.addr[..dst.len];
      EditChangesOneDestination(r.ipv4, As16(dst.addr), dst.len + 96, c, Mapped(), Mapped() + d);
      assert Mapped() + d == target <==> d == dst.addr[..dst.len] by {
        assert (Mapped() + d)[96..] == d && target[96..] == dst.addr[..dst.len];
      }
    } else {
      EditChangesOneDestination(r.ipv6, As16(dst.addr), dst.len, c, [], d);
    }
  }

  /** A change writes the value of one pair and leaves every other. */
  lemma ChangeWritesOnePair(r: Roots, dst: Net, c: Change, width: nat, d: seq<bool>, src: Option<Prefix>)
    requires RootsOk(r) && dst.IsValid()
    ensures RootsOk(Changed(r, dst, c))
    ensures Get(Changed(r, dst, c), width, d, src) ==
            if width == |dst.addr| && d == dst.addr[..dst.len] && src == c.src
            then (if c.Put? then Some(c.value) else None) else Get(r, width, d, src)
  {
    ChangeHeld(r, dst, c, width, d);
    HeldIsOk(r, width, d);
    var before, after := Held(r, width, d), Held(Changed(r, dst, c), width, d);
    if width == |dst.addr| && d == dst.addr[..dst.len] {
      ApplyChangesOneSource(c, before);
      if src != c.src {
        SameMembersSameValue(after, before, src);
      } else if c.Put? {
        ValueOfIsMembership(after, src, c.value);
      } else if ValueOf(after, src).Some? {
        ValueOfIsMembership(after, src, ValueOf(after, src).value);
      }
    }
  }

  function Removed(r: Roots, value: Value): Roots {
    Roots(RemoveValue(r.ipv4, value), RemoveValue(r.ipv6, value))
  }

  /** Exactly the pairs with that value go. */
  lemma RemovalDropsOneValue(r: Roots, value: Value, width: nat, d: seq<bool>, src: Option<Prefix>)
    requires RootsOk(r)
    ensures RootsOk(Removed(r, value))
    ensures Get(Removed(r, value), width, d, src) ==
            if Get(r, width, d, src) == Some(value) then None else Get(r, width, d, src)
  {
    RemoveValueFilters(r.ipv4, value, Mapped(), Mapped() + d);
    RemoveValueFilters(r.ipv6, value, [], d);
    HeldIsOk(r, width, d);
    var before, after := Held(r, width, d), Held(Removed(r, value), width, d);
    assert after == Without(before, value);
    WithoutKeepsOrder(before, value);
    if ValueOf(before, src).Some? {
      var v := ValueOf(before, src).value;
      ValueOfIsMembership(before, src, v);
      WithoutMembers(before, value, SrcEntry(src, v));
      ValueOfIsMembership(after, src, v);
    }
    if ValueOf(after, src).Some? {
      var v := ValueOf(after, src).value;
      ValueOfIsMembership(after, src, v);
      WithoutMembers(before, value, SrcEntry(src, v));
      ValueOfIsMembership(before, src, v);
    }
  }

  // ----- the naive answer -----

  ghost predicate Candidate(r: Roots, width: nat, d: seq<bool>, from: Option<Prefix>, src: seq<bool>, dst: seq<bool>)
    requires RootsOk(r)
  {
    Get(r, width, d, from).Some? && d <= dst && Accepts(from, src)
  }

  predicate AtLeast(d: seq<bool>, from: Option<Prefix>, e: seq<bool>, other: Option<Prefix>) {
    |e| < |d| || (|e| == |d| && Bits(other) <= Bits(from))
  }

  /** Over every live pair: the longest matching destination that has a matching
      source, then its longest matching source, the match-all source last. */
  ghost predicate Answers(r: Roots, src: seq<bool>, dst: seq<bool>, result: Option<Value>)
    requires RootsOk(r)
  {
    match result
    case None => forall d, from :: !Candidate(r, |dst|, d, from, src, dst)
    case Some(v) =>
      exists d, from :: Candidate(r, |dst|, d, from, src, dst) && Get(r, |dst|, d, from) == Some(v)
        && forall e, other | Candidate(r, |dst|, e, other, src, dst) :: AtLeast(d, from, e, other)
  }

  ghost predicate DeepestMatch(t: Trie, a: Address, src: seq<bool>, lo: nat, n: nat, best: Option<Value>)
    requires Valid(t) && lo <= 129
  {
    && n < lo && Pick(SrcsAt(t, a[..n]), src) == best
    && forall m | n < m < lo :: Pick(SrcsAt(t, a[..m]), src).None?
  }

  lemma {:induction false} BestBelowIsLongest(t: Trie, a: Address, src: seq<bool>, lo: nat)
    requires Valid(t) && lo <= 129
    ensures var best := BestBelow(t, a, src, lo);
            && (best.None? ==> forall m | 0 <= m < lo :: Pick(SrcsAt(t, a[..m]), src).None?)
            && (best.Some? ==> exists n :: DeepestMatch(t, a, src, lo, n, best))
  {
    if lo == 0 {
    } else {
      BestBelowIsLongest(t, a, src, lo - 1);
      var best := BestBelow(t, a, src, lo);
      if Pick(SrcsAt(t, a[..lo - 1]), src).Some? {
        assert DeepestMatch(t, a, src, lo, lo - 1, best);
      } else if best.Some? {
        var n :| DeepestMatch(t, a, src, lo - 1, n, best);
        assert DeepestMatch(t, a, src, lo, n, best);
      }
    }
  }

  /** A destination prefix of the address, seen in the trie and in the family. */
  lemma PrefixInTheTrie(r: Roots, dst: seq<bool>, n: nat)
    requires RootsOk(r) && (|dst| == 32 || |dst| == 128) && n <= 128
    ensures var t := if |dst| == 32 then r.ipv4 else r.ipv6;
            var short := n - (128 - |dst|);
            if short < 0 then SrcsAt(t, As16(dst)[..n]) == []
            else SrcsAt(t, As16(dst)[..n]) == Held(r, |dst|, dst[..short])
  {
    if |dst| == 32 {
      if n < 96 {
        NothingOutside(r.ipv4, Mapped(), As16(dst)[..n]);
      } else {
        assert As16(dst)[..n] == Mapped() + dst[..n - 96];
      }
    }
  }

  /** What a pick among one destination's sources says about its pairs. */
  lemma PickMeansPairs(srcs: seq<SrcEntry>, src: seq<bool>)
    requires SrcsOk(srcs)
    ensures Pick(srcs, src).None? ==> forall from :: ValueOf(srcs, from).Some? ==> !Accepts(from, src)
    ensures Pick(srcs, src).Some? ==>
              exists from :: ValueOf(srcs, from) == Pick(srcs, src) && Accepts(from, src)
                && forall other | ValueOf(srcs, other).Some? && Accepts(other, src) :: Bits(other) <= Bits(from)
  {
    PickIsTheLongest(srcs, src);
    forall from | ValueOf(srcs, from).Some? ensures SrcEntry(from, ValueOf(srcs, from).value) in srcs {
      ValueOfIsMembership(srcs, from, ValueOf(srcs, from).value);
    }
    if Pick(srcs, src).Some? {
      var v := Pick(srcs, src).value;
      var from :| SrcEntry(from, v) in srcs && Accepts(from, src)
        && forall e | e in srcs && Accepts(e.src, src) :: Bits(e.src) <= Bits(from);
      ValueOfIsMembership(srcs, from, v);
    }
  }

  lemma DeepestMatchAnswers(r: Roots, src: seq<bool>, dst: seq<bool>, n: nat, best: Option<Value>)
    requires RootsOk(r) && (|dst| == 32 || |dst| == 128) && best.Some?
    requires DeepestMatch(if |dst| == 32 then r.ipv4 else r.ipv6, As16(dst), src, 129, n, best)
    ensures Answers(r, src, dst, best)
  {
    var base := 128 - |dst|;
    PrefixInTheTrie(r, dst, n);
    assert n >= base;
    var d := dst[..n - base];
    HeldIsOk(r, |dst|, d);
    PickMeansPairs(Held(r, |dst|, d), src);
    var from :| Get(r, |dst|, d, from) == best && Accepts(from, src)
      && forall other | Get(r, |dst|, d, other).Some? && Accepts(other, src) :: Bits(other) <= Bits(from);
    forall e, other | Candidate(r, |dst|, e, other, src, dst) ensures AtLeast(d, from, e, other) {
      NoPairHere(r, src, dst, e, other);
      if |e| == |d| {
        assert e == d;
      }
    }
    assert Candidate(r, |dst|, d, from, src, dst);
  }

  /** The walk's answer is the naive one. */
  lemma WalkAnswersNaively(r: Roots, src: seq<bool>, dst: seq<bool>)
    requires RootsOk(r) && (|dst| == 32 || |dst| == 128)
    ensures Answers(r, src, dst, BestBelow(if |dst| == 32 then r.ipv4 else r.ipv6, As16(dst), src, 129))
  {
    var t := if |dst| == 32 then r.ipv4 else r.ipv6;
    var best := BestBelow(t, As16(dst), src, 129);
    BestBelowIsLongest(t, As16(dst), src, 129);
    if best.None? {
      forall d, from ensures !Candidate(r, |dst|, d, from, src, dst) {
        if Candidate(r, |dst|, d, from, src, dst) {
          NoPairHere(r, src, dst, d, from);
        }
      }
    } else {
      var n :| DeepestMatch(t, As16(dst), src, 129, n, best);
      DeepestMatchAnswers(r, src, dst, n, best);
    }
  }

  /** A candidate is picked, or something better is, at its own destination. */
  lemma NoPairHere(r: Roots, src: seq<bool>, dst: seq<bool>, d: seq<bool>, from: Option<Prefix>)
    requires RootsOk(r) && (|dst| == 32 || |dst| == 128) && Candidate(r, |dst|, d, from, src, dst)
    ensures Pick(SrcsAt(if |dst| == 32 then r.ipv4 else r.ipv6, As16(dst)[..|d| + 128 - |dst|]), src).Some?
  {
    assert d == dst[..|d|];
    PrefixInTheTrie(r, dst, |d| + 128 - |dst|);
    HeldIsOk(r, |dst|, d);
    PickMeansPairs(Held(r, |dst|, d), src);
  }

  /** Two naive answers are the same answer. */
  lemma AnswerIsUnique(r: Roots, src: seq<bool>, dst: seq<bool>, x: Option<Value>, y: Option<Value>)
    requires RootsOk(r) && Answers(r, src, dst, x) && Answers(r, src, dst, y)
    ensures x == y
  {
    if x.Some? && y.Some? {
      var d, p :| Candidate(r, |dst|, d, p, src, dst) && Get(r, |dst|, d, p) == x
        && forall e, other | Candidate(r, |dst|, e, other, src, dst) :: AtLeast(d, p, e, other);
      var e, q :| Candidate(r, |dst|, e, q, src, dst) && Get(r, |dst|, e, q) == y
        && forall f, other | Candidate(r, |dst|, f, other, src, dst) :: AtLeast(e, q, f, other);
      assert AtLeast(d, p, e, q) && AtLeast(e, q, d, p);
      assert d == e && Bits(p) == Bits(q);
      if p.Some? {
        assert p.value.bits == src[..|p.value.bits|] == q.value.bits;
      }
    }
  }

  // ----- iteration -----

  datatype Route = Route(width: nat, dest: seq<bool>, src: Option<Prefix>, value: Value)

  function Tagged(width: nat, pairs: seq<Pair>): seq<Route> {
    var cut := if width == 32 then 96 else 0;
    seq(|pairs|, i requires 0 <= i < |pairs| =>
      Route(width, if |pairs[i].dest| < cut then [] else pairs[i].dest[cut..],
            pairs[i].entry.src, pairs[i].entry.value))
  }

  function AllRoutes(r: Roots): seq<Route> {
    Tagged(32, All(r.ipv4)) + Tagged(128, All(r.ipv6))
  }

  lemma Ipv4PairsAreMapped(r: Roots, x: Pair)
    requires RootsOk(r) && x in All(r.ipv4)
    ensures |x.dest| >= 96 && x.dest == Mapped() + x.dest[96..]
  {
    AllIsWhatIsHeld(r.ipv4, x);
    if !(Mapped() <= x.dest) {
      NothingOutside(r.ipv4, Mapped(), x.dest);
    }
  }

  lemma TaggedHolds(r: Roots, width: nat, x: Route)
    requires RootsOk(r) && (width == 32 || width == 128)
    ensures x in Tagged(width, All(if width == 32 then r.ipv4 else r.ipv6)) <==>
            x.width == width && SrcEntry(x.src, x.value) in Held(r, width, x.dest)
  {
    var t := if width == 32 then r.ipv4 else r.ipv6;
    var pairs, out := All(t), Tagged(width, All(t));
    var p := Pair(if width == 32 then Mapped() + x.dest else x.dest, SrcEntry(x.src, x.value));
    AllIsWhatIsHeld(t, p);
    if p in pairs && x.width == width {
      var i :| 0 <= i < |pairs| && pairs[i] == p;
      assert out[i] == x;
    }
    if x in out {
      var i :| 0 <= i < |out| && out[i] == x;
      assert pairs[i] in pairs;
      if width == 32 {
        Ipv4PairsAreMapped(r, pairs[i]);
      }
      assert pairs[i] == p;
    }
  }

  /** Iteration yields exactly the live pairs. */
  lemma AllRoutesAreLive(r: Roots, x: Route)
    requires RootsOk(r)
    ensures x in AllRoutes(r) <==> Get(r, x.width, x.dest, x.src) == Some(x.value)
  {
    TaggedHolds(r, 32, x);
    TaggedHolds(r, 128, x);
    HeldIsOk(r, x.width, x.dest);
    ValueOfIsMembership(Held(r, x.width, x.dest), x.src, x.value);
  }

  /** And each of them once. */
  lemma AllRoutesAreDistinct(r: Roots, i: nat, j: nat)
    requires RootsOk(r) && i < j < |AllRoutes(r)|
    ensures var x, y := AllRoutes(r)[i], AllRoutes(r)[j];
            (x.width, x.dest, x.src) != (y.width, y.dest, y.src)
  {
    var a, b := All(r.ipv4), All(r.ipv6);
    AllYieldsEachPairOnce(r.ipv4);
    AllYieldsEachPairOnce(r.ipv6);
    if j < |a| {
      assert a[i] in a && a[j] in a;
      Ipv4PairsAreMapped(r, a[i]);
      Ipv4PairsAreMapped(r, a[j]);
    } else if i >= |a| {
      assert (b[i - |a|].dest, b[i - |a|].entry.src) != (b[j - |a|].dest, b[j - |a|].entry.src);
    }
  }

  /** Writers publish new roots; the old ones are values and stay as they were. */
  class Table {
    var roots: Roots

    ghost predicate Valid()
      reads this
    {
      RootsOk(roots)
    }

    constructor ()
      ensures Valid() && forall width, d, src :: Get(roots, width, d, src) == None
    {
      roots := Roots(Nil, Nil);
    }

    /** Installs or replaces one pair; a mismatched or invalid one is ignored. */
    method Set(src: Net, dst: Net, value: Value)
      requires Valid()
      modifies this
      ensures Valid()
      ensures forall width, d, from :: Get(roots, width, d, from) ==
                if ValidPair(src, dst) && width == |dst.addr| && d == dst.addr[..dst.len] && from == src.Source()
                then Some(value) else Get(old(roots), width, d, from)
    {
      if ValidPair(src, dst) {
        forall width, d, from { ChangeWritesOnePair(roots, dst, Put(src.Source(), value), width, d, from); }
        ChangeWritesOnePair(roots, dst, Put(src.Source(), value), 0, [], None);
        roots := Changed(roots, dst, Put(src.Source(), value));
      }
    }

    method Remove(src: Net, dst: Net)
      requires Valid()
      modifies this
      ensures Valid()
      ensures forall width, d, from :: Get(roots, width, d, from) ==
                if ValidPair(src, dst) && width == |dst.addr| && d == dst.addr[..dst.len] && from == src.Source()
                then None else Get(old(roots), width, d, from)
    {
      if ValidPair(src, dst) {
        forall width, d, from { ChangeWritesOnePair(roots, dst, Delete(src.Source()), width, d, from); }
        ChangeWritesOnePair(roots, dst, Delete(src.Source()), 0, [], None);
        roots := Changed(roots, dst, Delete(src.Source()));
      }
    }

    method RemoveValue(value: Value)
      requires Valid()
      modifies this
      ensures Valid()
      ensures forall width, d, from :: Get(roots, width, d, from) ==
                if Get(old(roots), width, d, from) == Some(value) then None else Get(old(roots), width, d, from)
    {
      forall width, d, from { RemovalDropsOneValue(roots, value, width, d, from); }
      RemovalDropsOneValue(roots, value, 0, [], None);
      roots := Removed(roots, value);
    }

    /** An address that is neither IPv4 nor IPv6 finds nothing. */
    method Lookup(src: seq<bool>, dst: seq<bool>) returns (result: Option<Value>)
      requires Valid()
      ensures Answers(roots, src, dst, result)
    {
      if |dst| != 32 && |dst| != 128 {
        return None;
      }
      WalkAnswersNaively(roots, src, dst);
      result := LookupFrom(if |dst| == 32 then roots.ipv4 else roots.ipv6, src, As16(dst));
    }
  }
}
