/** The path-compressed trie over destinations: edits by path copying, and what
    it holds after them. */
module SadrTrie {
  import opened SadrBits
  import opened SadrSources

  datatype Trie = Nil | Node(address: Address, prefixLen: nat, srcs: seq<SrcEntry>, zero: Trie, one: Trie) {
    function Child(bit: bool): Trie
      requires Node?
    {
      if bit then one else zero
    }

    function WithChild(bit: bool, t: Trie): (r: Trie)
      requires Node?
      ensures r.Node?
    {
      if bit then this.(one := t) else this.(zero := t)
    }
  }

  /** Everything in `t` lies below `prefix`. */
  predicate Under(t: Trie, prefix: seq<bool>) {
    t.Nil? || (|prefix| <= t.prefixLen <= 128 && prefix <= t.address)
  }

  predicate Valid(t: Trie) {
    t.Node? ==>
      && t.prefixLen <= 128 && SrcsOk(t.srcs)
      && Under(t.zero, t.address[..t.prefixLen] + [false]) && Valid(t.zero)
      && Under(t.one, t.address[..t.prefixLen] + [true]) && Valid(t.one)
  }

  /** The sources held for one destination prefix. */
  function SrcsAt(t: Trie, d: seq<bool>): seq<SrcEntry>
    requires Valid(t)
  {
    if t.Nil? || |d| < t.prefixLen || t.address[..t.prefixLen] != d[..t.prefixLen] then []
    else if |d| == t.prefixLen then t.srcs
    else SrcsAt(t.Child(d[t.prefixLen]), d)
  }

  lemma {:induction false} NothingOutside(t: Trie, prefix: seq<bool>, d: seq<bool>)
    requires Valid(t) && Under(t, prefix) && !(prefix <= d)
    ensures SrcsAt(t, d) == []
  {
    if !t.Node? || |d| < t.prefixLen || t.address[..t.prefixLen] != d[..t.prefixLen] {
    } else {
      PrefixThrough(prefix, t.address, d, t.prefixLen);
    }
  }

  lemma PrefixThrough(prefix: seq<bool>, a: seq<bool>, d: seq<bool>, n: nat)
    requires prefix <= a && |prefix| <= n <= |a| && n <= |d| && a[..n] == d[..n]
    ensures prefix <= d
  {
    assert prefix == a[..n][..|prefix|] == d[..n][..|prefix|];
  }

  // ----- edits -----

  function Leaf(address: Address, len: nat, srcs: seq<SrcEntry>): Trie {
    Node(address, len, srcs, Nil, Nil)
  }

  /** A node without sources and with one child is not worth keeping. */
  function Compact(t: Trie): Trie
    requires t.Node?
  {
    if t.srcs == [] && t.zero.Nil? then t.one
    else if t.srcs == [] && t.one.Nil? then t.zero
    else t
  }

  function Min(a: nat, b: nat): nat {
    if a < b then a else b
  }

  function Edit(t: Trie, address: Address, len: nat, c: Change): Trie
    requires Valid(t) && len <= 128
  {
    CommonBitsBound(t, address);
    if t.Nil? then
      var srcs := Apply(c, []);
      if srcs == [] then Nil else Leaf(address, len, srcs)
    else
      var common := Min(CommonBits(t.address, address), Min(t.prefixLen, len));
      if common < t.prefixLen then
        var srcs := Apply(c, []);
        if srcs == [] then t
        else
          var parent := Leaf(address, common, []).WithChild(t.address[common], t);
          if common == len then parent.(srcs := srcs)
          else parent.WithChild(address[common], Leaf(address, len, srcs))
      else if t.prefixLen == len then Compact(t.(srcs := Apply(c, t.srcs)))
      else
        var bit := address[t.prefixLen];
        Compact(t.WithChild(bit, Edit(t.Child(bit), address, len, c)))
  }

  lemma CommonBitsBound(t: Trie, address: Address)
    ensures t.Node? ==> CommonBits(t.address, address) <= 128
  {
    if t.Node? {
      CommonBitsIsLongest(t.address, address);
    }
  }

  lemma CompactKeeps(t: Trie, prefix: seq<bool>, d: seq<bool>)
    requires t.Node? && Valid(t) && Under(t, prefix)
    ensures Valid(Compact(t)) && Under(Compact(t), prefix)
    ensures SrcsAt(Compact(t), d) == SrcsAt(t, d)
  {
    if t.srcs == [] && (t.zero.Nil? || t.one.Nil?) {
      var bit := t.zero.Nil?;
      var branch := t.address[..t.prefixLen] + [bit];
      var child := t.Child(bit);
      assert Under(child, branch);
      assert prefix <= t.address[..t.prefixLen] <= branch;
      if !(branch <= d) {
        NothingOutside(child, branch, d);
      } else {
        assert d[..t.prefixLen] == branch[..t.prefixLen] == t.address[..t.prefixLen];
        assert d[t.prefixLen] == branch[t.prefixLen] == bit;
      }
    }
  }

  /** What an edit means: one destination's sources change, no other's do. */
  ghost predicate IsEdit(t: Trie, t': Trie, target: seq<bool>, c: Change, d: seq<bool>)
    requires Valid(t)
  {
    && Valid(t')
    && SrcsAt(t', d) == if d == target then Apply(c, SrcsAt(t, d)) else SrcsAt(t, d)
  }

  lemma NextBit(base: seq<bool>, d: seq<bool>)
    requires |base| < |d| && base <= d
    ensures base + [d[|base|]] <= d
  {
  }

  lemma LeafHolds(address: Address, len: nat, srcs: seq<SrcEntry>, d: seq<bool>)
    requires len <= 128 && SrcsOk(srcs)
    ensures Valid(Leaf(address, len, srcs))
    ensures SrcsAt(Leaf(address, len, srcs), d) == if d == address[..len] then srcs else []
  {
    if |d| == len {
      assert d[..len] == d;
    }
  }

  /** A parent where the addresses part, over the old node and the new sources. */
  function Fork(t: Trie, address: Address, len: nat, srcs: seq<SrcEntry>, common: nat): Trie
    requires t.Node? && common < 128
  {
    Leaf(address, common, []).WithChild(t.address[common], t).WithChild(address[common], Leaf(address, len, srcs))
  }

  ghost predicate Parts(t: Trie, address: Address, len: nat, common: nat) {
    && t.Node? && Valid(t) && common < len <= 128 && common < t.prefixLen
    && t.address[..common] == address[..common] && t.address[common] != address[common]
  }

  lemma ForkIsValid(t: Trie, address: Address, len: nat, srcs: seq<SrcEntry>, common: nat)
    requires Parts(t, address, len, common) && SrcsOk(srcs)
    ensures Valid(Fork(t, address, len, srcs, common))
  {
    assert address[..common] + [address[common]] == address[..common + 1];
    assert address[..common] + [t.address[common]] == t.address[..common + 1];
  }

  /** The old node holds nothing on the new address's side. */
  lemma NothingAcross(t: Trie, address: Address, len: nat, common: nat, d: seq<bool>)
    requires Parts(t, address, len, common) && !(t.address[..common + 1] <= d)
    ensures SrcsAt(t, d) == []
  {
    NothingOutside(t, t.address[..common + 1], d);
  }

  /** The fork holds what both of its sides hold. */
  lemma ForkHolds(t: Trie, address: Address, len: nat, srcs: seq<SrcEntry>, common: nat, d: seq<bool>)
    requires Parts(t, address, len, common) && SrcsOk(srcs)
    ensures var out := Fork(t, address, len, srcs, common);
            && Valid(out)
            && SrcsAt(out, d) == (if d == address[..len] then srcs else SrcsAt(t, d))
            && SrcsAt(t, address[..len]) == []
  {
    ForkIsValid(t, address, len, srcs, common);
    assert address[..len][common] == address[common] && t.address[..common + 1][common] == t.address[common];
    NothingAcross(t, address, len, common, address[..len]);
    LeafHolds(address, len, srcs, d);
    ForkAt(t, address, len, srcs, common, d);
  }

  lemma ForkAt(t: Trie, address: Address, len: nat, srcs: seq<SrcEntry>, common: nat, d: seq<bool>)
    requires Parts(t, address, len, common) && SrcsOk(srcs) && Valid(Fork(t, address, len, srcs, common))
    ensures var side := if |d| > common && d[common] == address[common] then Leaf(address, len, srcs) else t;
            SrcsAt(Fork(t, address, len, srcs, common), d) == SrcsAt(side, d)
  {
    assert t.address[..common + 1][..common] == address[..common] && address[..len][..common] == address[..common];
    if |d| <= common || d[..common] != address[..common] {
      if t.address[..common + 1] <= d {
        StartsAlike(t.address[..common + 1], d, common);
        assert false;
      }
      NothingAcross(t, address, len, common, d);
      LeafHolds(address, len, srcs, d);
    }
  }

  lemma StartsAlike(p: seq<bool>, d: seq<bool>, n: nat)
    requires n < |p| && p <= d
    ensures |d| > n && d[..n] == p[..n]
  {}

  /** The new destination lies above the node, and becomes its parent. */
  lemma AboveHolds(t: Trie, address: Address, len: nat, srcs: seq<SrcEntry>, d: seq<bool>)
    requires t.Node? && Valid(t) && len < t.prefixLen && SrcsOk(srcs)
    requires t.address[..len] == address[..len]
    ensures var out := Leaf(address, len, srcs).WithChild(t.address[len], t);
            && Valid(out)
            && SrcsAt(out, d) == (if d == address[..len] then srcs else SrcsAt(t, d))
            && SrcsAt(t, address[..len]) == []
  {
    var there := address[..len] + [t.address[len]];
    assert there == t.address[..len + 1];
    if there <= d {
      assert d[..len] == there[..len] && d[len] == there[len];
    } else {
      NothingOutside(t, there, d);
      if |d| > len && d[..len] == address[..len] {
        NextBit(address[..len], d);
      }
    }
    if |d| == len {
      assert d[..len] == d;
    }
  }

  lemma SplitIsEdit(t: Trie, address: Address, len: nat, c: Change, d: seq<bool>)
    requires t.Node? && Valid(t) && len <= 128
    requires Min(CommonBits(t.address, address), Min(t.prefixLen, len)) < t.prefixLen
    ensures IsEdit(t, Edit(t, address, len, c), address[..len], c, d)
  {
    var common := Min(CommonBits(t.address, address), Min(t.prefixLen, len));
    CommonBitsIsLongest(t.address, address);
    ApplyChangesOneSource(c, []);
    var all := CommonBits(t.address, address);
    assert t.address[..common] == t.address[..all][..common] == address[..all][..common] == address[..common];
    if common == len {
      AboveHolds(t, address, len, Apply(c, []), d);
    } else {
      ForkHolds(t, address, len, Apply(c, []), common, d);
    }
  }

  /** A change below the node changes nothing beside it. */
  lemma DescendIsEdit(t: Trie, bit: bool, child: Trie, target: seq<bool>, c: Change, d: seq<bool>)
    requires t.Node? && Valid(t) && t.prefixLen < |target| && t.address[..t.prefixLen] == target[..t.prefixLen]
    requires bit == target[t.prefixLen]
    requires Valid(child) && Under(child, t.address[..t.prefixLen] + [bit]) && IsEdit(t.Child(bit), child, target, c, d)
    ensures Valid(t.WithChild(bit, child))
    ensures IsEdit(t, t.WithChild(bit, child), target, c, d)
  {
  }

  lemma BelowIsEdit(t: Trie, bit: bool, child: Trie, target: seq<bool>, c: Change, prefix: seq<bool>, d: seq<bool>)
    requires t.Node? && Valid(t) && t.prefixLen < |target| && t.address[..t.prefixLen] == target[..t.prefixLen]
    requires bit == target[t.prefixLen] && Under(t, prefix)
    requires Valid(child) && Under(child, t.address[..t.prefixLen] + [bit]) && IsEdit(t.Child(bit), child, target, c, d)
    ensures IsEdit(t, Compact(t.WithChild(bit, child)), target, c, d) && Under(Compact(t.WithChild(bit, child)), prefix)
  {
    DescendIsEdit(t, bit, child, target, c, d);
    CompactKeeps(t.WithChild(bit, child), prefix, d);
  }

  lemma SourcesReplaced(t: Trie, srcs: seq<SrcEntry>, d: seq<bool>)
    requires t.Node? && Valid(t) && SrcsOk(srcs)
    ensures Valid(t.(srcs := srcs))
    ensures SrcsAt(t.(srcs := srcs), d) == if d == t.address[..t.prefixLen] then srcs else SrcsAt(t, d)
    ensures SrcsAt(t, t.address[..t.prefixLen]) == t.srcs
  {
    if |d| == t.prefixLen {
      assert d[..t.prefixLen] == d;
    }
    assert t.address[..t.prefixLen][..t.prefixLen] == t.address[..t.prefixLen];
  }

  lemma HereIsEdit(t: Trie, c: Change, prefix: seq<bool>, d: seq<bool>)
    requires t.Node? && Valid(t) && Under(t, prefix)
    ensures var t' := Compact(t.(srcs := Apply(c, t.srcs)));
            IsEdit(t, t', t.address[..t.prefixLen], c, d) && Under(t', prefix)
  {
    ApplyChangesOneSource(c, t.srcs);
    SourcesReplaced(t, Apply(c, t.srcs), d);
    CompactKeeps(t.(srcs := Apply(c, t.srcs)), prefix, d);
  }

  /** One edit changes the sources of its destination and of no other. */
  lemma {:induction false} EditChangesOneDestination(t: Trie, address: Address, len: nat, c: Change,
                                                     prefix: seq<bool>, d: seq<bool>)
    requires Valid(t) && len <= 128 && Under(t, prefix) && prefix <= address[..len]
    ensures IsEdit(t, Edit(t, address, len, c), address[..len], c, d)
    ensures Under(Edit(t, address, len, c), prefix)
  {
    if t.Nil? {
      ApplyChangesOneSource(c, []);
      LeafHolds(address, len, Apply(c, []), d);
      assert prefix <= address;
    } else if Min(CommonBits(t.address, address), Min(t.prefixLen, len)) < t.prefixLen {
      SplitIsEdit(t, address, len, c, d);
      SplitStaysUnder(t, address, len, c, prefix);
    } else {
      var n := t.prefixLen;
      CommonBitsIsLongest(t.address, address);
      assert t.address[..n] == address[..n] by {
        var all := CommonBits(t.address, address);
        assert t.address[..n] == t.address[..all][..n] == address[..all][..n];
      }
      if n == len {
        HereIsEdit(t, c, prefix, d);
      } else {
        var bit := address[n];
        assert t.address[..n] + [bit] == address[..n + 1] <= address[..len];
        EditChangesOneDestination(t.Child(bit), address, len, c, t.address[..n] + [bit], d);
        assert address[..len][..n] == address[..n];
        BelowIsEdit(t, bit, Edit(t.Child(bit), address, len, c), address[..len], c, prefix, d);
      }
    }
  }

  lemma SplitStaysUnder(t: Trie, address: Address, len: nat, c: Change, prefix: seq<bool>)
    requires t.Node? && Valid(t) && len <= 128 && Under(t, prefix) && prefix <= address[..len]
    requires Min(CommonBits(t.address, address), Min(t.prefixLen, len)) < t.prefixLen
    ensures Under(Edit(t, address, len, c), prefix)
  {
    CommonBitsIsLongest(t.address, address);
    var all := CommonBits(t.address, address);
    assert prefix <= address;
    assert |prefix| <= all;
  }

  // ----- dropping a value -----

  function RemoveValue(t: Trie, value: Value): Trie {
    if t.Nil? then Nil
    else
      var left, right := RemoveValue(t.zero, value), RemoveValue(t.one, value);
      var kept := Without(t.srcs, value);
      if kept == t.srcs && left == t.zero && right == t.one then t
      else Compact(t.(srcs := kept, zero := left, one := right))
  }

  /** Every destination loses exactly the sources with that value. */
  lemma {:induction false} RemoveValueFilters(t: Trie, value: Value, prefix: seq<bool>, d: seq<bool>)
    requires Valid(t) && Under(t, prefix)
    ensures Valid(RemoveValue(t, value)) && Under(RemoveValue(t, value), prefix)
    ensures SrcsAt(RemoveValue(t, value), d) == Without(SrcsAt(t, d), value)
  {
    if !t.Node? {
    } else {
      RemoveValueFilters(t.zero, value, t.address[..t.prefixLen] + [false], d);
      RemoveValueFilters(t.one, value, t.address[..t.prefixLen] + [true], d);
      FilteredNode(t, value, RemoveValue(t.zero, value), RemoveValue(t.one, value), d);
      CompactKeeps(t.(srcs := Without(t.srcs, value),
                      zero := RemoveValue(t.zero, value), one := RemoveValue(t.one, value)),
                   prefix, d);
    }
  }

  lemma FilteredNode(t: Trie, value: Value, zero: Trie, one: Trie, d: seq<bool>)
    requires t.Node? && Valid(t) && Valid(zero) && Valid(one)
    requires Under(zero, t.address[..t.prefixLen] + [false]) && Under(one, t.address[..t.prefixLen] + [true])
    requires SrcsAt(zero, d) == Without(SrcsAt(t.zero, d), value) && SrcsAt(one, d) == Without(SrcsAt(t.one, d), value)
    ensures var kept := t.(srcs := Without(t.srcs, value), zero := zero, one := one);
            Valid(kept) && SrcsAt(kept, d) == Without(SrcsAt(t, d), value)
  {
    WithoutKeepsOrder(t.srcs, value);
  }

  // ----- iteration -----

  datatype Pair = Pair(dest: seq<bool>, entry: SrcEntry)

  /** What All yields, in its order. */
  function All(t: Trie): seq<Pair> {
    if t.Nil? then []
    else Pairs(DestOf(t), t.srcs) + All(t.zero) + All(t.one)
  }

  function DestOf(t: Trie): seq<bool>
    requires t.Node?
  {
    if t.prefixLen <= 128 then t.address[..t.prefixLen] else t.address
  }

  function Pairs(d: seq<bool>, srcs: seq<SrcEntry>): seq<Pair> {
    seq(|srcs|, i requires 0 <= i < |srcs| => Pair(d, srcs[i]))
  }

  lemma PairsHave(d: seq<bool>, srcs: seq<SrcEntry>, x: Pair)
    ensures x in Pairs(d, srcs) <==> x.dest == d && x.entry in srcs
  {
    if x.dest == d && x.entry in srcs {
      var i :| 0 <= i < |srcs| && srcs[i] == x.entry;
      assert Pairs(d, srcs)[i] == x;
    }
  }

  /** A node holds a destination itself or one of its children does. */
  lemma HeldByOne(t: Trie, d: seq<bool>, e: SrcEntry)
    requires t.Node? && Valid(t)
    ensures e in SrcsAt(t, d)
       <==> (d == DestOf(t) && e in t.srcs) || e in SrcsAt(t.zero, d) || e in SrcsAt(t.one, d)
  {
    SubtriesAreBelow(t, d);
    assert t.Child(false) == t.zero && t.Child(true) == t.one;
    if |d| == t.prefixLen {
      assert d[..t.prefixLen] == d;
    }
  }

  lemma {:induction false} AllIsWhatIsHeld(t: Trie, x: Pair)
    requires Valid(t)
    ensures x in All(t) <==> x.entry in SrcsAt(t, x.dest)
  {
    if !t.Node? {
    } else {
      AllIsWhatIsHeld(t.zero, x);
      AllIsWhatIsHeld(t.one, x);
      PairsHave(DestOf(t), t.srcs, x);
      HeldByOne(t, x.dest, x.entry);
    }
  }

  /** A child holds a destination only if the walk for it goes that way. */
  lemma SubtriesAreBelow(t: Trie, d: seq<bool>)
    requires t.Node? && Valid(t)
    ensures forall bit :: SrcsAt(t.Child(bit), d) != [] ==>
              |d| > t.prefixLen && d[..t.prefixLen] == t.address[..t.prefixLen] && d[t.prefixLen] == bit
  {
    forall bit | SrcsAt(t.Child(bit), d) != []
      ensures |d| > t.prefixLen && d[..t.prefixLen] == t.address[..t.prefixLen] && d[t.prefixLen] == bit
    {
      var branch := t.address[..t.prefixLen] + [bit];
      if !(branch <= d) {
        NothingOutside(t.Child(bit), branch, d);
      }
      assert d[..t.prefixLen] == branch[..t.prefixLen] && d[t.prefixLen] == branch[t.prefixLen];
    }
  }

  predicate NoRepeats(s: seq<Pair>) {
    forall i, j | 0 <= i < j < |s| :: (s[i].dest, s[i].entry.src) != (s[j].dest, s[j].entry.src)
  }

  /** Each source and destination pair is yielded once. */
  lemma {:induction false} AllYieldsEachPairOnce(t: Trie)
    requires Valid(t)
    ensures NoRepeats(All(t))
  {
    if !t.Node? {
    } else {
      AllYieldsEachPairOnce(t.zero);
      AllYieldsEachPairOnce(t.one);
      var a, b, c := Pairs(DestOf(t), t.srcs), All(t.zero), All(t.one);
      forall x | x in b ensures |x.dest| > t.prefixLen && x.dest[t.prefixLen] == false {
        AllIsWhatIsHeld(t.zero, x);
        SubtriesAreBelow(t, x.dest);
        assert SrcsAt(t.Child(false), x.dest) != [];
      }
      forall x | x in c ensures |x.dest| > t.prefixLen && x.dest[t.prefixLen] == true {
        AllIsWhatIsHeld(t.one, x);
        SubtriesAreBelow(t, x.dest);
        assert SrcsAt(t.Child(true), x.dest) != [];
      }
      JoinWithoutRepeats(b, c);
      JoinWithoutRepeats(a, b + c);
      assert All(t) == a + (b + c);
    }
  }

  lemma JoinWithoutRepeats(a: seq<Pair>, b: seq<Pair>)
    requires NoRepeats(a) && NoRepeats(b) && forall x, y | x in a && y in b :: x.dest != y.dest
    ensures NoRepeats(a + b)
  {
    var s := a + b;
    forall i, j | 0 <= i < j < |s| ensures (s[i].dest, s[i].entry.src) != (s[j].dest, s[j].entry.src) {
      if i < |a| <= j {
        assert s[i] in a && s[j] in b;
      }
    }
  }
}
