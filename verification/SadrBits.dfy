/** The two address comparisons of the routing trie, done on words and meant on
    bits: sadr/table.go's matches and commonBits. */
module SadrBits {
  import opened Words

  /** An address in its 128-bit form, most significant bit first. */
  type Address = a: seq<bool> | |a| == 128 witness seq(128, _ => false)

  /** The big-endian halves of an address. */
  function Hi(a: Address): Word {
    seq(64, i requires 0 <= i < 64 => a[63 - i])
  }

  function Lo(a: Address): Word {
    seq(64, i requires 0 <= i < 64 => a[127 - i])
  }

  function CommonBits(a: Address, b: Address): nat {
    var high := LeadingZeros(Xor(Hi(a), Hi(b)));
    if high == 64 then high + LeadingZeros(Xor(Lo(a), Lo(b))) else high
  }

  predicate Matches(address: Address, prefixLen: nat, hi: Word, lo: Word)
    requires prefixLen <= 128
  {
    var highDiff := Xor(Hi(address), hi);
    if prefixLen <= 64 then IsZero(Shr(highDiff, 64 - prefixLen))
    else IsZero(highDiff) && IsZero(Shr(Xor(Lo(address), lo), 128 - prefixLen))
  }

  /** The common prefix is common, and it ends where the addresses part. */
  lemma CommonBitsIsLongest(a: Address, b: Address)
    ensures var n := CommonBits(a, b);
            && n <= 128 && a[..n] == b[..n]
            && (n < 128 ==> a[n] != b[n])
  {
    var n := CommonBits(a, b);
    var high, low := Xor(Hi(a), Hi(b)), Xor(Lo(a), Lo(b));
    forall i | 0 <= i < n ensures a[i] == b[i] {
      if i < 64 {
        assert !high[63 - i];
      } else {
        assert !low[127 - i];
      }
    }
    if n < 64 {
      assert high[63 - n];
    } else if n < 128 {
      assert low[63 - (n - 64)];
    }
  }

  /** The word comparison is the comparison of the first prefixLen bits. */
  lemma MatchesIsPrefix(address: Address, prefixLen: nat, a: Address)
    requires prefixLen <= 128
    ensures Matches(address, prefixLen, Hi(a), Lo(a)) <==> address[..prefixLen] == a[..prefixLen]
  {
    var high, low := Xor(Hi(address), Hi(a)), Xor(Lo(address), Lo(a));
    if Matches(address, prefixLen, Hi(a), Lo(a)) {
      forall i | 0 <= i < prefixLen ensures address[i] == a[i] {
        if prefixLen <= 64 {
          assert !Shr(high, 64 - prefixLen)[prefixLen - 1 - i];
        } else if i < 64 {
          assert !high[63 - i];
        } else {
          assert !Shr(low, 128 - prefixLen)[prefixLen - 1 - i];
        }
      }
    }
    if address[..prefixLen] == a[..prefixLen] {
      assert forall i | 0 <= i < prefixLen :: address[i] == address[..prefixLen][i] == a[i];
      if prefixLen <= 64 {
        assert IsZero(Shr(high, 64 - prefixLen));
      } else {
        assert IsZero(high) && IsZero(Shr(low, 128 - prefixLen));
      }
    }
  }
}
