/** 64-bit machine words as 64 bits, bit 0 the least significant, with the
    operations of the hardware given bit by bit. */
module Words {

  type Word = w: seq<bool> | |w| == 64 witness seq(64, _ => false)

  const ZERO: Word := seq(64, _ => false)
  const ONES: Word := seq(64, _ => true)
  const ONE: Word := seq(64, i => i == 0)

  function Xor(a: Word, b: Word): Word {
    seq(64, i requires 0 <= i < 64 => a[i] != b[i])
  }

  function Or(a: Word, b: Word): Word {
    seq(64, i requires 0 <= i < 64 => a[i] || b[i])
  }

  function AndNot(a: Word, b: Word): Word {
    seq(64, i requires 0 <= i < 64 => a[i] && !b[i])
  }

  /** A shift by 64 or more leaves nothing, as it does in Go. */
  function Shr(w: Word, n: nat): Word {
    seq(64, i requires 0 <= i < 64 => i + n < 64 && w[i + n])
  }

  function Shl(w: Word, n: nat): Word {
    seq(64, i requires 0 <= i < 64 => i >= n && w[i - n])
  }

  predicate IsZero(w: Word) {
    forall i | 0 <= i < 64 :: !w[i]
  }

  /** The number of zero bits above the highest bit set. */
  function LeadingZeros(w: Word): (n: nat)
    ensures n <= 64 && (forall i | 64 - n <= i < 64 :: !w[i])
    ensures n < 64 ==> w[63 - n]
  {
    ZerosFrom(w, 64)
  }

  function ZerosFrom(w: Word, top: nat): (n: nat)
    requires top <= 64
    ensures n <= top && (forall i | top - n <= i < top :: !w[i])
    ensures n < top ==> w[top - 1 - n]
  {
    if top == 0 || w[top - 1] then 0 else 1 + ZerosFrom(w, top - 1)
  }
}
