/** Octets, numbers in network byte order, and byte buffers. */
module Bytes {

  type Byte = x: int | 0 <= x < 256
  type U32 = x: int | 0 <= x < 0x1_0000_0000

  function Zeros(n: nat): seq<Byte> {
    seq(n, _ => 0)
  }

  // ----- network byte order -----

  function U16Bytes(x: int): (b: seq<Byte>)
    requires 0 <= x < 0x1_0000
    ensures |b| == 2
  {
    [x / 256, x % 256]
  }

  function U16Of(b: seq<Byte>): (x: int)
    requires |b| == 2
    ensures 0 <= x < 0x1_0000
  {
    var hi: int, lo: int := b[0], b[1];
    hi * 256 + lo
  }

  function U32Bytes(x: int): (b: seq<Byte>)
    requires 0 <= x < 0x1_0000_0000
    ensures |b| == 4
  {
    U16Bytes(x / 0x1_0000) + U16Bytes(x % 0x1_0000)
  }

  function U32Of(b: seq<Byte>): (x: int)
    requires |b| == 4
    ensures 0 <= x < 0x1_0000_0000
  {
    U16Of(b[..2]) * 0x1_0000 + U16Of(b[2..])
  }

  function U64Bytes(x: int): (b: seq<Byte>)
    requires 0 <= x < 0x1_0000_0000_0000_0000
    ensures |b| == 8
  {
    U32Bytes(x / 0x1_0000_0000) + U32Bytes(x % 0x1_0000_0000)
  }

  lemma U16RoundTrip(x: int)
    requires 0 <= x < 0x1_0000
    ensures U16Of(U16Bytes(x)) == x
  {}

  lemma U32RoundTrip(x: int)
    requires 0 <= x < 0x1_0000_0000
    ensures U32Of(U32Bytes(x)) == x
  {
    U16RoundTrip(x / 0x1_0000);
    U16RoundTrip(x % 0x1_0000);
    assert U32Bytes(x)[..2] == U16Bytes(x / 0x1_0000);
    assert U32Bytes(x)[2..] == U16Bytes(x % 0x1_0000);
  }

  // ----- byte strings end to end -----

  function Joined(parts: seq<seq<Byte>>): seq<Byte> {
    if parts == [] then [] else Joined(parts[..|parts| - 1]) + parts[|parts| - 1]
  }

  lemma JoinedGrows(parts: seq<seq<Byte>>, n: nat)
    requires n < |parts|
    ensures Joined(parts[..n + 1]) == Joined(parts[..n]) + parts[n]
  {
    assert parts[..n + 1][..n] == parts[..n];
  }

  /** Part n is the slice that begins where the parts before it end. */
  lemma {:induction false} JoinedSlice(parts: seq<seq<Byte>>, n: nat, m: nat)
    requires n < m <= |parts|
    ensures |Joined(parts[..n])| + |parts[n]| <= |Joined(parts[..m])|
    ensures Joined(parts[..m])[|Joined(parts[..n])|..|Joined(parts[..n])| + |parts[n]|] == parts[n]
    decreases m
  {
    JoinedGrows(parts, m - 1);
    if n >= m - 1 {
    } else {
      JoinedSlice(parts, n, m - 1);
    }
  }

  // ----- byte buffers -----

  method Write(storage: array<Byte>, at: nat, data: seq<Byte>)
    requires at + |data| <= storage.Length
    modifies storage
    ensures forall i | 0 <= i < storage.Length ::
      storage[i] == if at <= i < at + |data| then data[i - at] else old(storage[i])
  {
    for k := 0 to |data|
      invariant forall i | 0 <= i < storage.Length ::
        storage[i] == if at <= i < at + k then data[i - at] else old(storage[i])
    {
      storage[at + k] := data[k];
    }
  }

  /** Writes data at position at, extending what stands from start on. */
  method Extend(storage: array<Byte>, start: nat, at: nat, data: seq<Byte>, ghost before: seq<Byte>) returns (end: nat)
    requires start <= at && at + |data| <= storage.Length && storage[start..at] == before
    modifies storage
    ensures end == at + |data| && storage[start..end] == before + data
    ensures forall i | 0 <= i < storage.Length && !(at <= i < end) :: storage[i] == old(storage[i])
  {
    Write(storage, at, data);
    end := at + |data|;
    assert storage[start..at] == before;
    assert storage[start..end] == storage[start..at] + storage[at..end];
  }
}
