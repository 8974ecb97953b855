/** Sending: reservation of sequence numbers and sealing into shared storage. */
module EspOutbound {
  import opened Bytes
  import opened EspTrailer
  import opened EspPacket
  import opened Wrappers

  const TWO_64: int := 0x1_0000_0000_0000_0000
  const MAX_NUMBER: int := 0xffff_ffff
  const NONCE_LEN := SALT_LEN + IV_LEN

  // ----- reservation -----

  /** The numbers from first to end; those below next have been sealed. */
  datatype Range = Range(first: int, next: int, end: int)

  datatype Reservation = Reservation(counter: int, range: Result<Range>)

  /** The 64-bit counter moves even when the reservation is refused. */
  function Reserve(counter: int, count: int): Reservation {
    if count <= 0 then Reservation(counter, Err)
    else
      var end := (counter + count) % TWO_64;
      var first := (end - count + 1) % TWO_64;
      Reservation(end, if end > MAX_NUMBER then Err else Ok(Range(first, first, end)))
  }

  /** Until the counter wraps, a reservation is the next numbers in line. */
  lemma ReserveIsNext(counter: int, count: int)
    requires 0 <= counter && 0 < count && counter + count < TWO_64
    ensures var r := Reserve(counter, count);
      && r.counter == counter + count
      && r.range == if counter + count > MAX_NUMBER then Err else Ok(Range(counter + 1, counter + 1, counter + count))
  {}

  /** Everything one association has handed out and sealed. */
  datatype Sender = Sender(counter: int, requested: nat, ranges: seq<Range>, sealed: seq<int>)

  datatype Event = Ask(count: int) | SealOne(range: nat) | SealRest(range: nat, packets: nat)

  /** The numbers from lo up to hi. */
  function Numbers(lo: int, hi: int): (s: seq<int>)
    requires lo <= hi
    ensures |s| == hi - lo && forall i | 0 <= i < |s| :: s[i] == lo + i
  {
    seq(hi - lo, i => lo + i)
  }

  function Consume(s: Sender, i: nat, upTo: int): Sender
    requires i < |s.ranges| && s.ranges[i].next <= upTo
  {
    s.(ranges := s.ranges[i := s.ranges[i].(next := upTo)], sealed := s.sealed + Numbers(s.ranges[i].next, upTo))
  }

  /** A refused call leaves no trace but the counter. */
  function Next(s: Sender, e: Event): Sender {
    match e
    case Ask(count) =>
      var r := Reserve(s.counter, count);
      Sender(r.counter, if count > 0 then s.requested + count else s.requested,
             if r.range.Ok? then s.ranges + [r.range.value] else s.ranges, s.sealed)
    case SealOne(i) =>
      if i >= |s.ranges| || s.ranges[i].next > s.ranges[i].end then s
      else Consume(s, i, s.ranges[i].next + 1)
    case SealRest(i, n) =>
      if i >= |s.ranges| || s.ranges[i].next > s.ranges[i].end || n != s.ranges[i].end - s.ranges[i].next + 1 then s
      else Consume(s, i, s.ranges[i].end + 1)
  }

  predicate RangeOk(r: Range) {
    1 <= r.first <= r.next <= r.end + 1 && r.end <= MAX_NUMBER
  }

  /** Ranges are handed out in ascending, disjoint order. */
  predicate RangesOk(s: Sender) {
    && (forall i | 0 <= i < |s.ranges| :: RangeOk(s.ranges[i]) && s.ranges[i].end <= s.counter)
    && (forall i, j | 0 <= i < j < |s.ranges| :: s.ranges[i].end < s.ranges[j].first)
  }

  predicate SealedFrom(s: Sender, x: int) {
    exists i | 0 <= i < |s.ranges| :: s.ranges[i].first <= x < s.ranges[i].next
  }

  predicate Distinct(xs: seq<int>) {
    forall i, j | 0 <= i < j < |xs| :: xs[i] != xs[j]
  }

  predicate SenderOk(s: Sender) {
    && s.counter == s.requested
    && RangesOk(s)
    && (forall k | 0 <= k < |s.sealed| :: SealedFrom(s, s.sealed[k]))
    && Distinct(s.sealed)
  }

  lemma AskKeeps(s: Sender, count: int)
    requires SenderOk(s) && Next(s, Ask(count)).requested < TWO_64
    ensures SenderOk(Next(s, Ask(count)))
  {
    var t := Next(s, Ask(count));
    if count > 0 {
      ReserveIsNext(s.counter, count);
    }
    forall k | 0 <= k < |s.sealed|
      ensures SealedFrom(t, s.sealed[k])
    {
      var i :| 0 <= i < |s.ranges| && s.ranges[i].first <= s.sealed[k] < s.ranges[i].next;
      assert t.ranges[i] == s.ranges[i];
    }
  }

  lemma ConsumeKeepsRanges(s: Sender, i: nat, upTo: int)
    requires SenderOk(s) && i < |s.ranges| && s.ranges[i].next <= upTo <= s.ranges[i].end + 1
    ensures RangesOk(Consume(s, i, upTo))
    ensures forall k | 0 <= k < |Consume(s, i, upTo).sealed| ::
      SealedFrom(Consume(s, i, upTo), Consume(s, i, upTo).sealed[k])
  {
    var t := Consume(s, i, upTo);
    forall k | 0 <= k < |t.sealed|
      ensures SealedFrom(t, t.sealed[k])
    {
      if k < |s.sealed| {
        assert SealedFrom(s, s.sealed[k]);
        var j :| 0 <= j < |s.ranges| && s.ranges[j].first <= s.sealed[k] < s.ranges[j].next;
        assert t.ranges[j].first <= t.sealed[k] < t.ranges[j].next;
      } else {
        assert t.ranges[i].first <= t.sealed[k] < t.ranges[i].next;
      }
    }
  }

  /** A number still to be sealed has not been sealed. */
  lemma PendingIsUnused(s: Sender, i: nat, x: int)
    requires SenderOk(s) && i < |s.ranges| && s.ranges[i].next <= x <= s.ranges[i].end
    ensures !SealedFrom(s, x)
  {
    forall j | 0 <= j < |s.ranges|
      ensures !(s.ranges[j].first <= x < s.ranges[j].next)
    {
      if j < i {
        assert s.ranges[j].end < s.ranges[i].first;
      } else if i < j {
        assert s.ranges[i].end < s.ranges[j].first;
      }
    }
  }

  lemma ConsumeKeeps(s: Sender, i: nat, upTo: int)
    requires SenderOk(s) && i < |s.ranges| && s.ranges[i].next <= upTo <= s.ranges[i].end + 1
    ensures SenderOk(Consume(s, i, upTo))
  {
    ConsumeKeepsRanges(s, i, upTo);
    var t := Consume(s, i, upTo);
    forall j, k | 0 <= j < k < |t.sealed|
      ensures t.sealed[j] != t.sealed[k]
    {
      if j < |s.sealed| <= k {
        PendingIsUnused(s, i, t.sealed[k]);
        assert SealedFrom(s, s.sealed[j]);
      }
    }
  }

  lemma StepKeeps(s: Sender, e: Event)
    requires SenderOk(s) && Next(s, e).requested < TWO_64
    ensures SenderOk(Next(s, e))
  {
    match e
    case Ask(count) => AskKeeps(s, count);
    case SealOne(i) =>
      if i < |s.ranges| && s.ranges[i].next <= s.ranges[i].end {
        ConsumeKeeps(s, i, s.ranges[i].next + 1);
      }
    case SealRest(i, n) =>
      if i < |s.ranges| && s.ranges[i].next <= s.ranges[i].end {
        ConsumeKeeps(s, i, s.ranges[i].end + 1);
      }
  }

  function After(s: Sender, events: seq<Event>): (t: Sender)
    ensures t.requested >= s.requested
  {
    if events == [] then s else Next(After(s, events[..|events| - 1]), events[|events| - 1])
  }

  /** While fewer than 2^64 numbers have been asked for, no number is sealed
      twice, none is 0 and none exceeds 32 bits, whatever the interleaving. */
  lemma {:induction false} NumbersAreNeverReused(events: seq<Event>)
    requires After(Sender(0, 0, [], []), events).requested < TWO_64
    ensures var s := After(Sender(0, 0, [], []), events);
      SenderOk(s) && Distinct(s.sealed) && forall k | 0 <= k < |s.sealed| :: 1 <= s.sealed[k] <= MAX_NUMBER
  {
    if events == [] {
    } else {
      var before := After(Sender(0, 0, [], []), events[..|events| - 1]);
      NumbersAreNeverReused(events[..|events| - 1]);
      StepKeeps(before, events[|events| - 1]);
    }
    var s := After(Sender(0, 0, [], []), events);
    forall k | 0 <= k < |s.sealed|
      ensures 1 <= s.sealed[k] <= MAX_NUMBER
    {
      assert SealedFrom(s, s.sealed[k]);
    }
  }

  lemma AfterOne(s: Sender, events: seq<Event>, e: Event)
    ensures After(s, events + [e]) == Next(After(s, events), e)
  {
    assert (events + [e])[..|events|] == events;
  }

  /** Two requests too large to grant still bring the counter to its last value. */
  lemma CounterRunsOut(s: Sender, huge: int)
    requires s.counter == 1 && huge == TWO_64 / 2 - 1
    ensures var t := Next(Next(s, Ask(huge)), Ask(huge));
            t.counter == TWO_64 - 1 && t.ranges == s.ranges && t.sealed == s.sealed
  {
    assert Reserve(1, huge).range.Err? && Reserve(1, huge).counter == 1 + huge;
    assert Reserve(1 + huge, huge).range.Err?;
  }

  /** One number later it has come round, and the number 1 is handed out again. */
  lemma CounterComesRound(s: Sender)
    requires s.counter == TWO_64 - 1
    ensures Next(Next(s, Ask(1)), Ask(1)).ranges == s.ranges + [Range(0, 0, 0), Range(1, 1, 1)]
    ensures Next(Next(s, Ask(1)), Ask(1)).sealed == s.sealed
  {
    assert Reserve(TWO_64 - 1, 1) == Reservation(0, Ok(Range(0, 0, 0)));
    assert Reserve(0, 1) == Reservation(1, Ok(Range(1, 1, 1)));
  }

  /** The bound is needed: this run, every count of which fits a signed 64-bit
      integer, seals the number 1 twice. */
  lemma ReuseAfterWrapping(huge: int)
    requires huge == TWO_64 / 2 - 1
    ensures var events := [Ask(1), SealOne(0)] + [Ask(huge), Ask(huge)] + [Ask(1), Ask(1)] + [SealOne(2)];
            var s := After(Sender(0, 0, [], []), events);
            s.sealed == [1, 1] && !Distinct(s.sealed)
  {
    var start := Sender(0, 0, [], []);
    var one := [Ask(1), SealOne(0)];
    AfterOne(start, [], Ask(1));
    AfterOne(start, [Ask(1)], SealOne(0));
    assert one == [] + [Ask(1)] + [SealOne(0)];
    var s := After(start, one);
    assert s.counter == 1 && |s.ranges| == 1 && s.sealed == [1];
    var two := one + [Ask(huge), Ask(huge)];
    AfterOne(start, one, Ask(huge));
    AfterOne(start, one + [Ask(huge)], Ask(huge));
    assert two == one + [Ask(huge)] + [Ask(huge)];
    CounterRunsOut(s, huge);
    var three := two + [Ask(1), Ask(1)];
    AfterOne(start, two, Ask(1));
    AfterOne(start, two + [Ask(1)], Ask(1));
    assert three == two + [Ask(1)] + [Ask(1)];
    CounterComesRound(After(start, two));
    AfterOne(start, three, SealOne(2));
    var t := After(start, three);
    assert t.ranges[2] == Range(1, 1, 1) && t.sealed == [1];
    SealsAgain(t);
  }

  lemma SealsAgain(t: Sender)
    requires |t.ranges| == 3 && t.ranges[2] == Range(1, 1, 1) && t.sealed == [1]
    ensures Next(t, SealOne(2)).sealed == [1, 1] && !Distinct(Next(t, SealOne(2)).sealed)
  {
    var sealed := Next(t, SealOne(2)).sealed;
    assert sealed == [1, 1];
    assert sealed[0] == sealed[1];
  }

  // ----- sealing in place -----

  /** A packet before encryption. */
  function Clear(k: Keys, inner: seq<Byte>, nextHeader: Byte, seqno: int): seq<Byte>
    requires 0 <= k.spi < 0x1_0000_0000 && 0 <= seqno <= MAX_NUMBER
  {
    Header(k, seqno) + U64Bytes(seqno) + Framed(inner, PadFor(|inner|), nextHeader)
  }

  lemma ClearParts(k: Keys, inner: seq<Byte>, nextHeader: Byte, seqno: int)
    requires 0 <= k.spi < 0x1_0000_0000 && 0 <= seqno <= MAX_NUMBER
    ensures var c := Clear(k, inner, nextHeader, seqno);
      && |c| == SealedLen(|inner|) - ICV_LEN
      && c[..8] == Header(k, seqno) && c[8..16] == U64Bytes(seqno)
      && c[16..] == Framed(inner, PadFor(|inner|), nextHeader)
  {}

  /** Writes one packet at start, building the nonce at nonceAt. */
  method AppendSealed(k: Keys, storage: array<Byte>, start: nat, nonceAt: nat, inner: seq<Byte>, nextHeader: Byte,
                      seqno: int) returns (end: nat)
    requires KeysOk(k) && 0 <= seqno <= MAX_NUMBER
    requires start + SealedLen(|inner|) <= storage.Length && nonceAt + NONCE_LEN <= storage.Length
    requires start + SealedLen(|inner|) <= nonceAt || nonceAt + NONCE_LEN <= start
    modifies storage
    ensures end == start + SealedLen(|inner|)
    ensures storage[start..end] == Sealed(k, inner, nextHeader, seqno)
    ensures forall i | 0 <= i < storage.Length && !(start <= i < end) && !(nonceAt <= i < nonceAt + NONCE_LEN) ::
      storage[i] == old(storage[i])
  {
    var framing := start + HEADER_LEN + IV_LEN;
    Write(storage, start, Header(k, seqno) + U64Bytes(seqno));
    WriteFrame(storage, framing, inner, nextHeader);
    ghost var clear := Clear(k, inner, nextHeader, seqno);
    ClearParts(k, inner, nextHeader, seqno);
    assert forall i | 0 <= i < |clear| :: storage[start + i] == clear[i];
    end := Encrypt(k, storage, start, nonceAt, |inner| + PadFor(|inner|) + 2, clear);
  }

  /** Replaces the plaintext at start by its ciphertext. */
  method Encrypt(k: Keys, storage: array<Byte>, start: nat, nonceAt: nat, plainLen: nat, ghost clear: seq<Byte>)
    returns (end: nat)
    requires KeysOk(k) && |clear| == 16 + plainLen
    requires start + |clear| + ICV_LEN <= storage.Length && nonceAt + NONCE_LEN <= storage.Length
    requires start + |clear| + ICV_LEN <= nonceAt || nonceAt + NONCE_LEN <= start
    requires forall i | 0 <= i < |clear| :: storage[start + i] == clear[i]
    modifies storage
    ensures end == start + |clear| + ICV_LEN
    ensures storage[start..end] == clear[..16] + k.aead.seal(k.salt + clear[8..16], clear[16..], clear[..8])
    ensures forall i | 0 <= i < storage.Length && !(start <= i < end) && !(nonceAt <= i < nonceAt + NONCE_LEN) ::
      storage[i] == old(storage[i])
  {
    var framing := start + 16;
    var plain := storage[framing..framing + plainLen];
    var header, iv := storage[start..start + 8], storage[start + 8..framing];
    assert plain == clear[16..] && header == clear[..8] && iv == clear[8..16];
    Write(storage, nonceAt, k.salt + iv);
    var nonce := storage[nonceAt..nonceAt + NONCE_LEN];
    assert nonce == k.salt + iv;
    var sealed := k.aead.seal(nonce, plain, header);
    assert |sealed| == plainLen + ICV_LEN;
    Write(storage, framing, sealed);
    end := framing + |sealed|;
    assert storage[framing..end] == sealed;
    assert storage[start..framing] == clear[..16];
    assert storage[start..end] == storage[start..framing] + storage[framing..end];
  }

  method WriteFrame(storage: array<Byte>, at: nat, inner: seq<Byte>, nextHeader: Byte)
    requires at + |inner| + PadFor(|inner|) + 2 <= storage.Length
    modifies storage
    ensures var plain := Framed(inner, PadFor(|inner|), nextHeader);
      forall i | 0 <= i < storage.Length ::
        storage[i] == if at <= i < at + |plain| then plain[i - at] else old(storage[i])
  {
    var pad := PadFor(|inner|);
    Write(storage, at, inner);
    for i := 1 to pad + 1
      invariant forall j | 0 <= j < storage.Length ::
        storage[j] == if at <= j < at + |inner| then inner[j - at]
                      else if at + |inner| <= j < at + |inner| + i - 1 then j - at - |inner| + 1
                      else old(storage[j])
    {
      storage[at + |inner| + i - 1] := i;
    }
    storage[at + |inner| + pad] := pad;
    storage[at + |inner| + pad + 1] := nextHeader;
  }

  /** Where packet i of a batch starts: the packets before it, end to end. */
  function Offset(packets: seq<seq<Byte>>, i: nat): (n: nat)
    requires i <= |packets|
  {
    if i == 0 then 0 else Offset(packets, i - 1) + SealedLen(|packets[i - 1]|)
  }

  lemma {:induction false} OffsetsAscend(packets: seq<seq<Byte>>, i: nat, j: nat)
    requires i <= j <= |packets|
    ensures Offset(packets, i) <= Offset(packets, j)
    decreases j
  {
    if i >= j {
    } else {
      OffsetsAscend(packets, i, j - 1);
    }
  }

  /** The packets of a batch, numbered from first. */
  function AllSealed(k: Keys, packets: seq<seq<Byte>>, nextHeaders: seq<Byte>, first: int): (parts: seq<seq<Byte>>)
    requires 0 <= k.spi < 0x1_0000_0000 && |packets| == |nextHeaders|
    requires 0 <= first && first + |packets| <= MAX_NUMBER + 1
    ensures |parts| == |packets|
  {
    seq(|packets|, i requires 0 <= i < |packets| => Sealed(k, packets[i], nextHeaders[i], first + i))
  }

  lemma PartIs(k: Keys, packets: seq<seq<Byte>>, nextHeaders: seq<Byte>, first: int, i: nat)
    requires 0 <= k.spi < 0x1_0000_0000 && i < |packets| == |nextHeaders|
    requires 0 <= first && first + |packets| <= MAX_NUMBER + 1
    ensures AllSealed(k, packets, nextHeaders, first)[i] == Sealed(k, packets[i], nextHeaders[i], first + i)
  {}

  lemma {:induction false} OffsetIsStart(k: Keys, packets: seq<seq<Byte>>, nextHeaders: seq<Byte>, first: int, n: nat)
    requires KeysOk(k) && n <= |packets| == |nextHeaders|
    requires 0 <= first && first + |packets| <= MAX_NUMBER + 1
    ensures |Joined(AllSealed(k, packets, nextHeaders, first)[..n])| == Offset(packets, n)
  {
    if n == 0 {
    } else {
      var parts := AllSealed(k, packets, nextHeaders, first);
      OffsetIsStart(k, packets, nextHeaders, first, n - 1);
      JoinedGrows(parts, n - 1);
      assert |parts[n - 1]| == SealedLen(|packets[n - 1]|) by {
        SealedLength(k, packets[n - 1], nextHeaders[n - 1], first + n - 1);
      }
      assert |Joined(parts[..n])| == |Joined(parts[..n - 1])| + |parts[n - 1]|;
    }
  }

  /** Packet i is what stands between its offset and the next, so the slices are
      adjacent and exactly sized. */
  lemma BatchSlice(k: Keys, packets: seq<seq<Byte>>, nextHeaders: seq<Byte>, first: int, i: nat)
    requires KeysOk(k) && i < |packets| == |nextHeaders|
    requires 0 <= first && first + |packets| <= MAX_NUMBER + 1
    ensures var parts := AllSealed(k, packets, nextHeaders, first);
      && Offset(packets, i) <= Offset(packets, i + 1) <= |Joined(parts)|
      && Joined(parts)[Offset(packets, i)..Offset(packets, i + 1)] == parts[i]
  {
    var parts := AllSealed(k, packets, nextHeaders, first);
    OffsetIsStart(k, packets, nextHeaders, first, i);
    OffsetIsStart(k, packets, nextHeaders, first, i + 1);
    JoinedGrows(parts, i);
    JoinedSlice(parts, i, |parts|);
    assert parts[..|parts|] == parts;
  }

  lemma SealedLength(k: Keys, inner: seq<Byte>, nextHeader: Byte, seqno: int)
    requires KeysOk(k) && 0 <= seqno <= MAX_NUMBER
    ensures |Sealed(k, inner, nextHeader, seqno)| == SealedLen(|inner|)
  {
    OpenUndoesSeal(k, inner, nextHeader, seqno);
  }

  class OutboundSA {
    const keys: Keys
    var counter: int

    method ReserveSequenceNumbers(count: int) returns (r: Result<Range>)
      requires 0 <= counter < TWO_64
      modifies this
      ensures 0 <= counter < TWO_64 && Reservation(counter, r) == Reserve(old(counter), count)
    {
      if count <= 0 {
        return Err;
      }
      counter := (counter + count) % TWO_64;
      var first := (counter - count + 1) % TWO_64;
      if counter > MAX_NUMBER {
        return Err;
      }
      return Ok(Range(first, first, counter));
    }
  }

  /** A run of reserved numbers, owned by one worker. */
  class SequenceRange {
    const keys: Keys
    const end: int
    var next: int

    ghost predicate Valid()
      reads this
    {
      KeysOk(keys) && 0 <= next && end <= MAX_NUMBER
    }

    /** The nonce goes before the packet here. */
    method Seal(inner: seq<Byte>, nextHeader: Byte) returns (r: Result<seq<Byte>>)
      requires Valid()
      modifies this
      ensures Valid()
      ensures old(next) > end ==> r == Err && next == old(next)
      ensures old(next) <= end ==> r == Ok(Sealed(keys, inner, nextHeader, old(next))) && next == old(next) + 1
    {
      if next > end {
        return Err;
      }
      var storage := new Byte[NONCE_LEN + SealedLen(|inner|)](_ => 0);
      var n := AppendSealed(keys, storage, NONCE_LEN, 0, inner, nextHeader, next);
      next := next + 1;
      return Ok(storage[NONCE_LEN..n]);
    }

    /** Seals exactly as many packets as the range has numbers left, into reused
        storage when it is large enough; the nonce is built past the last packet. */
    method SealBatchInto(packets: seq<seq<Byte>>, nextHeaders: seq<Byte>, reuse: array<Byte>)
      returns (r: Result<array<Byte>>)
      requires Valid()
      modifies this, reuse
      ensures Valid()
      ensures r.Err? <==> |packets| != |nextHeaders| || old(next) > end || |packets| != end - old(next) + 1
      ensures r.Err? ==> next == old(next) && reuse[..] == old(reuse[..])
      ensures r.Ok? ==>
        && next == end + 1 && (r.value == reuse || fresh(r.value))
        && Offset(packets, |packets|) + NONCE_LEN <= r.value.Length
        && r.value[..Offset(packets, |packets|)] == Joined(AllSealed(keys, packets, nextHeaders, old(next)))
    {
      if |packets| != |nextHeaders| || next > end || |packets| != end - next + 1 {
        return Err;
      }
      var total := Total(packets);
      var storage := reuse;
      if reuse.Length < total + NONCE_LEN {
        storage := new Byte[total + NONCE_LEN](_ => 0);
      }
      SealAll(packets, nextHeaders, storage, total);
      return Ok(storage);
    }

    method Total(packets: seq<seq<Byte>>) returns (total: nat)
      ensures total == Offset(packets, |packets|)
    {
      total := 0;
      for i := 0 to |packets|
        invariant total == Offset(packets, i)
      {
        total := total + SealedLen(|packets[i]|);
      }
    }

    method SealAll(packets: seq<seq<Byte>>, nextHeaders: seq<Byte>, storage: array<Byte>, total: nat)
      requires Valid() && |packets| == |nextHeaders| == end - next + 1
      requires total == Offset(packets, |packets|) && total + NONCE_LEN <= storage.Length
      modifies this, storage
      ensures Valid() && next == end + 1
      ensures storage[..total] == Joined(AllSealed(keys, packets, nextHeaders, old(next)))
    {
      ghost var parts := AllSealed(keys, packets, nextHeaders, next);
      ghost var first := next;
      var at := 0;
      for i := 0 to |packets|
        invariant Valid() && next == first + i && at == Offset(packets, i)
        invariant at <= total && storage[..at] == Joined(parts[..i])
      {
        at := SealPart(packets, nextHeaders, storage, at, total, first, i);
      }
      assert parts[..|packets|] == parts;
    }

    static lemma Onward(b: seq<Byte>, start: nat, parts: seq<seq<Byte>>, i: nat)
      requires i < |parts| && start <= |b| && b[..start] == Joined(parts[..i]) && b[start..] == parts[i]
      ensures b == Joined(parts[..i + 1])
    {
      JoinedGrows(parts, i);
      assert b == b[..start] + b[start..];
    }

    method SealPart(packets: seq<seq<Byte>>, nextHeaders: seq<Byte>, storage: array<Byte>, start: nat, total: nat,
                    ghost first: int, i: nat) returns (at: nat)
      requires Valid() && next <= end && i < |packets| == |nextHeaders| && start <= total
      requires 0 <= first && next == first + i && first + |packets| <= MAX_NUMBER + 1
      requires start == Offset(packets, i) && total == Offset(packets, |packets|) && total + NONCE_LEN <= storage.Length
      requires storage[..start] == Joined(AllSealed(keys, packets, nextHeaders, first)[..i])
      modifies this, storage
      ensures Valid() && next == old(next) + 1 && at == Offset(packets, i + 1) <= total
      ensures storage[..at] == Joined(AllSealed(keys, packets, nextHeaders, first)[..i + 1])
    {
      ghost var before, parts := storage[..start], AllSealed(keys, packets, nextHeaders, first);
      OffsetsAscend(packets, i + 1, |packets|);
      at := AppendSealed(keys, storage, start, total, packets[i], nextHeaders[i], next);
      PartIs(keys, packets, nextHeaders, first, i);
      assert storage[..start] == before;
      Onward(storage[..at], start, parts, i);
      next := next + 1;
    }
  }
}
