/** Sending a batch of datagrams with UDP segmentation offload. */
module UdpSend {
  import opened Bytes

  const MAX_SEGMENTS := 64
  const MAX_PAYLOAD := 65507
  const SEND_BATCH := 128

  /** A slice of memory: where it starts, its length and its capacity. */
  datatype Slice = Slice(at: nat, len: nat, cap: nat)

  predicate SliceOk(mem: seq<Byte>, s: Slice) {
    s.len <= s.cap && s.at + s.cap <= |mem|
  }

  predicate SlicesOk(mem: seq<Byte>, packets: seq<Slice>) {
    forall i | 0 <= i < |packets| :: SliceOk(mem, packets[i])
  }

  function Contents(mem: seq<Byte>, s: Slice): (b: seq<Byte>)
    requires SliceOk(mem, s)
    ensures |b| == s.len
  {
    mem[s.at..s.at + s.len]
  }

  /** The datagrams the packets stand for. */
  function Datagrams(mem: seq<Byte>, packets: seq<Slice>): (d: seq<seq<Byte>>)
    requires SlicesOk(mem, packets)
    ensures |d| == |packets| && forall i | 0 <= i < |d| :: d[i] == Contents(mem, packets[i])
  {
    seq(|packets|, i requires 0 <= i < |packets| => Contents(mem, packets[i]))
  }

  // ----- segmentation -----

  /** What the kernel sends for a payload with a segment size: full segments and
      whatever is left. */
  function Cut(payload: seq<Byte>, size: nat): seq<seq<Byte>>
    requires size > 0
    decreases |payload|
  {
    if |payload| <= size then [payload] else [payload[..size]] + Cut(payload[size..], size)
  }

  /** All parts have the given size, but that the last may be shorter. */
  predicate Even(parts: seq<seq<Byte>>, size: nat) {
    && parts != []
    && (forall i | 0 <= i < |parts| - 1 :: |parts[i]| == size)
    && 0 < |parts[|parts| - 1]| <= size
  }

  lemma Regrouped(a: seq<Byte>, b: seq<Byte>, c: seq<Byte>)
    ensures (a + b) + c == a + (b + c)
  {
  }

  lemma {:induction false} JoinedFromTheFront(parts: seq<seq<Byte>>)
    requires parts != []
    ensures Joined(parts) == parts[0] + Joined(parts[1..])
  {
    if |parts| == 1 {
      assert parts[..0] == [] && parts[1..] == [];
    } else {
      var last := |parts| - 1;
      var front, rest := parts[..last], parts[1..];
      JoinedFromTheFront(front);
      assert front[1..] == rest[..last - 1] && rest[last - 1] == parts[last];
      Regrouped(parts[0], Joined(front[1..]), parts[last]);
    }
  }

  /** Cutting undoes joining. */
  lemma {:induction false} CutUndoesJoin(parts: seq<seq<Byte>>, size: nat)
    requires size > 0 && Even(parts, size)
    ensures Cut(Joined(parts), size) == parts
  {
    JoinedFromTheFront(parts);
    var rest := parts[1..];
    if |parts| == 1 {
      assert rest == [] && parts[0] + [] == parts[0];
      assert parts == [parts[0]];
    } else {
      CutUndoesJoin(rest, size);
      JoinedFromTheFront(rest);
      var payload := Joined(parts);
      assert |rest[0]| > 0;
      assert payload[..size] == parts[0] && payload[size..] == Joined(rest);
      assert parts == [parts[0]] + rest;
    }
  }

  // ----- preparing messages -----

  /** A payload, its segment size when it carries more than one packet, and the
      number of packets consumed up to and including it. */
  datatype Message = Message(payload: Slice, segment: nat, end: nat)

  function Sent(mem: seq<Byte>, m: Message): seq<seq<Byte>>
    requires SliceOk(mem, m.payload)
  {
    if m.segment == 0 then [Contents(mem, m.payload)] else Cut(Contents(mem, m.payload), m.segment)
  }

  /** A message sends exactly the packets from first up to its end. */
  predicate Carries(mem: seq<Byte>, packets: seq<Slice>, first: nat, m: Message)
    requires SlicesOk(mem, packets)
  {
    && first < m.end <= |packets| && SliceOk(mem, m.payload)
    && Sent(mem, m) == Datagrams(mem, packets)[first..m.end]
    && m.end - first <= MAX_SEGMENTS && (m.segment != 0 ==> m.payload.len <= MAX_PAYLOAD)
  }

  /** The packets a payload has been stretched over so far. */
  predicate Spans(mem: seq<Byte>, packets: seq<Slice>, first: nat, end: nat, payload: Slice)
    requires SlicesOk(mem, packets)
  {
    && first < end <= |packets| && SliceOk(mem, payload)
    && payload.at == packets[first].at && payload.cap == packets[first].cap
    && Contents(mem, payload) == Joined(Datagrams(mem, packets)[first..end])
  }

  lemma SpansGrows(mem: seq<Byte>, packets: seq<Slice>, first: nat, end: nat, payload: Slice)
    requires SlicesOk(mem, packets) && Spans(mem, packets, first, end, payload) && end < |packets|
    requires payload.len + packets[end].len <= payload.cap && packets[end].at == payload.at + payload.len
    ensures Spans(mem, packets, first, end + 1, payload.(len := payload.len + packets[end].len))
  {
    var longer := payload.(len := payload.len + packets[end].len);
    var d := Datagrams(mem, packets);
    assert Contents(mem, longer) == Contents(mem, payload) + Contents(mem, packets[end]);
    assert d[first..end + 1][..end - first] == d[first..end];
  }

  lemma SpanCarries(mem: seq<Byte>, packets: seq<Slice>, first: nat, end: nat, payload: Slice)
    requires SlicesOk(mem, packets) && Spans(mem, packets, first, end, payload)
    requires end - first <= MAX_SEGMENTS
    requires end - first > 1 ==>
      && payload.len <= MAX_PAYLOAD && packets[first].len > 0
      && Even(Datagrams(mem, packets)[first..end], packets[first].len)
    ensures Carries(mem, packets, first, Message(payload, if end - first > 1 then packets[first].len else 0, end))
  {
    var parts := Datagrams(mem, packets)[first..end];
    if end - first > 1 {
      CutUndoesJoin(parts, packets[first].len);
    } else {
      JoinedFromTheFront(parts);
      assert parts[1..] == [] && parts[0] + [] == parts[0];
      assert parts == [parts[0]];
    }
  }

  lemma EvenGrows(parts: seq<seq<Byte>>, size: nat, more: seq<Byte>)
    requires Even(parts, size) && |parts[|parts| - 1]| == size && 0 < |more| <= size
    ensures Even(parts + [more], size)
  {}

  /** A payload over whole segments, the last of which may be shorter. */
  predicate Whole(mem: seq<Byte>, packets: seq<Slice>, first: nat, end: nat, payload: Slice)
    requires SlicesOk(mem, packets)
  {
    && Spans(mem, packets, first, end, payload) && Even(Datagrams(mem, packets)[first..end], packets[first].len)
    && end - first <= MAX_SEGMENTS && (end - first > 1 ==> payload.len <= MAX_PAYLOAD)
  }

  /** Whether the next packet stands right behind the payload and fits with it. */
  predicate Joins(packets: seq<Slice>, first: nat, end: nat, payload: Slice)
    requires first < |packets|
  {
    && end < |packets| && end - first < MAX_SEGMENTS && 0 < packets[end].len <= packets[first].len
    && payload.len + packets[end].len <= payload.cap && payload.len + packets[end].len <= MAX_PAYLOAD
    && packets[end].at == payload.at + payload.len
  }

  lemma JoiningKeeps(mem: seq<Byte>, packets: seq<Slice>, first: nat, end: nat, payload: Slice)
    requires SlicesOk(mem, packets) && Whole(mem, packets, first, end, payload)
    requires packets[end - 1].len == packets[first].len && Joins(packets, first, end, payload)
    ensures Whole(mem, packets, first, end + 1, payload.(len := payload.len + packets[end].len))
  {
    var d := Datagrams(mem, packets);
    SpansGrows(mem, packets, first, end, payload);
    assert d[first..end][end - first - 1] == d[end - 1];
    EvenGrows(d[first..end], packets[first].len, d[end]);
    assert d[first..end + 1] == d[first..end] + [d[end]];
  }

  /** Stretches a payload over the packets that follow it in memory while they are
      no longer than the first, up to and including one that is shorter. */
  method Stretch(mem: seq<Byte>, packets: seq<Slice>, first: nat) returns (payload: Slice, end: nat)
    requires SlicesOk(mem, packets) && first < |packets| && packets[first].len > 0
    ensures Whole(mem, packets, first, end, payload)
  {
    payload, end := packets[first], first + 1;
    OneSpans(mem, packets, first);
    while Joins(packets, first, end, payload)
      invariant Whole(mem, packets, first, end, payload) && packets[end - 1].len == packets[first].len
      decreases |packets| - end
    {
      JoiningKeeps(mem, packets, first, end, payload);
      payload := payload.(len := payload.len + packets[end].len);
      end := end + 1;
      if packets[end - 1].len < packets[first].len {
        break;
      }
    }
  }

  method NextMessage(mem: seq<Byte>, packets: seq<Slice>, first: nat, gso: bool) returns (m: Message)
    requires SlicesOk(mem, packets) && first < |packets|
    ensures Carries(mem, packets, first, m)
    ensures !gso ==> m.end == first + 1
  {
    var payload, end := packets[first], first + 1;
    OneSpans(mem, packets, first);
    if gso && packets[first].len > 0 {
      payload, end := Stretch(mem, packets, first);
    }
    SpanCarries(mem, packets, first, end, payload);
    m := Message(payload, if end - first > 1 then packets[first].len else 0, end);
  }

  lemma OneSpans(mem: seq<Byte>, packets: seq<Slice>, first: nat)
    requires SlicesOk(mem, packets) && first < |packets|
    ensures Spans(mem, packets, first, first + 1, packets[first])
    ensures packets[first].len > 0 ==> Even(Datagrams(mem, packets)[first..first + 1], packets[first].len)
  {
    var parts := Datagrams(mem, packets)[first..first + 1];
    JoinedFromTheFront(parts);
    assert parts[1..] == [] && parts[0] + [] == parts[0];
  }

  // ----- whole batches -----

  /** The messages follow one another from the first packet up to the nth. */
  predicate Chained(mem: seq<Byte>, packets: seq<Slice>, ms: seq<Message>, n: nat)
    requires SlicesOk(mem, packets)
  {
    if ms == [] then n == 0
    else
      var m, before := ms[|ms| - 1], ms[..|ms| - 1];
      m.end == n && Carries(mem, packets, EndOf(before), m) && Chained(mem, packets, before, EndOf(before))
  }

  function EndOf(ms: seq<Message>): nat {
    if ms == [] then 0 else ms[|ms| - 1].end
  }

  /** What a chain of messages sends. */
  function AllSent(mem: seq<Byte>, packets: seq<Slice>, ms: seq<Message>): seq<seq<Byte>>
    requires SlicesOk(mem, packets) && Chained(mem, packets, ms, EndOf(ms))
  {
    if ms == [] then [] else AllSent(mem, packets, ms[..|ms| - 1]) + Sent(mem, ms[|ms| - 1])
  }

  /** A chain sends exactly the packets up to where it ends. */
  lemma {:induction false} ChainSends(mem: seq<Byte>, packets: seq<Slice>, ms: seq<Message>)
    requires SlicesOk(mem, packets) && Chained(mem, packets, ms, EndOf(ms))
    ensures EndOf(ms) <= |packets| && AllSent(mem, packets, ms) == Datagrams(mem, packets)[..EndOf(ms)]
    ensures ms != [] ==> EndOf(ms) > 0
  {
    if ms == [] {
    } else {
      var before, m := ms[..|ms| - 1], ms[|ms| - 1];
      ChainSends(mem, packets, before);
      SendsOn(mem, packets, EndOf(before), m);
    }
  }

  lemma SendsOn(mem: seq<Byte>, packets: seq<Slice>, first: nat, m: Message)
    requires SlicesOk(mem, packets) && Carries(mem, packets, first, m)
    ensures Datagrams(mem, packets)[..first] + Sent(mem, m) == Datagrams(mem, packets)[..m.end]
  {
    var d := Datagrams(mem, packets);
    assert d[..first] + d[first..m.end] == d[..m.end];
  }

  /** Any first part of a chain is one. */
  lemma {:induction false} ChainPrefix(mem: seq<Byte>, packets: seq<Slice>, ms: seq<Message>, k: nat)
    requires SlicesOk(mem, packets) && Chained(mem, packets, ms, EndOf(ms)) && k <= |ms|
    ensures Chained(mem, packets, ms[..k], EndOf(ms[..k]))
  {
    if k == |ms| {
      assert ms[..k] == ms;
    } else {
      ChainPrefix(mem, packets, ms[..|ms| - 1], k);
      assert ms[..|ms| - 1][..k] == ms[..k];
    }
  }

  method Prepare(mem: seq<Byte>, packets: seq<Slice>, gso: bool) returns (ms: seq<Message>)
    requires SlicesOk(mem, packets)
    ensures Chained(mem, packets, ms, |packets|) && EndOf(ms) == |packets| && |ms| <= |packets|
  {
    ms := [];
    var first := 0;
    while first < |packets|
      invariant first <= |packets| && Chained(mem, packets, ms, first) && EndOf(ms) == first && |ms| <= first
    {
      var m := NextMessage(mem, packets, first, gso);
      assert (ms + [m])[..|ms|] == ms;
      ms := ms + [m];
      first := m.end;
    }
  }

  datatype Failure = NoFailure | Unsupported | Other

  /** The answer to one write: how many messages went out, and the error if any. */
  datatype Answer = Answer(sent: nat, failure: Failure)

  /** An answer there is no going on after. */
  predicate Final(a: Answer, offload: bool) {
    a.failure == Other || (a.failure == Unsupported && !offload) || (a.failure == NoFailure && a.sent == 0)
  }

  /** One write of up to a batch of packets: how many went out, as datagrams. */
  method WriteBatch(mem: seq<Byte>, packets: seq<Slice>, gso: bool, answer: Answer)
    returns (sent: nat, out: seq<seq<Byte>>)
    requires SlicesOk(mem, packets)
    ensures sent <= |packets| && out == Datagrams(mem, packets)[..sent]
    ensures sent == 0 ==> answer.sent == 0 || packets == []
  {
    var ms := Prepare(mem, packets, gso);
    var n := if answer.sent <= |ms| then answer.sent else |ms|;
    ChainPrefix(mem, packets, ms, n);
    ChainSends(mem, packets, ms[..n]);
    sent, out := EndOf(ms[..n]), AllSent(mem, packets, ms[..n]);
  }

  /** Sends the packets, going on after a partial write and once more without
      segmentation when the kernel refuses it. What goes out is the packets in
      order, all of them on success and a prefix on error. It gives up only on the
      kernel's word: an error that is not the refusal to segment, or nothing sent. */
  method Send(mem: seq<Byte>, all: seq<Slice>, gso: bool, kernel: nat -> Answer)
    returns (ok: bool, out: seq<seq<Byte>>, offload: bool, calls: nat)
    requires SlicesOk(mem, all)
    ensures !ok ==> calls > 0 && Final(kernel(calls - 1), offload)
    ensures forall i | 0 <= i < calls - 1 :: kernel(i).failure == NoFailure || (gso && kernel(i).failure == Unsupported)
    ensures ok ==> out == Datagrams(mem, all)
    ensures |out| <= |all| && out == Datagrams(mem, all)[..|out|]
    ensures offload ==> gso
  {
    var done := 0;
    out, offload, calls := [], gso, 0;
    while done < |all|
      invariant done <= |all| && |out| == done && out == Datagrams(mem, all)[..done] && (offload ==> gso)
      invariant forall i | 0 <= i < calls :: kernel(i).failure == NoFailure || (gso && kernel(i).failure == Unsupported)
      decreases |all| - done, offload
    {
      var packets := all[done..if done + SEND_BATCH < |all| then done + SEND_BATCH else |all|];
      var answer := kernel(calls);
      calls := calls + 1;
      var sent, datagrams := WriteBatch(mem, packets, offload, answer);
      BatchIsSlice(mem, all, done, packets, sent);
      out := out + datagrams;
      done := done + sent;
      if answer.failure != NoFailure {
        if offload && answer.failure == Unsupported {
          offload := false;
          continue;
        }
        return false, out, offload, calls;
      }
      if sent == 0 {
        return false, out, offload, calls;
      }
    }
    return true, out, offload, calls;
  }

  lemma BatchIsSlice(mem: seq<Byte>, all: seq<Slice>, done: nat, packets: seq<Slice>, n: nat)
    requires SlicesOk(mem, all) && done + |packets| <= |all| && packets == all[done..done + |packets|] && n <= |packets|
    ensures SlicesOk(mem, packets)
    ensures Datagrams(mem, all)[..done] + Datagrams(mem, packets)[..n] == Datagrams(mem, all)[..done + n]
  {}
}
