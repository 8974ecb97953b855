/** The circular anti-replay bitmap (section 3.4.3 of RFC 4303) against the plain
    set of sequence numbers it stands for. */
module EspReplay {
  import opened Bytes
  import opened Words

  const MAX_REPLAY_WINDOW: int := 0x10_0000

  // ----- positions -----

  /** The place of a sequence number on the circle. */
  function Slot(seqno: int, window: int): int
    requires window > 0
  {
    (seqno - 1) % window
  }

  /** Numbers less than a window apart share a place only if they are equal. */
  lemma SlotsAreDistinct(s: int, t: int, window: int)
    requires window > 0 && -window < s - t < window
    ensures Slot(s, window) == Slot(t, window) <==> s == t
  {
    var a, b := s - 1, t - 1;
    var qa, qb := a / window, b / window;
    if a % window == b % window {
      assert a - b == window * qa - window * qb == window * (qa - qb);
      if qa != qb {
        QuotientGap(window, qa - qb);
      }
    }
  }

  lemma {:induction false} QuotientGap(window: int, q: int)
    requires window > 0 && q != 0
    ensures window * q >= window || window * q <= -window
    decreases if q > 0 then q else -q
  {
    if q > 1 {
      QuotientGap(window, q - 1);
      assert window * q == window * (q - 1) + window;
    } else if q < -1 {
      QuotientGap(window, q + 1);
      assert window * q == window * (q + 1) - window;
    }
  }

  /** Stepping back `diff` places from the newest number, as the code does it. */
  lemma StepBack(last: int, diff: int, window: int)
    requires window > 0 && 0 <= diff < window
    ensures (Slot(last, window) + window - diff) % window == Slot(last - diff, window)
  {
    var pos, q := Slot(last, window), (last - 1) / window;
    var r := Slot(last - diff, window);
    assert last - 1 == window * q + pos;
    if diff <= pos {
      ModUnique(last - diff - 1, window, q, pos - diff);
      ModUnique(pos + window - diff, window, 1, pos - diff);
    } else {
      ModUnique(last - diff - 1, window, q - 1, pos + window - diff);
      ModUnique(pos + window - diff, window, 0, pos + window - diff);
    }
  }

  lemma ModUnique(x: int, window: int, q: int, r: int)
    requires window > 0 && x == window * q + r && 0 <= r < window
    ensures x % window == r
  {
    var q', r' := x / window, x % window;
    assert window * (q' - q) == r - r';
    if q' != q {
      QuotientGap(window, q' - q);
    }
  }

  // ----- bits -----

  predicate BitAt(m: seq<Word>, b: nat)
    requires b < 64 * |m|
  {
    m[b / 64][b % 64]
  }

  /** Word k with the bits from lo up to hi of the whole bitmap cleared. */
  ghost predicate WordCleared(was: Word, now: Word, k: int, lo: int, hi: int) {
    forall j | 0 <= j < 64 :: now[j] == (was[j] && !(lo <= 64 * k + j < hi))
  }

  ghost predicate Cleared(was: seq<Word>, now: seq<Word>, lo: int, hi: int) {
    && |now| == |was|
    && forall k | 0 <= k < |was| :: WordCleared(was[k], now[k], k, lo, hi)
  }

  lemma HeadMask(w: Word, k: int, start: int, end: int)
    requires 64 * k <= start < 64 * k + 64 <= end
    ensures WordCleared(w, AndNot(w, Shl(ONES, start - 64 * k)), k, start, end)
  {}

  lemma TailMask(w: Word, k: int, start: int, end: int)
    requires start <= 64 * k < end < 64 * k + 64
    ensures WordCleared(w, AndNot(w, Shr(ONES, 64 * k + 64 - end)), k, start, end)
  {}

  lemma UntouchedWord(w: Word, k: int, start: int, end: int)
    requires end <= 64 * k || 64 * k + 64 <= start
    ensures WordCleared(w, w, k, start, end)
  {}

  lemma WholeWord(w: Word, k: int, start: int, end: int)
    requires start <= 64 * k && 64 * k + 64 <= end
    ensures WordCleared(w, ZERO, k, start, end)
  {}

  // ----- the set a bitmap stands for -----

  ghost predicate Mirrors(m: seq<Word>, window: int, last: int, accepted: set<int>) {
    && 0 < window <= 64 * |m|
    && (forall s | s in accepted :: 0 < s <= last)
    && forall s | last - window < s <= last :: BitAt(m, Slot(s, window)) <==> s in accepted
  }

  /** Whether place c is among the n places from start, wrapping at the window. */
  predicate InArc(c: int, start: int, n: int, window: int) {
    start <= c < start + n || c < start + n - window
  }

  ghost predicate ArcCleared(was: seq<Word>, now: seq<Word>, window: int, start: int, n: int)
    requires window <= 64 * |was|
  {
    && |now| == |was|
    && forall c | 0 <= c < window :: BitAt(now, c) == (BitAt(was, c) && !InArc(c, start, n, window))
  }

  ghost predicate Marked(was: seq<Word>, now: seq<Word>, b: int) {
    && |now| == |was|
    && forall c | 0 <= c < 64 * |was| :: BitAt(now, c) == (BitAt(was, c) || c == b)
  }

  lemma ClearedBit(was: seq<Word>, now: seq<Word>, lo: int, hi: int, c: int)
    requires Cleared(was, now, lo, hi) && 0 <= c < 64 * |was|
    ensures BitAt(now, c) == (BitAt(was, c) && !(lo <= c < hi))
  {
    assert WordCleared(was[c / 64], now[c / 64], c / 64, lo, hi);
  }

  lemma OneSpanIsAnArc(was: seq<Word>, now: seq<Word>, window: int, from: int, n: int)
    requires 0 <= from && 0 <= n && from + n <= window <= 64 * |was|
    requires Cleared(was, now, from, from + n)
    ensures ArcCleared(was, now, window, from, n)
  {
    forall c | 0 <= c < window
      ensures BitAt(now, c) == (BitAt(was, c) && !InArc(c, from, n, window))
    {
      ClearedBit(was, now, from, from + n, c);
    }
  }

  lemma TwoSpansAreAnArc(was: seq<Word>, mid: seq<Word>, now: seq<Word>, window: int, from: int, n: int)
    requires 0 <= from < window < from + n && n < window <= 64 * |was|
    requires Cleared(was, mid, from, window) && Cleared(mid, now, 0, from + n - window)
    ensures ArcCleared(was, now, window, from, n)
  {
    forall c | 0 <= c < window
      ensures BitAt(now, c) == (BitAt(was, c) && !InArc(c, from, n, window))
    {
      ClearedBit(was, mid, from, window, c);
      ClearedBit(mid, now, 0, from + n - window, c);
    }
  }

  /** Counting k places on from a number's place. */
  lemma SlotAhead(s: int, k: int, window: int)
    requires window > 0 && 0 <= k < window
    ensures Slot(s + k, window)
         == if Slot(s, window) + k < window then Slot(s, window) + k else Slot(s, window) + k - window
  {
    var p, q := Slot(s, window), (s - 1) / window;
    if p + k < window {
      ModUnique(s + k - 1, window, q, p + k);
    } else {
      ModUnique(s + k - 1, window, q + 1, p + k - window);
    }
  }

  lemma SlotRepeats(s: int, window: int)
    requires window > 0
    ensures Slot(s + window, window) == Slot(s, window)
  {
    ModUnique(s + window - 1, window, (s - 1) / window + 1, Slot(s, window));
  }

  /** The places a jump from last to seqno skips are those of the numbers between. */
  lemma SkippedPlaces(last: int, seqno: int, window: int, s: int)
    requires window > 0 && last < seqno < last + window && seqno - window < s < seqno
    ensures InArc(Slot(s, window), Slot(last + 1, window), seqno - last - 1, window) <==> last < s
  {
    if last < s {
      SlotAhead(last + 1, s - last - 1, window);
    } else {
      SlotRepeats(s, window);
      SlotAhead(last + 1, s + window - last - 1, window);
    }
  }

  /** A newer number: the skipped places are cleared and its own is set. */
  lemma AdvanceMirrors(was: seq<Word>, mid: seq<Word>, now: seq<Word>, window: int, last: int, seqno: int,
                       accepted: set<int>)
    requires Mirrors(was, window, last, accepted) && 0 <= last < seqno
    requires seqno < last + window ==> ArcCleared(was, mid, window, Slot(last + 1, window), seqno - last - 1)
    requires seqno >= last + window ==> |mid| == |was| && forall c | 0 <= c < window :: !BitAt(mid, c)
    requires Marked(mid, now, Slot(seqno, window))
    ensures Mirrors(now, window, seqno, accepted + {seqno})
  {
    forall s | seqno - window < s <= seqno
      ensures BitAt(now, Slot(s, window)) <==> s in accepted + {seqno}
    {
      SlotsAreDistinct(s, seqno, window);
      if s < seqno < last + window {
        SkippedPlaces(last, seqno, window, s);
      }
    }
  }

  /** The first number ever: nothing has been set, so nothing needs clearing. */
  lemma FirstMirrors(was: seq<Word>, now: seq<Word>, window: int, seqno: int, accepted: set<int>)
    requires Mirrors(was, window, 0, accepted) && 0 < seqno
    requires Marked(was, now, Slot(seqno, window))
    ensures Mirrors(now, window, seqno, accepted + {seqno})
  {
    forall c | 0 <= c < window
      ensures !BitAt(was, c)
    {
      ModUnique(c - window, window, -1, c);
      assert Slot(c + 1 - window, window) == c;
    }
    forall s | seqno - window < s <= seqno
      ensures BitAt(now, Slot(s, window)) <==> s in accepted + {seqno}
    {
      SlotsAreDistinct(s, seqno, window);
    }
  }

  lemma LateMirrors(was: seq<Word>, now: seq<Word>, window: int, last: int, seqno: int, accepted: set<int>)
    requires Mirrors(was, window, last, accepted) && 0 < seqno <= last && last - seqno < window
    requires Marked(was, now, Slot(seqno, window))
    ensures Mirrors(now, window, last, accepted + {seqno})
  {
    forall s | last - window < s <= last
      ensures BitAt(now, Slot(s, window)) <==> s in accepted + {seqno}
    {
      SlotsAreDistinct(s, seqno, window);
    }
  }

  // ----- the window itself -----

  datatype Verdict = Fresh | ZeroNumber | TooOld | Replayed

  /** What the bitmap stands for: the newest number and all the numbers taken. */
  datatype Replay = Replay(window: int, last: int, accepted: set<int>)

  /** What a receiver that remembered every number would answer; a window of
      zero checks nothing. */
  function Judge(w: Replay, seqno: int): Verdict {
    if w.window == 0 then Fresh
    else if seqno == 0 then ZeroNumber
    else if seqno > w.last then Fresh
    else if w.last - seqno >= w.window then TooOld
    else if seqno in w.accepted then Replayed
    else Fresh
  }

  function Take(w: Replay, seqno: int): Replay {
    if w.window == 0 then w
    else Replay(w.window, if seqno > w.last then seqno else w.last, w.accepted + {seqno})
  }

  /** The bitmap of one security association. */
  class ReplayWindow {
    const window: int
    var last: int
    const mask: array<Word>
    /** The numbers taken so far. */
    ghost var accepted: set<int>

    ghost predicate Valid()
      reads this, mask
    {
      && 0 <= window <= MAX_REPLAY_WINDOW
      && 0 <= last < 0x1_0000_0000
      && (window > 0 ==> Mirrors(mask[..], window, last, accepted))
      && (window == 0 ==> accepted == {})
    }

    ghost function View(): Replay
      reads this
    {
      Replay(window, last, accepted)
    }

    constructor (size: int)
      requires 0 <= size <= MAX_REPLAY_WINDOW
      ensures Valid() && fresh(mask) && View() == Replay(size, 0, {})
    {
      window := size;
      last := 0;
      mask := new Word[(size + 63) / 64](_ => ZERO);
      accepted := {};
    }

    method Check(seqno: U32) returns (verdict: Verdict)
      requires Valid()
      ensures verdict == Judge(View(), seqno)
    {
      if window == 0 {
        return Fresh;
      }
      if seqno == 0 {
        return ZeroNumber;
      }
      if last == 0 || seqno > last {
        return Fresh;
      }
      var diff := last - seqno;
      if diff >= window {
        return TooOld;
      }
      var b := Bit(diff);
      if mask[b / 64][b % 64] {
        return Replayed;
      }
      return Fresh;
    }

    /** The place of the number diff before the newest; no step of it leaves 32 bits. */
    method Bit(diff: int) returns (b: int)
      requires 0 < window <= MAX_REPLAY_WINDOW && 0 <= diff < window
      ensures b == Slot(last - diff, window)
    {
      var pos := (last - 1) % window;
      assert 0 <= pos + window - diff < 0x1_0000_0000;
      StepBack(last, diff, window);
      b := (pos + window - diff) % window;
    }

    /** Takes a number that was just checked. */
    method Commit(seqno: U32)
      requires Valid()
      requires Judge(View(), seqno) == Fresh
      modifies this, mask
      ensures Valid() && View() == Take(old(View()), seqno)
    {
      if window == 0 {
        return;
      }
      if last == 0 {
        Mark((seqno - 1) % window);
        FirstMirrors(old(mask[..]), mask[..], window, seqno, accepted);
        last := seqno;
      } else if seqno > last {
        Skip(seqno);
        ghost var mid := mask[..];
        Mark((seqno - 1) % window);
        AdvanceMirrors(old(mask[..]), mid, mask[..], window, last, seqno, accepted);
        last := seqno;
      } else {
        var b := Bit(last - seqno);
        Mark(b);
        LateMirrors(old(mask[..]), mask[..], window, last, seqno, accepted);
      }
      accepted := accepted + {seqno};
    }

    method Mark(b: int)
      requires 0 <= b < 64 * mask.Length
      modifies mask
      ensures Marked(old(mask[..]), mask[..], b)
    {
      mask[b / 64] := Or(mask[b / 64], Shl(ONE, b % 64));
    }

    /** Clears the places of the numbers between the newest and seqno. */
    method Skip(seqno: int)
      requires 0 < window <= MAX_REPLAY_WINDOW && window <= 64 * mask.Length && 0 < last < seqno
      modifies mask
      ensures seqno < last + window
          ==> ArcCleared(old(mask[..]), mask[..], window, Slot(last + 1, window), seqno - last - 1)
      ensures seqno >= last + window ==> forall c | 0 <= c < window :: !BitAt(mask[..], c)
    {
      var diff := seqno - last;
      if diff >= window {
        ClearWords(0, mask.Length);
      } else {
        SlotAhead(last, 1, window);
        ClearRange((last - 1) % window + 1, diff - 1);
      }
    }

    /** Clears n bits from start, wrapping at the window. */
    method ClearRange(start: int, n: int)
      requires 0 < window <= MAX_REPLAY_WINDOW && window <= 64 * mask.Length
      requires 0 <= start <= window && 0 <= n < window
      modifies mask
      ensures ArcCleared(old(mask[..]), mask[..], window, if start == window then 0 else start, n)
    {
      if n == 0 {
        return;
      }
      if start < window {
        ModUnique(start, window, 0, start);
      } else {
        ModUnique(start, window, 1, 0);
      }
      ClearArc(start % window, n);
    }

    method ClearArc(from: int, n: int)
      requires 0 < window <= MAX_REPLAY_WINDOW && window <= 64 * mask.Length
      requires 0 <= from < window && 0 <= n < window
      modifies mask
      ensures ArcCleared(old(mask[..]), mask[..], window, from, n)
    {
      assert from + n < 0x1_0000_0000;
      ghost var was := mask[..];
      if from + n > window {
        var head := window - from;
        ClearSpan(from, head);
        ghost var mid := mask[..];
        ClearSpan(0, n - head);
        TwoSpansAreAnArc(was, mid, mask[..], window, from, n);
      } else {
        ClearSpan(from, n);
        OneSpanIsAnArc(was, mask[..], window, from, n);
      }
    }

    /** Clears n bits from start without wrapping: two partial words and the
        whole words between them. */
    method ClearSpan(start: int, n: int)
      requires 0 <= start && 0 <= n && start + n <= 64 * mask.Length
      modifies mask
      ensures Cleared(old(mask[..]), mask[..], start, start + n)
    {
      if n == 0 {
        return;
      }
      var first, final := start / 64, (start + n - 1) / 64;
      if first == final {
        mask[first] := AndNot(mask[first], Shl(Shr(ONES, 64 - n), start % 64));
      } else {
        ClearAcross(start, start + n, first, final);
      }
    }

    method ClearAcross(start: int, end: int, head: int, tail: int)
      requires 0 <= start < end <= 64 * mask.Length
      requires head == start / 64 && tail == (end - 1) / 64 && head < tail
      modifies mask
      ensures Cleared(old(mask[..]), mask[..], start, end)
    {
      var first := ClearHead(start, end, head);
      var final := ClearTail(start, end, tail);
      ClearWords(first, final + 1);
      forall k | 0 <= k < mask.Length
        ensures WordCleared(old(mask[k]), mask[k], k, start, end)
      {
        if k < head || tail < k {
          UntouchedWord(old(mask[k]), k, start, end);
        } else if first <= k <= final {
          WholeWord(old(mask[k]), k, start, end);
        }
      }
    }

    method ClearHead(start: int, end: int, head: int) returns (first: int)
      requires 0 <= head < mask.Length && 64 * head <= start < 64 * head + 64 <= end
      modifies mask
      ensures first == if start == 64 * head then head else head + 1
      ensures start != 64 * head ==> WordCleared(old(mask[head]), mask[head], head, start, end)
      ensures forall k | 0 <= k < mask.Length && !(head <= k < first) :: mask[k] == old(mask[k])
    {
      first := head;
      if start % 64 != 0 {
        HeadMask(mask[first], first, start, end);
        mask[first] := AndNot(mask[first], Shl(ONES, start % 64));
        first := first + 1;
      }
    }

    method ClearTail(start: int, end: int, tail: int) returns (final: int)
      requires 0 <= tail < mask.Length && start <= 64 * tail < end <= 64 * tail + 64
      modifies mask
      ensures final == if end == 64 * tail + 64 then tail else tail - 1
      ensures end != 64 * tail + 64 ==> WordCleared(old(mask[tail]), mask[tail], tail, start, end)
      ensures forall k | 0 <= k < mask.Length && !(final < k <= tail) :: mask[k] == old(mask[k])
    {
      final := tail;
      if end % 64 != 0 {
        TailMask(mask[final], final, start, end);
        mask[final] := AndNot(mask[final], Shr(ONES, 64 - end % 64));
        final := final - 1;
      }
    }

    method ClearWords(lo: int, hi: int)
      requires 0 <= lo <= hi <= mask.Length
      modifies mask
      ensures forall k | 0 <= k < mask.Length :: mask[k] == if lo <= k < hi then ZERO else old(mask[k])
    {
      var k := lo;
      while k < hi
        invariant lo <= k <= hi
        invariant forall i | 0 <= i < mask.Length :: mask[i] == if lo <= i < k then ZERO else old(mask[i])
      {
        mask[k] := ZERO;
        k := k + 1;
      }
    }
  }
}
