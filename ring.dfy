/**
 * Ring storage shared by the receive and transmit engines of the
 * Synopsys GMAC data path: ring index arithmetic, the two-segment
 * buffer split, and the index intervals over which batched cache
 * maintenance and buffer release run.
 */
module Ring {

  /** One past the largest value of a 32-bit unsigned C integer. */
  const Word: int := 0x1_0000_0000

  /** A `uint32_t` (bus addresses and descriptor words in the driver). */
  type U32 = x: int | 0 <= x < Word

  datatype Option<T> = None | Some(value: T)

  /**
   * `syn_dp_{rx,tx}_inc_index(i, k)`: the slot `k` positions after slot
   * `i` in a ring of `n` slots.  The engines only advance by a count of
   * at most `n`, so the index wraps at most once.
   */
  function Inc(i: nat, k: nat, n: nat): (r: nat)
    requires i < n && k <= n
    ensures r < n
  {
    if i + k < n then i + k else i + k - n
  }

  /** Advancing wraps modulo the ring size. */
  lemma IncIsMod(i: nat, k: nat, n: nat)
    requires i < n && k <= n
    ensures Inc(i, k, n) == (i + k) % n
  {
    if n <= i + k {
      assert i + k == 1 * n + (i + k - n);
    }
  }

  /**
   * The circular distance from slot `a` forward to slot `i`: the number
   * of `Inc` steps of one slot that lead from `a` to `i`.
   */
  function Off(a: nat, i: nat, n: nat): (r: nat)
    requires a < n && i < n
    ensures r < n
    ensures Inc(a, r, n) == i
  {
    if a <= i then i - a else i + n - a
  }

  lemma OffUnique(a: nat, i: nat, n: nat, k: nat)
    requires a < n && i < n && k < n
    ensures Inc(a, k, n) == i <==> k == Off(a, i, n)
  {
  }

  /**
   * How a buffer of `length` bytes at bus address `buffer` is programmed
   * into a descriptor's two segments, as `syn_dp_rx_refill_one_desc` and
   * `syn_dp_tx_set_desc` do it.
   */
  datatype Segments = Segments(size1: nat, size2: nat, buffer1: U32, buffer2: U32)

  /**
   * The two-segment rule: a buffer longer than `maxLen` (the driver's
   * `SYN_DP_MAX_DESC_BUFF_LEN`) continues in a second segment that starts
   * `maxLen` bytes after the first, in 32-bit address arithmetic.
   */
  function Split(buffer: U32, length: nat, maxLen: nat): (s: Segments)
    ensures s.buffer1 == buffer
    ensures s.size1 + s.size2 == length
    ensures s.size1 <= maxLen
    ensures s.size2 == 0 <==> length <= maxLen
    ensures length <= maxLen ==> s.size1 == length && s.size2 == 0 && s.buffer2 == 0
    ensures length > maxLen ==>
      s.size1 == maxLen && s.size2 == length - maxLen && s.buffer2 == (buffer + maxLen) % Word
  {
    if length <= maxLen then
      Segments(length, 0, buffer, 0)
    else
      Segments(maxLen, length - maxLen, buffer, (buffer + maxLen) % Word)
  }

  /** An inclusive interval `[first..last]` of slot indices. */
  datatype Span = Span(first: nat, last: nat)

  predicate InSpans(spans: seq<Span>, i: nat)
  {
    exists j :: 0 <= j < |spans| && spans[j].first <= i <= spans[j].last
  }

  /**
   * The descriptor ranges of the receive engine's batched flush
   * (`syn_dp_rx_refill`) and invalidate (`syn_dp_rx`): from `start` up to
   * and including `end`, split at the last slot when `end` is not past
   * `start`.
   */
  function CacheSpans(start: nat, end: nat, n: nat): (r: seq<Span>)
    requires start < n && end < n
    ensures 1 <= |r| <= 2 && r[0].first == start && r[|r| - 1].last == end
    ensures forall j :: 0 <= j < |r| ==> r[j].first <= r[j].last < n
    ensures |r| == 2 <==> end <= start
    ensures |r| == 2 ==> r[0].last == n - 1 && r[1].first == 0
  {
    if end > start then [Span(start, end)] else [Span(start, n - 1), Span(0, end)]
  }

  /**
   * The batched ranges computed for a batch of `count` slots from `start`
   * cover the slots of the batch and the one slot after it; a batch of no
   * slot (and a batch of the whole ring) covers every slot.
   */
  lemma CacheSpansExact(start: nat, count: nat, n: nat, i: nat)
    requires start < n && count <= n && i < n
    ensures InSpans(CacheSpans(start, Inc(start, count, n), n), i)
        <==> count == 0 || Off(start, i, n) <= count
  {
    var spans := CacheSpans(start, Inc(start, count, n), n);
    if count == 0 || Off(start, i, n) <= count {
      if start <= i {
        assert spans[0].first <= i <= spans[0].last;
      } else {
        assert spans[|spans| - 1].first <= i <= spans[|spans| - 1].last;
      }
    }
  }

  /**
   * The slot ranges whose buffers `syn_dp_tx_complete` releases after
   * consuming the slots `start` up to and including `last`, as the code
   * is written: the head part of a wrapped range is released only when
   * it ends at a non-zero index.
   */
  function ReleaseSpans(start: nat, last: nat, n: nat): (r: seq<Span>)
    requires start < n && last < n
    ensures 1 <= |r| <= 2 && r[0].first == start
    ensures forall j :: 0 <= j < |r| ==> r[j].first <= r[j].last < n
    ensures |r| == 2 <==> 0 < last < start
    ensures |r| == 2 ==> r[0].last == n - 1 && r[1] == Span(0, last)
    ensures last < start ==> r[0].last == n - 1
    ensures start <= last ==> r == [Span(start, last)]
  {
    if last >= start then [Span(start, last)]
    else if last != 0 then [Span(start, n - 1), Span(0, last)]
    else [Span(start, n - 1)]
  }

  /**
   * The slot ranges that make up the consumed range `start` up to and
   * including `last`: the release ranges `syn_dp_tx_complete` evidently
   * intends.
   */
  function ConsumedSpans(start: nat, last: nat, n: nat): (r: seq<Span>)
    requires start < n && last < n
    ensures 1 <= |r| <= 2 && r[0].first == start && r[|r| - 1].last == last
    ensures forall j :: 0 <= j < |r| ==> r[j].first <= r[j].last < n
    ensures |r| == 2 <==> last < start
    ensures |r| == 2 ==> r[0].last == n - 1 && r[1].first == 0
  {
    if last >= start then [Span(start, last)] else [Span(start, n - 1), Span(0, last)]
  }

  /** The intended release ranges hold exactly the consumed slots. */
  lemma ConsumedSpansExact(start: nat, last: nat, n: nat, i: nat)
    requires start < n && last < n && i < n
    ensures InSpans(ConsumedSpans(start, last, n), i) <==> Off(start, i, n) <= Off(start, last, n)
  {
    var spans := ConsumedSpans(start, last, n);
    if Off(start, i, n) <= Off(start, last, n) {
      if start <= i {
        assert spans[0].first <= i <= spans[0].last;
      } else {
        assert spans[|spans| - 1].first <= i <= spans[|spans| - 1].last;
      }
    }
  }

  /**
   * The release ranges as written agree with the intended ones except
   * when the consumed range wraps and ends at slot 0: then slot 0 has
   * been consumed but is not released.
   */
  lemma ReleaseSpansMissSlotZero(start: nat, last: nat, n: nat)
    requires start < n && last < n
    ensures last == 0 < start ==>
      Off(start, 0, n) <= Off(start, last, n) && !InSpans(ReleaseSpans(start, last, n), 0)
    ensures !(last == 0 < start) ==> ReleaseSpans(start, last, n) == ConsumedSpans(start, last, n)
  {
    if last == 0 < start {
      var spans := ReleaseSpans(start, last, n);
      assert |spans| == 1 && spans[0].first == start;
    }
  }
}
