/**
 * The transmit ring of the GMAC data path (`syn_dp_tx.c`): a fixed array
 * of descriptors with a parallel buffer pool, an enqueue cursor (the next
 * slot to fill), a completion cursor (the next slot to reclaim) and the
 * count of slots handed to the DMA engine.
 */
module TxEngine {
  import opened Ring
  import opened Descriptors

  /** An entry of `tx_buf_pool`: the socket buffer queued in the slot and its length. */
  datatype TxBuf = TxBuf(skb: Option<nat>, len: nat)

  /** A pool entry after `syn_dp_tx_clear_buf_entry`. */
  const EmptyBuf := TxBuf(None, 0)

  /**
   * A socket buffer handed to `syn_dp_tx`: its identity, its length, the
   * bus address of its data, and whether the stack asked for checksum
   * offload (`CHECKSUM_PARTIAL`).
   */
  datatype TxSkb = TxSkb(id: nat, len: nat, phys: U32, csumPartial: bool)

  /** The transmit statistics `tx_stats` the engine updates. */
  datatype TxStats = TxStats(
    packets: nat,
    bytes: nat,
    errors: nat,
    jabberTimeoutErrors: nat,
    frameFlushedErrors: nat,
    lossOfCarrierErrors: nat,
    noCarrierErrors: nat,
    lateCollisionErrors: nat,
    excessiveCollisionErrors: nat,
    excessiveDeferralErrors: nat,
    underflowErrors: nat,
    ipHeaderErrors: nat,
    ipPayloadErrors: nat,
    descNotAvail: nat)

  const ZeroStats := TxStats(0, 0, 0, 0, 0, 0, 0, 0, 0, 0, 0, 0, 0, 0)

  /**
   * `syn_dp_tx_error_cnt`: a failed frame counts once in `tx_errors`, and
   * once more in each per-cause counter whose status bit is set.
   */
  function TxErrorCount(st: TxStats, status: bv32): (r: TxStats)
    ensures r.errors == st.errors + 1
    ensures r.jabberTimeoutErrors == st.jabberTimeoutErrors + Bit(status, TxTimeout)
    ensures r.frameFlushedErrors == st.frameFlushedErrors + Bit(status, TxFrameFlushed)
    ensures r.lossOfCarrierErrors == st.lossOfCarrierErrors + Bit(status, TxLostCarrier)
    ensures r.noCarrierErrors == st.noCarrierErrors + Bit(status, TxNoCarrier)
    ensures r.lateCollisionErrors == st.lateCollisionErrors + Bit(status, TxLateCollision)
    ensures r.excessiveCollisionErrors == st.excessiveCollisionErrors + Bit(status, TxExcCollisions)
    ensures r.excessiveDeferralErrors == st.excessiveDeferralErrors + Bit(status, TxExcDeferral)
    ensures r.underflowErrors == st.underflowErrors + Bit(status, TxUnderflow)
    ensures r.ipHeaderErrors == st.ipHeaderErrors + Bit(status, TxIpv4ChkError)
    ensures r.ipPayloadErrors == st.ipPayloadErrors + Bit(status, TxPayChkError)
    ensures r.packets == st.packets && r.bytes == st.bytes && r.descNotAvail == st.descNotAvail
  {
    st.(errors := st.errors + 1,
        jabberTimeoutErrors := st.jabberTimeoutErrors + Bit(status, TxTimeout),
        frameFlushedErrors := st.frameFlushedErrors + Bit(status, TxFrameFlushed),
        lossOfCarrierErrors := st.lossOfCarrierErrors + Bit(status, TxLostCarrier),
        noCarrierErrors := st.noCarrierErrors + Bit(status, TxNoCarrier),
        lateCollisionErrors := st.lateCollisionErrors + Bit(status, TxLateCollision),
        excessiveCollisionErrors := st.excessiveCollisionErrors + Bit(status, TxExcCollisions),
        excessiveDeferralErrors := st.excessiveDeferralErrors + Bit(status, TxExcDeferral),
        underflowErrors := st.underflowErrors + Bit(status, TxUnderflow),
        ipHeaderErrors := st.ipHeaderErrors + Bit(status, TxIpv4ChkError),
        ipPayloadErrors := st.ipPayloadErrors + Bit(status, TxPayChkError))
  }

  /**
   * The status word `syn_dp_tx_set_desc` writes: the caller's `status`,
   * plus the checksum-insertion field when offload is needed, plus the
   * end-of-ring bit in the last slot.  Every other bit (mask
   * `0xFF1F_FFFF`, all but those two fields) is the caller's.
   */
  function StatusWord(status: bv32, offload: bool, endOfRing: bool): (w: bv32)
    ensures w & TxCisTcpPseudoCs == if offload then TxCisTcpPseudoCs else status & TxCisTcpPseudoCs
    ensures w & TxEndOfRing == if endOfRing then TxEndOfRing else status & TxEndOfRing
    ensures w & 0xFF1F_FFFF == status & 0xFF1F_FFFF
  {
    var csum: bv32 := if offload then TxCisTcpPseudoCs else 0;
    var eor: bv32 := if endOfRing then TxEndOfRing else 0;
    status | csum | eor
  }

  /**
   * The status word of a frame `syn_dp_tx` queues: one whole frame (first
   * and last segment), completion interrupt requested, handed to the DMA
   * engine, with no error bit; checksum insertion exactly when offload
   * was asked for, end-of-ring exactly in the last slot.
   */
  function SubmitStatus(offload: bool, endOfRing: bool): (w: bv32)
    ensures w & OwnByDma != 0 && w & TxIntEnable != 0
    ensures w & TxFirst != 0 && w & TxLast != 0 && w & TxError == 0
    ensures w & TxCisTcpPseudoCs == (if offload then TxCisTcpPseudoCs else 0)
    ensures (w & TxEndOfRing != 0) == endOfRing
  {
    StatusWord(TxLast | TxFirst | TxIntEnable | OwnByDma, offload, endOfRing)
  }

  /**
   * The number of slots the completion scan reclaims: from `start`, in
   * ring order, the slots the DMA engine has handed back, at most `limit`.
   */
  function TxDone(ds: seq<TxDesc>, start: nat, limit: nat): (r: nat)
    requires start < |ds| && limit <= |ds|
    ensures r <= limit
    ensures forall j :: 0 <= j < r ==> !TxOwned(ds[Inc(start, j, |ds|)])
    ensures r < limit ==> TxOwned(ds[Inc(start, r, |ds|)])
    decreases limit
  {
    if limit == 0 || TxOwned(ds[start]) then 0
    else
      var rest := TxDone(ds, Inc(start, 1, |ds|), limit - 1);
      assert forall j :: 0 <= j < rest + 1 ==>
        Inc(start, j, |ds|) == if j == 0 then start else Inc(Inc(start, 1, |ds|), j - 1, |ds|);
      rest + 1
  }

  /** The scan ends exactly where a loop that stops at the first owned slot or after `limit` slots ends. */
  lemma TxDoneUnique(ds: seq<TxDesc>, start: nat, limit: nat, k: nat)
    requires start < |ds| && limit <= |ds| && k <= limit
    requires forall j :: 0 <= j < k ==> !TxOwned(ds[Inc(start, j, |ds|)])
    requires k < limit ==> TxOwned(ds[Inc(start, k, |ds|)])
    ensures TxDone(ds, start, limit) == k
  {
  }

  /**
   * The statistics after reclaiming one completed slot whose status word
   * is `status` and whose buffer holds `len` bytes: a last segment counts
   * as a sent frame or as a failed one, any other segment not at all.
   */
  function Reclaimed(st: TxStats, status: bv32, len: nat): (r: TxStats)
    ensures r.descNotAvail == st.descNotAvail
    ensures status & TxLast == 0 ==> r == st
    ensures status & TxLast != 0 && status & TxError == 0 ==>
      r == st.(packets := st.packets + 1, bytes := st.bytes + len)
    ensures status & TxLast != 0 && status & TxError != 0 ==>
      r.packets == st.packets && r.bytes == st.bytes && r.errors == st.errors + 1
    ensures status & TxLast != 0 && status & TxError != 0 ==> r == TxErrorCount(st, status)
  {
    if status & TxLast != 0 then
      if status & TxError == 0 then st.(packets := st.packets + 1, bytes := st.bytes + len)
      else TxErrorCount(st, status)
    else st
  }

  /** The statistics after reclaiming `k` slots from `start`. */
  function CompleteStats(st: TxStats, ds: seq<TxDesc>, ps: seq<TxBuf>, start: nat, k: nat): TxStats
    requires |ds| == |ps| && start < |ds| && k <= |ds|
  {
    if k == 0 then st
    else
      var i := Inc(start, k - 1, |ds|);
      Reclaimed(CompleteStats(st, ds, ps, start, k - 1), ds[i].status, ps[i].len)
  }

  /** The number of last segments among the `k` slots from `start`. */
  function Frames(ds: seq<TxDesc>, start: nat, k: nat): nat
    requires start < |ds| && k <= |ds|
  {
    if k == 0 then 0
    else Frames(ds, start, k - 1) + if ds[Inc(start, k - 1, |ds|)].status & TxLast != 0 then 1 else 0
  }

  /**
   * Reclaiming counts every frame once: `tx_packets` plus `tx_errors`
   * grow by the number of last segments reclaimed, which is every
   * reclaimed slot when each carries a whole frame, as `syn_dp_tx`
   * queues them; `tx_desc_not_avail` does not move.
   */
  lemma {:induction false} CompleteStatsCount(st: TxStats, ds: seq<TxDesc>, ps: seq<TxBuf>, start: nat, k: nat)
    requires |ds| == |ps| && start < |ds| && k <= |ds|
    ensures var r := CompleteStats(st, ds, ps, start, k);
      && r.packets + r.errors == st.packets + st.errors + Frames(ds, start, k)
      && r.descNotAvail == st.descNotAvail
      && st.packets <= r.packets && st.errors <= r.errors
    ensures Frames(ds, start, k) <= k
    ensures (forall j :: 0 <= j < k ==> ds[Inc(start, j, |ds|)].status & TxLast != 0) ==>
      Frames(ds, start, k) == k
  {
    if k > 0 {
      CompleteStatsCount(st, ds, ps, start, k - 1);
      var i := Inc(start, k - 1, |ds|);
      var s0 := CompleteStats(st, ds, ps, start, k - 1);
      assert CompleteStats(st, ds, ps, start, k) == Reclaimed(s0, ds[i].status, ps[i].len);
    }
  }

  /** The pool after `syn_dp_tx_clear_buf_entry` on every slot from `lo` up to `hi`, exclusive. */
  function ClearRange(ps: seq<TxBuf>, lo: nat, hi: nat): (r: seq<TxBuf>)
    ensures |r| == |ps|
    ensures forall i :: lo <= i < hi && i < |r| ==> r[i].skb.None? && r[i].len == 0
    ensures forall i :: 0 <= i < |r| && !(lo <= i < hi) ==> r[i] == ps[i]
  {
    seq(|ps|, i requires 0 <= i < |ps| => if lo <= i < hi then EmptyBuf else ps[i])
  }

  /** The buffers freed by releasing the slots from `lo` up to `hi`, exclusive, in order. */
  function Freed(ps: seq<TxBuf>, lo: nat, hi: nat): (r: seq<Option<nat>>)
    requires lo <= hi <= |ps|
    ensures |r| == hi - lo
  {
    seq(hi - lo, j requires 0 <= j < hi - lo => ps[lo + j].skb)
  }

  predicate SpansWithin(spans: seq<Span>, n: nat)
  {
    forall j :: 0 <= j < |spans| ==> spans[j].first <= spans[j].last < n
  }

  /** The pool after releasing the slots of `spans`, span by span. */
  function Release(ps: seq<TxBuf>, spans: seq<Span>): (r: seq<TxBuf>)
    requires SpansWithin(spans, |ps|)
    ensures |r| == |ps|
    decreases |spans|
  {
    if spans == [] then ps
    else Release(ClearRange(ps, spans[0].first, spans[0].last + 1), spans[1..])
  }

  /** The buffers freed by releasing the slots of `spans`, span by span, in order. */
  function FreedIn(ps: seq<TxBuf>, spans: seq<Span>): (r: seq<Option<nat>>)
    requires SpansWithin(spans, |ps|)
    decreases |spans|
  {
    if spans == [] then []
    else
      Freed(ps, spans[0].first, spans[0].last + 1)
        + FreedIn(ClearRange(ps, spans[0].first, spans[0].last + 1), spans[1..])
  }

  /** Releasing `spans` empties exactly the pool entries of the slots in them. */
  lemma {:induction false} ReleaseAt(ps: seq<TxBuf>, spans: seq<Span>, i: nat)
    requires SpansWithin(spans, |ps|) && i < |ps|
    ensures Release(ps, spans)[i] == if InSpans(spans, i) then EmptyBuf else ps[i]
    decreases |spans|
  {
    if spans != [] {
      var rest := spans[1..];
      var cleared := ClearRange(ps, spans[0].first, spans[0].last + 1);
      ReleaseAt(cleared, rest, i);
      if InSpans(rest, i) {
        var j :| 0 <= j < |rest| && rest[j].first <= i <= rest[j].last;
        assert spans[j + 1] == rest[j];
      }
      if InSpans(spans, i) && !(spans[0].first <= i <= spans[0].last) {
        var j :| 0 <= j < |spans| && spans[j].first <= i <= spans[j].last;
        assert rest[j - 1] == spans[j];
      }
    }
  }

  /**
   * The release ranges of a completion that consumed `k` slots from
   * `start` hold only consumed slots as written, and exactly the consumed
   * slots as intended.
   */
  lemma ReleaseOnlyConsumed(start: nat, k: nat, n: nat, i: nat)
    requires start < n && 0 < k <= n && i < n
    ensures InSpans(ReleaseSpans(start, Inc(start, k - 1, n), n), i) ==> Off(start, i, n) < k
    ensures InSpans(ConsumedSpans(start, Inc(start, k - 1, n), n), i) <==> Off(start, i, n) < k
  {
    var last := Inc(start, k - 1, n);
    OffUnique(start, last, n, k - 1);
    ConsumedSpansExact(start, last, n, i);
    ReleaseSpansMissSlotZero(start, last, n);
    var spans := ReleaseSpans(start, last, n);
    if InSpans(spans, i) {
      var j :| 0 <= j < |spans| && spans[j].first <= i <= spans[j].last;
      assert ConsumedSpans(start, last, n)[j] == spans[j];
    }
  }

  /** The release ranges of a completion that reclaimed `k` slots from `start`, as written. */
  function WrittenSpans(start: nat, k: nat, n: nat): (r: seq<Span>)
    requires start < n && k <= n
    ensures SpansWithin(r, n)
  {
    if k == 0 then [] else ReleaseSpans(start, Inc(start, k - 1, n), n)
  }

  /** The release ranges of a completion that reclaimed `k` slots from `start`, as intended. */
  function IntendedSpans(start: nat, k: nat, n: nat): (r: seq<Span>)
    requires start < n && k <= n
    ensures SpansWithin(r, n)
  {
    if k == 0 then [] else ConsumedSpans(start, Inc(start, k - 1, n), n)
  }

  /** Releasing one span clears it and frees its buffers. */
  lemma ReleaseOne(ps: seq<TxBuf>, spans: seq<Span>)
    requires |spans| == 1 && SpansWithin(spans, |ps|)
    ensures var cleared := ClearRange(ps, spans[0].first, spans[0].last + 1);
      && Release(ps, spans) == cleared
      && FreedIn(ps, spans) == Freed(ps, spans[0].first, spans[0].last + 1)
  {
    var cleared := ClearRange(ps, spans[0].first, spans[0].last + 1);
    assert spans[1..] == [];
    assert FreedIn(cleared, []) == [];
  }

  /** Releasing two spans clears and frees the first, then the second. */
  lemma ReleaseTwo(ps: seq<TxBuf>, spans: seq<Span>)
    requires |spans| == 2 && SpansWithin(spans, |ps|)
    ensures var mid := ClearRange(ps, spans[0].first, spans[0].last + 1);
      && Release(ps, spans) == ClearRange(mid, spans[1].first, spans[1].last + 1)
      && FreedIn(ps, spans)
         == Freed(ps, spans[0].first, spans[0].last + 1) + Freed(mid, spans[1].first, spans[1].last + 1)
  {
    var mid := ClearRange(ps, spans[0].first, spans[0].last + 1);
    ReleaseOne(mid, spans[1..]);
  }

  /**
   * The ring shape on array snapshots: `busy` slots from `comp` on hold a
   * queued buffer, and no other slot is handed to the DMA engine.
   */
  ghost predicate TxRingOk(ds: seq<TxDesc>, ps: seq<TxBuf>, comp: nat, busy: nat)
  {
    && 0 < |ds| == |ps|
    && comp < |ds| && busy <= |ds|
    && forall i :: 0 <= i < |ds| ==> TxSlotOk(ds, ps, comp, busy, i)
  }

  /** The part of the ring shape that concerns slot `i`. */
  ghost predicate TxSlotOk(ds: seq<TxDesc>, ps: seq<TxBuf>, comp: nat, busy: nat, i: nat)
    requires i < |ds| == |ps| && comp < |ds|
  {
    if Off(comp, i, |ds|) < busy then ps[i].skb.Some? else !TxOwned(ds[i])
  }

  /** Every pool entry outside the `busy` slots from `comp` is empty. */
  ghost predicate TxTidy(ps: seq<TxBuf>, comp: nat, busy: nat)
  {
    comp < |ps| && forall i :: 0 <= i < |ps| ==> TxSlotTidy(ps, comp, busy, i)
  }

  ghost predicate TxSlotTidy(ps: seq<TxBuf>, comp: nat, busy: nat, i: nat)
    requires i < |ps| && comp < |ps|
  {
    Off(comp, i, |ps|) < busy || ps[i] == EmptyBuf
  }

  /**
   * Moving the completion cursor `k` slots on shifts every distance by
   * `k` around the ring.
   */
  lemma OffShift(start: nat, k: nat, n: nat, i: nat)
    requires start < n && k <= n && i < n
    ensures Off(Inc(start, k, n), i, n)
      == if k <= Off(start, i, n) then Off(start, i, n) - k else Off(start, i, n) + n - k
  {
    var o := if k <= Off(start, i, n) then Off(start, i, n) - k else Off(start, i, n) + n - k;
    if o < n {
      OffUnique(Inc(start, k, n), i, n, o);
    }
  }

  /** Queueing a frame in the slot after the busy ones keeps the ring shape, one slot busier. */
  lemma QueueOneKeepsRing(ds: seq<TxDesc>, ps: seq<TxBuf>, comp: nat, busy: nat, d: TxDesc, b: TxBuf)
    requires TxRingOk(ds, ps, comp, busy) && busy < |ds| && b.skb.Some?
    ensures var t := Inc(comp, busy, |ds|);
      && TxRingOk(ds[t := d], ps[t := b], comp, busy + 1)
      && (TxTidy(ps, comp, busy) ==> TxTidy(ps[t := b], comp, busy + 1))
  {
    var n := |ds|;
    var t := Inc(comp, busy, n);
    var ds', ps', busy' := ds[t := d], ps[t := b], busy + 1;
    OffUnique(comp, t, n, busy);
    forall i | 0 <= i < n
      ensures TxSlotOk(ds', ps', comp, busy', i)
    {
      assert TxSlotOk(ds, ps, comp, busy, i);
    }
    if TxTidy(ps, comp, busy) {
      forall i | 0 <= i < n
        ensures TxSlotTidy(ps', comp, busy', i)
      {
        assert TxSlotTidy(ps, comp, busy, i);
      }
    }
  }

  /** Reclaiming the first busy slot, once the DMA engine is done with it, keeps the ring shape. */
  lemma ReclaimOneKeepsRing(ds: seq<TxDesc>, ps: seq<TxBuf>, comp: nat, busy: nat)
    requires TxRingOk(ds, ps, comp, busy) && 0 < busy && !TxOwned(ds[comp])
    ensures TxRingOk(ds, ps, Inc(comp, 1, |ds|), busy - 1)
  {
    var n := |ds|;
    var comp', busy' := Inc(comp, 1, n), busy - 1;
    forall i | 0 <= i < n
      ensures TxSlotOk(ds, ps, comp', busy', i)
    {
      assert TxSlotOk(ds, ps, comp, busy, i);
      OffShift(comp, 1, n, i);
    }
  }

  /**
   * Releasing the ranges of a completion that reclaimed `k` slots from
   * `start`, as written or as intended, keeps the ring shape after the
   * reclaim: those ranges hold only reclaimed slots.
   */
  lemma ReleaseKeepsRing(ds: seq<TxDesc>, ps: seq<TxBuf>, start: nat, k: nat, busy: nat, spans: seq<Span>)
    requires start < |ds| && 0 < k <= |ds| && busy + k <= |ds|
    requires TxRingOk(ds, ps, Inc(start, k, |ds|), busy)
    requires var last := Inc(start, k - 1, |ds|);
      spans == ReleaseSpans(start, last, |ds|) || spans == ConsumedSpans(start, last, |ds|)
    ensures SpansWithin(spans, |ps|)
    ensures TxRingOk(ds, Release(ps, spans), Inc(start, k, |ds|), busy)
  {
    var n := |ds|;
    var comp := Inc(start, k, n);
    var ps' := Release(ps, spans);
    forall i | 0 <= i < n
      ensures TxSlotOk(ds, ps', comp, busy, i)
    {
      assert TxSlotOk(ds, ps, comp, busy, i);
      ReleaseAt(ps, spans, i);
      ReleaseOnlyConsumed(start, k, n, i);
      OffShift(start, k, n, i);
    }
  }

  /**
   * Releasing exactly the `k` slots reclaimed from `start` leaves every
   * slot outside the busy ones empty, when it was so before the reclaim.
   */
  lemma ConsumedReleaseTidy(ps: seq<TxBuf>, start: nat, k: nat, busy: nat)
    requires start < |ps| && 0 < k <= busy <= |ps|
    requires TxTidy(ps, start, busy)
    ensures TxTidy(Release(ps, ConsumedSpans(start, Inc(start, k - 1, |ps|), |ps|)), Inc(start, k, |ps|), busy - k)
  {
    var n := |ps|;
    var spans := ConsumedSpans(start, Inc(start, k - 1, n), n);
    var ps' := Release(ps, spans);
    var comp', busy' := Inc(start, k, n), busy - k;
    forall i | 0 <= i < n
      ensures TxSlotTidy(ps', comp', busy', i)
    {
      assert TxSlotTidy(ps, start, busy, i);
      ReleaseAt(ps, spans, i);
      ReleaseOnlyConsumed(start, k, n, i);
      OffShift(start, k, n, i);
    }
  }

  /**
   * Freeing after a completion that reclaimed `k` slots from `start`: the
   * intended ranges free one buffer per reclaimed slot; the ranges as
   * written free one fewer exactly when the reclaimed slots wrap and end
   * at slot 0.
   */
  lemma {:induction false} FreedCount(ps: seq<TxBuf>, start: nat, k: nat)
    requires start < |ps| && k <= |ps|
    ensures |FreedIn(ps, IntendedSpans(start, k, |ps|))| == k
    ensures |FreedIn(ps, WrittenSpans(start, k, |ps|))|
      == if 0 < k && 0 < start && Inc(start, k - 1, |ps|) == 0 then k - 1 else k
  {
    var n := |ps|;
    if k > 0 {
      var last := Inc(start, k - 1, n);
      var c := ConsumedSpans(start, last, n);
      if |c| == 1 { ReleaseOne(ps, c); } else { ReleaseTwo(ps, c); }
      var w := ReleaseSpans(start, last, n);
      if |w| == 1 { ReleaseOne(ps, w); } else { ReleaseTwo(ps, w); }
    }
  }

  /**
   * The slot-0 leak of `syn_dp_tx_complete` as written: when the consumed
   * slots wrap and end at slot 0, slot 0's buffer is neither freed nor
   * cleared, although the intended ranges release it.
   */
  lemma CompleteLeaksSlotZero(ps: seq<TxBuf>, start: nat)
    requires 0 < start < |ps|
    ensures InSpans(ConsumedSpans(start, 0, |ps|), 0) && !InSpans(ReleaseSpans(start, 0, |ps|), 0)
    ensures Release(ps, ReleaseSpans(start, 0, |ps|))[0] == ps[0]
    ensures Release(ps, ConsumedSpans(start, 0, |ps|))[0] == EmptyBuf
  {
    var n := |ps|;
    ReleaseSpansMissSlotZero(start, 0, n);
    ConsumedSpansExact(start, 0, n, 0);
    ReleaseAt(ps, ReleaseSpans(start, 0, n), 0);
    ReleaseAt(ps, ConsumedSpans(start, 0, n), 0);
  }

  /** The transmit ring state `struct syn_dp_info_tx` of one GMAC. */
  class TxRing {
    const desc: array<TxDesc>
    const pool: array<TxBuf>
    /** `SYN_DP_MAX_DESC_BUFF_LEN`: the largest length of one segment. */
    const maxLen: nat
    var txIdx: nat
    var compIdx: nat
    var busy: nat
    var stats: TxStats

    /**
     * The ring invariant: the slots from `compIdx` onwards, `busy` of
     * them, hold the queued frames; the enqueue cursor is the slot after
     * them; no other slot is handed to the DMA engine.
     */
    ghost predicate Valid()
      reads this`txIdx, this`compIdx, this`busy, desc, pool
    {
      && TxRingOk(desc[..], pool[..], compIdx, busy)
      && txIdx == Inc(compIdx, busy, desc.Length)
    }

    /** Every pool entry outside the busy slots is empty: no buffer is held past its completion. */
    ghost predicate Tidy()
      reads this`compIdx, this`busy, pool
    {
      TxTidy(pool[..], compIdx, busy)
    }

    /** A ring of `n` empty slots. */
    constructor (n: nat, maxLen: nat)
      requires 0 < n
      ensures Valid() && Tidy() && fresh(desc) && fresh(pool)
      ensures desc.Length == n && busy == 0 && compIdx == 0 && stats == ZeroStats
      ensures this.maxLen == maxLen
    {
      desc := new TxDesc[n](i => TxDesc(0, 0, 0, 0, 0));
      pool := new TxBuf[n](i => EmptyBuf);
      this.maxLen := maxLen;
      txIdx, compIdx, busy := 0, 0, 0;
      stats := ZeroStats;
    }

    /**
     * `syn_dp_tx_set_desc`: program the slot at the enqueue cursor with
     * `skb`'s data at bus address `buffer`, split by the two-segment rule,
     * record the buffer in the pool, write the status word last and
     * advance the cursor.
     */
    method SetDesc(buffer: U32, skb: TxSkb, offloadNeeded: bool, status: bv32)
      requires Valid()
      modifies this`txIdx, desc, pool
      ensures txIdx == Inc(old(txIdx), 1, desc.Length)
      ensures var seg := Split(buffer, skb.len, maxLen);
        desc[..] == old(desc[..])[old(txIdx) :=
          TxDesc(StatusWord(status, offloadNeeded, old(txIdx) == desc.Length - 1),
                 seg.size1, seg.size2, seg.buffer1, seg.buffer2)]
      ensures pool[..] == old(pool[..])[old(txIdx) := TxBuf(Some(skb.id), skb.len)]
    {
      var idx := txIdx;
      var length := skb.len;
      var seg := Split(buffer, length, maxLen);
      pool[idx] := TxBuf(Some(skb.id), length);
      desc[idx] := TxDesc(StatusWord(status, offloadNeeded, idx == desc.Length - 1),
                          seg.size1, seg.size2, seg.buffer1, seg.buffer2);
      txIdx := Inc(idx, 1, desc.Length);
    }

    /**
     * `syn_dp_tx`: refuse the frame with -1, counting
     * `tx_desc_not_avail`, when no slot is free; otherwise queue it as one
     * whole frame handed to the DMA engine, count the slot busy and
     * return 0.
     */
    method Submit(skb: TxSkb) returns (r: int)
      requires Valid()
      modifies this`txIdx, this`busy, this`stats, desc, pool
      ensures Valid()
      ensures old(Tidy()) ==> Tidy()
      ensures compIdx == old(compIdx)
      ensures old(busy) == desc.Length ==>
        && r == -1
        && stats == old(stats).(descNotAvail := old(stats).descNotAvail + 1)
        && busy == old(busy) && txIdx == old(txIdx)
        && desc[..] == old(desc[..]) && pool[..] == old(pool[..])
      ensures old(busy) < desc.Length ==>
        var n, t := desc.Length, old(txIdx);
        var seg := Split(skb.phys, skb.len, maxLen);
        && r == 0
        && stats == old(stats)
        && busy == old(busy) + 1 && txIdx == Inc(t, 1, n)
        && desc[..] == old(desc[..])[t := TxDesc(SubmitStatus(skb.csumPartial, t == n - 1),
                                                 seg.size1, seg.size2, seg.buffer1, seg.buffer2)]
        && pool[..] == old(pool[..])[t := TxBuf(Some(skb.id), skb.len)]
    {
      if desc.Length - busy < 1 {
        stats := stats.(descNotAvail := stats.descNotAvail + 1);
        return -1;
      }
      ghost var t, ds, ps := txIdx, desc[..], pool[..];
      var seg := Split(skb.phys, skb.len, maxLen);
      QueueOneKeepsRing(ds, ps, compIdx, busy,
                        TxDesc(SubmitStatus(skb.csumPartial, t == desc.Length - 1),
                               seg.size1, seg.size2, seg.buffer1, seg.buffer2),
                        TxBuf(Some(skb.id), skb.len));
      SetDesc(skb.phys, skb, skb.csumPartial, TxLast | TxFirst | TxIntEnable | OwnByDma);
      busy := busy + 1;
      r := 0;
    }

    /**
     * One pass of the `syn_dp_tx_complete` scan on a slot the DMA engine
     * has completed: count the frame as sent or failed, advance the
     * completion cursor and count the slot no longer busy.
     */
    method ReclaimSlot()
      requires Valid() && 0 < busy && !TxOwned(desc[compIdx])
      modifies this`compIdx, this`busy, this`stats
      ensures Valid()
      ensures busy == old(busy) - 1 && compIdx == Inc(old(compIdx), 1, desc.Length)
      ensures stats == Reclaimed(old(stats), desc[old(compIdx)].status, pool[old(compIdx)].len)
    {
      var idx := compIdx;
      var status := desc[idx].status;
      var len := pool[idx].len;
      if status & TxLast != 0 {
        if status & TxError == 0 {
          stats := stats.(packets := stats.packets + 1, bytes := stats.bytes + len);
        } else {
          stats := TxErrorCount(stats, status);
        }
      }
      ReclaimOneKeepsRing(desc[..], pool[..], idx, busy);
      compIdx := Inc(idx, 1, desc.Length);
      busy := busy - 1;
    }

    /**
     * The scan of `syn_dp_tx_complete`: reclaim slots in ring order from
     * `compIdx` while some of the `clamp` slots it may take remain and the
     * DMA engine has completed the current one.  Returns the number of
     * those slots left unreclaimed and the last slot reclaimed, if any.
     */
    method Walk(clamp: nat) returns (b: nat, freeEnd: Option<nat>)
      requires Valid() && 0 < clamp <= busy
      modifies this`compIdx, this`busy, this`stats
      ensures Valid()
      ensures var n, start := desc.Length, old(compIdx);
        var k := TxDone(desc[..], start, clamp);
        && b == clamp - k
        && busy == old(busy) - k && compIdx == Inc(start, k, n)
        && stats == CompleteStats(old(stats), desc[..], pool[..], start, k)
        && freeEnd == (if k == 0 then None else Some(Inc(start, k - 1, n)))
    {
      var n := desc.Length;
      var start := compIdx;
      ghost var ds, ps := desc[..], pool[..];
      b := clamp;
      freeEnd := None;
      ghost var k: nat := 0;
      while b > 0
        invariant k + b == clamp
        invariant busy == old(busy) - k && compIdx == Inc(start, k, n)
        invariant forall j :: 0 <= j < k ==> !TxOwned(ds[Inc(start, j, n)])
        invariant stats == CompleteStats(old(stats), ds, ps, start, k)
        invariant freeEnd == if k == 0 then None else Some(Inc(start, k - 1, n))
        invariant Valid()
      {
        var idx := compIdx;
        var d := desc[idx];
        if TxOwned(d) {
          break;
        }
        assert !TxOwned(ds[Inc(start, k, n)]);
        freeEnd := Some(idx);
        ReclaimSlot();
        b := b - 1;
        k := k + 1;
      }
      TxDoneUnique(ds, start, clamp, k);
    }

    /**
     * One release loop of `syn_dp_tx_complete`: free the buffer of every
     * slot from `first` up to and including `last`, in order, and clear
     * its pool entry.
     */
    method ReleaseRange(first: nat, last: nat) returns (freed: seq<Option<nat>>)
      requires first <= last < pool.Length
      modifies pool
      ensures pool[..] == ClearRange(old(pool[..]), first, last + 1)
      ensures freed == Freed(old(pool[..]), first, last + 1)
    {
      ghost var ps := pool[..];
      var i := first;
      freed := [];
      while i <= last
        invariant first <= i <= last + 1
        invariant pool[..] == ClearRange(ps, first, i)
        invariant freed == Freed(ps, first, i)
      {
        freed := freed + [pool[i].skb];
        pool[i] := EmptyBuf;
        i := i + 1;
      }
    }

    /**
     * The release part of `syn_dp_tx_complete` as written, after the scan
     * consumed the slots `start` up to and including `end`: a wrapped
     * range is released up to the last slot, then from slot 0 only when
     * it ends at a non-zero index.
     */
    method ReleaseConsumed(start: nat, end: nat) returns (freed: seq<Option<nat>>)
      requires start < pool.Length && end < pool.Length
      modifies pool
      ensures pool[..] == Release(old(pool[..]), ReleaseSpans(start, end, pool.Length))
      ensures freed == FreedIn(old(pool[..]), ReleaseSpans(start, end, pool.Length))
    {
      ghost var ps := pool[..];
      var n := pool.Length;
      var absEnd := 0;
      var last := end;
      if end < start {
        absEnd := end;
        last := n - 1;
      }
      ghost var spans := ReleaseSpans(start, end, n);
      freed := ReleaseRange(start, last);
      ghost var mid := pool[..];
      assert spans[0] == Span(start, last);
      if absEnd != 0 {
        var more := ReleaseRange(0, absEnd);
        freed := freed + more;
        ReleaseTwo(ps, spans);
      } else {
        ReleaseOne(ps, spans);
      }
    }

    /**
     * The release part of `syn_dp_tx_complete` as evidently intended: a
     * wrapped range is released up to the last slot and then from slot 0
     * up to its end, whatever that end is.
     */
    method ReleaseConsumedFixed(start: nat, end: nat) returns (freed: seq<Option<nat>>)
      requires start < pool.Length && end < pool.Length
      modifies pool
      ensures pool[..] == Release(old(pool[..]), ConsumedSpans(start, end, pool.Length))
      ensures freed == FreedIn(old(pool[..]), ConsumedSpans(start, end, pool.Length))
    {
      var n := pool.Length;
      var wrapped := end < start;
      var last := if wrapped then n - 1 else end;
      ghost var ps, spans := pool[..], ConsumedSpans(start, end, n);
      freed := ReleaseRange(start, last);
      assert spans[0] == Span(start, last);
      if wrapped {
        var more := ReleaseRange(0, end);
        freed := freed + more;
        ReleaseTwo(ps, spans);
      } else {
        ReleaseOne(ps, spans);
      }
    }

    /**
     * The release step of `syn_dp_tx_complete` as written, after a scan
     * that reclaimed `k` slots from `start` and last reclaimed `freeEnd`:
     * nothing when no slot was reclaimed, otherwise the ranges as written.
     */
    method FreeReclaimed(start: nat, freeEnd: Option<nat>, ghost k: nat) returns (freed: seq<Option<nat>>)
      requires Valid()
      requires start < desc.Length && k <= desc.Length && busy + k <= desc.Length
      requires compIdx == Inc(start, k, desc.Length)
      requires freeEnd == if k == 0 then None else Some(Inc(start, k - 1, desc.Length))
      modifies pool
      ensures Valid()
      ensures pool[..] == Release(old(pool[..]), WrittenSpans(start, k, desc.Length))
      ensures freed == FreedIn(old(pool[..]), WrittenSpans(start, k, desc.Length))
    {
      var n := desc.Length;
      ghost var ps := pool[..];
      if freeEnd.None? {
        assert Release(ps, []) == ps && FreedIn(ps, []) == [];
        return [];
      }
      ReleaseKeepsRing(desc[..], ps, start, k, busy, ReleaseSpans(start, freeEnd.value, n));
      freed := ReleaseConsumed(start, freeEnd.value);
    }

    /**
     * The release step of `syn_dp_tx_complete` as evidently intended:
     * every reclaimed slot's buffer is freed, so a ring with no buffer
     * held past its completion stays so.
     */
    method FreeReclaimedFixed(start: nat, freeEnd: Option<nat>, ghost k: nat, ghost total: nat) returns (freed: seq<Option<nat>>)
      requires Valid() && total == busy + k
      requires start < desc.Length && k <= desc.Length && busy + k <= desc.Length
      requires compIdx == Inc(start, k, desc.Length)
      requires freeEnd == if k == 0 then None else Some(Inc(start, k - 1, desc.Length))
      modifies pool
      ensures Valid()
      ensures TxTidy(old(pool[..]), start, total) ==> Tidy()
      ensures pool[..] == Release(old(pool[..]), IntendedSpans(start, k, desc.Length))
      ensures freed == FreedIn(old(pool[..]), IntendedSpans(start, k, desc.Length))
    {
      var n := desc.Length;
      ghost var ps := pool[..];
      if freeEnd.None? {
        assert Release(ps, []) == ps && FreedIn(ps, []) == [];
        return [];
      }
      ReleaseKeepsRing(desc[..], ps, start, k, busy, ConsumedSpans(start, freeEnd.value, n));
      if TxTidy(ps, start, total) {
        ConsumedReleaseTidy(ps, start, k, total);
      }
      freed := ReleaseConsumedFixed(start, freeEnd.value);
    }

    /**
     * The scan and release of `syn_dp_tx_complete` as written, over
     * `clamp` slots.
     */
    method Reclaim(clamp: nat) returns (b: nat, freed: seq<Option<nat>>)
      requires Valid() && 0 < clamp <= busy
      modifies this`compIdx, this`busy, this`stats, pool
      ensures Valid()
      ensures var n, start := desc.Length, old(compIdx);
        var k := TxDone(desc[..], start, clamp);
        && b == clamp - k
        && busy == old(busy) - k && compIdx == Inc(start, k, n)
        && stats == CompleteStats(old(stats), desc[..], old(pool[..]), start, k)
        && pool[..] == Release(old(pool[..]), WrittenSpans(start, k, n))
        && freed == FreedIn(old(pool[..]), WrittenSpans(start, k, n))
    {
      var start := compIdx;
      ghost var ds0, ps0 := desc[..], pool[..];
      var freeEnd;
      b, freeEnd := Walk(clamp);
      assert desc[..] == ds0 && pool[..] == ps0;
      ghost var k := TxDone(ds0, start, clamp);
      freed := FreeReclaimed(start, freeEnd, k);
      assert desc[..] == ds0;
    }

    /**
     * `syn_dp_tx_complete` as written: reclaim at most `min(busy, budget)`
     * slots in ring order from `compIdx`, stopping at the first one the
     * DMA engine still owns, count each frame, then free the buffers of
     * the release ranges.  Returns `budget` minus the clamped slots left
     * unreclaimed, and the freed buffers in order.
     */
    method Complete(budget: int) returns (r: int, freed: seq<Option<nat>>)
      requires Valid() && budget >= 1
      modifies this`compIdx, this`busy, this`stats, pool
      ensures Valid()
      ensures txIdx == old(txIdx)
      ensures old(busy) == 0 ==>
        && r == 0 && freed == []
        && busy == 0 && compIdx == old(compIdx) && stats == old(stats)
        && pool[..] == old(pool[..])
      ensures old(busy) > 0 ==>
        var n, start := desc.Length, old(compIdx);
        var clamp := if old(busy) > budget then budget else old(busy);
        var k := TxDone(desc[..], start, clamp);
        && r == budget - (clamp - k)
        && busy == old(busy) - k && compIdx == Inc(start, k, n)
        && stats == CompleteStats(old(stats), desc[..], old(pool[..]), start, k)
        && pool[..] == Release(old(pool[..]), WrittenSpans(start, k, n))
        && freed == FreedIn(old(pool[..]), WrittenSpans(start, k, n))
    {
      var b := busy;
      if b == 0 {
        return 0, [];
      }
      if b > budget {
        b := budget;
      }
      b, freed := Reclaim(b);
      r := budget - b;
    }

    /**
     * The scan and release of `syn_dp_tx_complete` with the release ranges
     * it evidently intends, over `clamp` slots.
     */
    method ReclaimFixed(clamp: nat) returns (b: nat, freed: seq<Option<nat>>)
      requires Valid() && 0 < clamp <= busy
      modifies this`compIdx, this`busy, this`stats, pool
      ensures Valid()
      ensures old(Tidy()) ==> Tidy()
      ensures var n, start := desc.Length, old(compIdx);
        var k := TxDone(desc[..], start, clamp);
        && b == clamp - k
        && busy == old(busy) - k && compIdx == Inc(start, k, n)
        && stats == CompleteStats(old(stats), desc[..], old(pool[..]), start, k)
        && pool[..] == Release(old(pool[..]), IntendedSpans(start, k, n))
        && freed == FreedIn(old(pool[..]), IntendedSpans(start, k, n))
    {
      var start := compIdx;
      ghost var ds0, ps0 := desc[..], pool[..];
      var freeEnd;
      b, freeEnd := Walk(clamp);
      assert desc[..] == ds0 && pool[..] == ps0;
      ghost var k := TxDone(ds0, start, clamp);
      freed := FreeReclaimedFixed(start, freeEnd, k, old(busy));
      assert desc[..] == ds0;
    }

    /**
     * `syn_dp_tx_complete` with the release ranges it evidently intends:
     * as `Complete`, but every reclaimed slot's buffer is freed, so no
     * buffer outlives its completion.
     */
    method CompleteFixed(budget: int) returns (r: int, freed: seq<Option<nat>>)
      requires Valid() && budget >= 1
      modifies this`compIdx, this`busy, this`stats, pool
      ensures Valid()
      ensures old(Tidy()) ==> Tidy()
      ensures txIdx == old(txIdx)
      ensures old(busy) == 0 ==>
        && r == 0 && freed == []
        && busy == 0 && compIdx == old(compIdx) && stats == old(stats)
        && pool[..] == old(pool[..])
      ensures old(busy) > 0 ==>
        var n, start := desc.Length, old(compIdx);
        var clamp := if old(busy) > budget then budget else old(busy);
        var k := TxDone(desc[..], start, clamp);
        && r == budget - (clamp - k)
        && busy == old(busy) - k && compIdx == Inc(start, k, n)
        && stats == CompleteStats(old(stats), desc[..], old(pool[..]), start, k)
        && pool[..] == Release(old(pool[..]), IntendedSpans(start, k, n))
        && freed == FreedIn(old(pool[..]), IntendedSpans(start, k, n))
    {
      var b := busy;
      if b == 0 {
        return 0, [];
      }
      if b > budget {
        b := budget;
      }
      b, freed := ReclaimFixed(b);
      r := budget - b;
    }
  }
}
