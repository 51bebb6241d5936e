/**
 * The receive ring of the GMAC data path (`syn_dp_rx.c`): a fixed array
 * of descriptors with a parallel buffer pool, a refill cursor (the next
 * slot to arm with a fresh buffer), a consume cursor (the next slot to
 * drain) and the count of slots handed to the DMA engine.
 */
module RxEngine {
  import opened Ring
  import opened Descriptors

  /** An entry of `rx_buf_pool`: the socket buffer armed in the slot, if any. */
  datatype RxBuf = RxBuf(skb: Option<nat>, mapAddrVirt: nat)

  /**
   * One successful allocation as `syn_dp_rx_refill` uses it: the socket
   * buffer, the virtual address of its data after the headroom reserve,
   * and that address's bus address.
   */
  datatype RxAlloc = RxAlloc(skb: nat, virt: nat, phys: U32)

  /** What `syn_dp_rx` does with the buffer of one drained slot. */
  datatype RxEvent =
    | Deliver(skb: Option<nat>, length: nat, checksumUnnecessary: bool)
    | Drop(skb: Option<nat>)

  /** The receive statistics `rx_stats` the engine updates. */
  datatype RxStats = RxStats(
    packets: nat,
    bytes: nat,
    errors: nat,
    skbAllocErrors: nat,
    noBufferErrors: nat,
    lateCollisionErrors: nat,
    dribbleBitErrors: nat,
    lengthErrors: nat,
    crcErrors: nat,
    overflowErrors: nat,
    ipHeaderErrors: nat,
    ipPayloadErrors: nat)

  const ZeroStats := RxStats(0, 0, 0, 0, 0, 0, 0, 0, 0, 0, 0, 0)

  /** Status bits that make `syn_dp_rx` look at the per-bit error counters. */
  const CountedErrors: bv32 := RxCrc | RxCollision | RxOverflow | RxDribbling | RxLengthError

  /**
   * `syn_dp_rx_reset_one_desc`: after a slot is drained its descriptor
   * holds nothing but the end-of-ring bit of its length word.
   */
  function ResetOneDesc(d: RxDesc): (r: RxDesc)
    ensures RxDescEmpty(r)
    ensures r.endOfRing == d.endOfRing
  {
    d.(status := 0, size1 := 0, size2 := 0, buffer1 := 0, buffer2 := 0, extstatus := 0)
  }

  /**
   * `syn_dp_rx_refill_one_desc`: arm a descriptor with a buffer of
   * `length` bytes at `buffer1`, split into two segments when longer than
   * `maxLen`, and hand it to the DMA engine.  The size fields are
   * assigned; the driver ORs them into a length word that is empty here.
   * Resetting the armed descriptor gives back the empty one.
   */
  function RefillOneDesc(d: RxDesc, buffer1: U32, length: nat, maxLen: nat): (r: RxDesc)
    ensures r.status == OwnByDma && RxOwned(r)
    ensures r.endOfRing == d.endOfRing && r.extstatus == d.extstatus
    ensures r.buffer1 == buffer1 && r.size1 + r.size2 == length
    ensures length <= maxLen ==> r.size1 == length && r.buffer2 == 0
    ensures length > maxLen ==> r.size1 == maxLen && r.size2 == length - maxLen
                                && r.buffer2 == (buffer1 + maxLen) % Word
    ensures RxDescEmpty(d) ==> ResetOneDesc(r) == d
  {
    var s := Split(buffer1, length, maxLen);
    d.(size1 := s.size1, size2 := s.size2, buffer1 := s.buffer1, buffer2 := s.buffer2,
       status := OwnByDma)
  }

  /**
   * The error accounting of a dropped frame in `syn_dp_rx`: `rx_errors`
   * once, and, when one of CRC, collision, overflow, dribbling or length
   * error is set in the status, one step of each counter whose mask is
   * set in the status word.  The IP header and payload masks are tested
   * against the status word too.
   */
  function RxDropCount(st: RxStats, status: bv32): (r: RxStats)
    ensures r.errors == st.errors + 1
    ensures r.packets == st.packets && r.bytes == st.bytes
    ensures r.skbAllocErrors == st.skbAllocErrors && r.noBufferErrors == st.noBufferErrors
    ensures r.crcErrors == st.crcErrors + Bit(status, RxCrc)
    ensures r.lateCollisionErrors == st.lateCollisionErrors + Bit(status, RxCollision)
    ensures r.overflowErrors == st.overflowErrors + Bit(status, RxOverflow)
    ensures r.dribbleBitErrors == st.dribbleBitErrors + Bit(status, RxDribbling)
    ensures r.lengthErrors == st.lengthErrors + Bit(status, RxLengthError)
    ensures status & CountedErrors == 0 ==>
      r.ipHeaderErrors == st.ipHeaderErrors && r.ipPayloadErrors == st.ipPayloadErrors
    ensures status & CountedErrors != 0 ==>
      r.ipHeaderErrors == st.ipHeaderErrors + Bit(status, RxIpHeaderError)
      && r.ipPayloadErrors == st.ipPayloadErrors + Bit(status, RxIpPayloadError)
  {
    var st' := st.(errors := st.errors + 1);
    if status & CountedErrors != 0 then
      st'.(lateCollisionErrors := st.lateCollisionErrors + Bit(status, RxCollision),
           dribbleBitErrors := st.dribbleBitErrors + Bit(status, RxDribbling),
           lengthErrors := st.lengthErrors + Bit(status, RxLengthError),
           crcErrors := st.crcErrors + Bit(status, RxCrc),
           overflowErrors := st.overflowErrors + Bit(status, RxOverflow),
           ipHeaderErrors := st.ipHeaderErrors + Bit(status, RxIpHeaderError),
           ipPayloadErrors := st.ipPayloadErrors + Bit(status, RxIpPayloadError))
    else
      st'
  }

  /**
   * A frame dropped only because its extended status reports an IP header
   * error raises `rx_errors` and no per-bit counter: the per-bit counters
   * are examined only for the five status-word errors.
   */
  lemma ExtStatusOnlyDropCountsOnce(st: RxStats, d: RxDesc)
    requires RxStatusValid(d.status) && d.status & CountedErrors == 0
    requires d.extstatus & RxIpHeaderError != 0
    ensures !RxDeliverable(d)
    ensures var r := RxDropCount(st, d.status);
      r.errors == st.errors + 1 && r.ipHeaderErrors == st.ipHeaderErrors
      && r.crcErrors == st.crcErrors && r.lengthErrors == st.lengthErrors
  {
    assert d.status & CountedErrors & (RxFirst | RxLast | DescError) == 0;
    assert d.status & DescError == 0;
  }

  /**
   * The error accounting of a dropped frame with the IP header and payload
   * masks tested against the extended status word, the word those masks
   * belong to and the one the deliver-or-drop decision reads them from.
   * Each counts on its own, whatever the status word holds, since a frame
   * can be dropped for an IP error alone.  It differs from the accounting
   * as written only in those two counters.
   */
  function RxDropCountFixed(st: RxStats, status: bv32, extstatus: bv32): (r: RxStats)
    ensures r.errors == st.errors + 1
    ensures r.ipHeaderErrors == st.ipHeaderErrors + Bit(extstatus, RxIpHeaderError)
    ensures r.ipPayloadErrors == st.ipPayloadErrors + Bit(extstatus, RxIpPayloadError)
    ensures var w := RxDropCount(st, status);
      r.(ipHeaderErrors := w.ipHeaderErrors, ipPayloadErrors := w.ipPayloadErrors) == w
  {
    RxDropCount(st, status).(
      ipHeaderErrors := st.ipHeaderErrors + Bit(extstatus, RxIpHeaderError),
      ipPayloadErrors := st.ipPayloadErrors + Bit(extstatus, RxIpPayloadError))
  }

  /**
   * The IP error counters as written follow the status word, not the
   * extended status: a dropped frame with a CRC error whose extended
   * status reports an IP header error leaves `rx_ip_header_errors`
   * unchanged, and one whose status word has the header mask's bit set
   * counts an IP header error its extended status does not report.  A
   * frame dropped for an IP header error alone is not counted either.
   */
  lemma IpErrorCountersReadStatusWord(st: RxStats)
    ensures var d := RxDesc(DescError | RxFirst | RxLast | RxCrc, false, 0, 0, 0, 0, RxIpHeaderError);
      && !RxDeliverable(d)
      && RxDropCount(st, d.status).ipHeaderErrors == st.ipHeaderErrors
      && RxDropCountFixed(st, d.status, d.extstatus).ipHeaderErrors == st.ipHeaderErrors + 1
    ensures var d := RxDesc(DescError | RxFirst | RxLast | RxCrc | RxIpHeaderError, false, 0, 0, 0, 0, 0);
      && !RxDeliverable(d)
      && RxDropCount(st, d.status).ipHeaderErrors == st.ipHeaderErrors + 1
      && RxDropCountFixed(st, d.status, d.extstatus).ipHeaderErrors == st.ipHeaderErrors
    ensures var d := RxDesc(RxFirst | RxLast, false, 0, 0, 0, 0, RxIpHeaderError);
      && !RxDeliverable(d)
      && RxDropCount(st, d.status).ipHeaderErrors == st.ipHeaderErrors
      && RxDropCountFixed(st, d.status, d.extstatus).ipHeaderErrors == st.ipHeaderErrors + 1
  {
  }

  /** What draining a slot with descriptor `d` and pool entry `b` hands on. */
  function EventOf(d: RxDesc, b: RxBuf): (r: RxEvent)
    ensures r.skb == b.skb
    ensures r.Deliver? <==> RxDeliverable(d)
    ensures r.Deliver? ==> r.length == RxFrameLength(d.status) && r.length < 0x4000
    ensures r.Deliver? ==> (r.checksumUnnecessary <==> d.extstatus & RxChkSumBypass == 0)
  {
    if RxDeliverable(d) then
      Deliver(b.skb, RxFrameLength(d.status), d.extstatus & RxChkSumBypass == 0)
    else
      Drop(b.skb)
  }

  /** The statistics after draining one slot with descriptor `d`. */
  function Account(st: RxStats, d: RxDesc): (r: RxStats)
    ensures r.skbAllocErrors == st.skbAllocErrors && r.noBufferErrors == st.noBufferErrors
    ensures RxDeliverable(d) ==>
      r == st.(packets := st.packets + 1, bytes := st.bytes + RxFrameLength(d.status))
    ensures !RxDeliverable(d) ==>
      r.packets == st.packets && r.bytes == st.bytes && r.errors == st.errors + 1
    ensures !RxDeliverable(d) ==> r == RxDropCount(st, d.status)
  {
    if RxDeliverable(d) then
      st.(packets := st.packets + 1, bytes := st.bytes + RxFrameLength(d.status))
    else
      RxDropCount(st, d.status)
  }

  /**
   * The buffers handed on by draining `k` slots from `start`: one event
   * per slot, in ring order, each the delivery or the drop of that slot's
   * buffer.
   */
  function DrainEvents(ds: seq<RxDesc>, ps: seq<RxBuf>, start: nat, k: nat): (r: seq<RxEvent>)
    requires |ds| == |ps| && start < |ds| && k <= |ds|
    ensures |r| == k
    ensures forall j :: 0 <= j < k ==>
      r[j] == EventOf(ds[Inc(start, j, |ds|)], ps[Inc(start, j, |ds|)])
  {
    if k == 0 then [] else
      DrainEvents(ds, ps, start, k - 1)
        + [EventOf(ds[Inc(start, k - 1, |ds|)], ps[Inc(start, k - 1, |ds|)])]
  }

  /** The statistics after draining `k` slots from `start`. */
  function DrainStats(st: RxStats, ds: seq<RxDesc>, start: nat, k: nat): RxStats
    requires start < |ds| && k <= |ds|
  {
    if k == 0 then st else Account(DrainStats(st, ds, start, k - 1), ds[Inc(start, k - 1, |ds|)])
  }

  function Delivered(es: seq<RxEvent>): nat
  {
    if es == [] then 0 else Delivered(es[..|es| - 1]) + if es[|es| - 1].Deliver? then 1 else 0
  }

  function Dropped(es: seq<RxEvent>): nat
  {
    if es == [] then 0 else Dropped(es[..|es| - 1]) + if es[|es| - 1].Drop? then 1 else 0
  }

  function DeliveredBytes(es: seq<RxEvent>): nat
  {
    if es == [] then 0
    else DeliveredBytes(es[..|es| - 1]) + if es[|es| - 1].Deliver? then es[|es| - 1].length else 0
  }

  /**
   * The counters agree with the buffers handed on: `rx_packets` and
   * `rx_bytes` grow by the delivered frames and their lengths,
   * `rx_errors` by the dropped frames (once per frame, whatever bits it
   * has), and every drained slot is exactly one of the two.
   */
  lemma {:induction false} DrainStatsMatchEvents(st: RxStats, ds: seq<RxDesc>, ps: seq<RxBuf>, start: nat, k: nat)
    requires |ds| == |ps| && start < |ds| && k <= |ds|
    ensures var es := DrainEvents(ds, ps, start, k);
      var r := DrainStats(st, ds, start, k);
      && r.packets == st.packets + Delivered(es)
      && r.bytes == st.bytes + DeliveredBytes(es)
      && r.errors == st.errors + Dropped(es)
      && Delivered(es) + Dropped(es) == k
      && r.skbAllocErrors == st.skbAllocErrors && r.noBufferErrors == st.noBufferErrors
  {
    if k > 0 {
      DrainStatsMatchEvents(st, ds, ps, start, k - 1);
      var i := Inc(start, k - 1, |ds|);
      var es, prev, e := DrainEvents(ds, ps, start, k), DrainEvents(ds, ps, start, k - 1), EventOf(ds[i], ps[i]);
      assert es == prev + [e];
      assert es[..|es| - 1] == prev;
      assert Delivered(es) == Delivered(prev) + if e.Deliver? then 1 else 0;
      assert Dropped(es) == Dropped(prev) + if e.Drop? then 1 else 0;
      var s0 := DrainStats(st, ds, start, k - 1);
      assert DrainStats(st, ds, start, k) == Account(s0, ds[i]);
      AccountMatchesEvent(s0, ds[i], ps[i]);
    }
    DeliveredOrDropped(DrainEvents(ds, ps, start, k));
  }

  /** Every event is a delivery or a drop, never both. */
  lemma {:induction false} DeliveredOrDropped(es: seq<RxEvent>)
    ensures Delivered(es) + Dropped(es) == |es|
  {
    if es != [] {
      DeliveredOrDropped(es[..|es| - 1]);
    }
  }

  /** One drained slot: its counters move exactly as its event says. */
  lemma AccountMatchesEvent(st: RxStats, d: RxDesc, b: RxBuf)
    ensures var a, e := Account(st, d), EventOf(d, b);
      && a.packets == st.packets + (if e.Deliver? then 1 else 0)
      && a.bytes == st.bytes + (if e.Deliver? then e.length else 0)
      && a.errors == st.errors + (if e.Drop? then 1 else 0)
      && a.skbAllocErrors == st.skbAllocErrors && a.noBufferErrors == st.noBufferErrors
  {
  }

  /**
   * The ring shape on array snapshots: `busy` slots from `rx` on hold a
   * buffer, every other slot is empty, and only the last slot carries the
   * end-of-ring bit.
   */
  ghost predicate RingOk(ds: seq<RxDesc>, ps: seq<RxBuf>, rx: nat, busy: nat)
  {
    && 0 < |ds| == |ps|
    && rx < |ds| && busy <= |ds|
    && forall i :: 0 <= i < |ds| ==> SlotOk(ds, ps, rx, busy, i)
  }

  /** The part of the ring shape that concerns slot `i`. */
  ghost predicate SlotOk(ds: seq<RxDesc>, ps: seq<RxBuf>, rx: nat, busy: nat, i: nat)
    requires i < |ds| == |ps| && rx < |ds|
  {
    && ds[i].endOfRing == (i == |ds| - 1)
    && if Off(rx, i, |ds|) < busy then ps[i].skb.Some?
       else RxDescEmpty(ds[i]) && ps[i].skb.None?
  }

  /** Arming the slot after the busy ones keeps the ring shape, one slot busier. */
  lemma RefillOneKeepsRing(ds: seq<RxDesc>, ps: seq<RxBuf>, rx: nat, busy: nat,
                           a: RxAlloc, length: nat, maxLen: nat)
    requires RingOk(ds, ps, rx, busy) && busy < |ds|
    ensures var f := Inc(rx, busy, |ds|);
      RxDescEmpty(ds[f])
      && RingOk(ds[f := RefillOneDesc(ds[f], a.phys, length, maxLen)],
                ps[f := RxBuf(Some(a.skb), a.virt)], rx, busy + 1)
  {
    var n := |ds|;
    var f := Inc(rx, busy, n);
    OffUnique(rx, f, n, busy);
    assert SlotOk(ds, ps, rx, busy, f);
    var ds' := ds[f := RefillOneDesc(ds[f], a.phys, length, maxLen)];
    var ps' := ps[f := RxBuf(Some(a.skb), a.virt)];
    var busy' := busy + 1;
    forall i | 0 <= i < n
      ensures SlotOk(ds', ps', rx, busy', i)
    {
      assert SlotOk(ds, ps, rx, busy, i);
      if i != f {
        OffUnique(rx, i, n, busy);
      }
    }
  }

  /** Draining the first busy slot keeps the ring shape, one slot less busy. */
  lemma DrainOneKeepsRing(ds: seq<RxDesc>, ps: seq<RxBuf>, rx: nat, busy: nat)
    requires RingOk(ds, ps, rx, busy) && 0 < busy
    ensures RingOk(ds[rx := ResetOneDesc(ds[rx])], ps[rx := ps[rx].(skb := None)],
                   Inc(rx, 1, |ds|), busy - 1)
  {
    var n := |ds|;
    var rx' := Inc(rx, 1, n);
    var ds' := ds[rx := ResetOneDesc(ds[rx])];
    var ps' := ps[rx := ps[rx].(skb := None)];
    var busy' := busy - 1;
    forall i | 0 <= i < n
      ensures SlotOk(ds', ps', rx', busy', i)
    {
      assert SlotOk(ds, ps, rx, busy, i);
      if i != rx {
        assert Off(rx', i, n) == Off(rx, i, n) - 1;
      }
    }
  }

  /**
   * The descriptors after draining `k` slots from `start`, one slot at a
   * time: each drained slot's descriptor reset.
   */
  function DrainedDescs(ds: seq<RxDesc>, start: nat, k: nat): (r: seq<RxDesc>)
    requires start < |ds| && k <= |ds|
    ensures |r| == |ds|
  {
    if k == 0 then ds
    else
      var i := Inc(start, k - 1, |ds|);
      DrainedDescs(ds, start, k - 1)[i := ResetOneDesc(ds[i])]
  }

  /** The buffer pool after draining `k` slots from `start`: each drained entry emptied. */
  function DrainedPool(ps: seq<RxBuf>, start: nat, k: nat): (r: seq<RxBuf>)
    requires start < |ps| && k <= |ps|
    ensures |r| == |ps|
  {
    if k == 0 then ps
    else
      var i := Inc(start, k - 1, |ps|);
      DrainedPool(ps, start, k - 1)[i := ps[i].(skb := None)]
  }

  /**
   * Draining `k` slots from `start` resets exactly the first `k` slots
   * in ring order and empties exactly their pool entries; every other
   * slot is left as it was.
   */
  lemma {:induction false} DrainedAt(ds: seq<RxDesc>, ps: seq<RxBuf>, start: nat, k: nat, i: nat)
    requires start < |ds| == |ps| && k <= |ds| && i < |ds|
    ensures DrainedDescs(ds, start, k)[i] == if Off(start, i, |ds|) < k then ResetOneDesc(ds[i]) else ds[i]
    ensures DrainedPool(ps, start, k)[i] == if Off(start, i, |ps|) < k then ps[i].(skb := None) else ps[i]
  {
    if k > 0 {
      DrainedAt(ds, ps, start, k - 1, i);
      OffUnique(start, i, |ds|, k - 1);
    }
  }
  /**
   * Draining one more slot resets the next slot from `start`, which until
   * then held what it held before draining began, and accounts for it.
   */
  lemma DrainedSnoc(st: RxStats, ds: seq<RxDesc>, ps: seq<RxBuf>, start: nat, k: nat)
    requires start < |ds| == |ps| && k < |ds|
    ensures var i := Inc(start, k, |ds|);
      var pd, pp := DrainedDescs(ds, start, k), DrainedPool(ps, start, k);
      && pd[i] == ds[i] && pp[i] == ps[i]
      && DrainedDescs(ds, start, k + 1) == pd[i := ResetOneDesc(pd[i])]
      && DrainedPool(ps, start, k + 1) == pp[i := pp[i].(skb := None)]
      && DrainEvents(ds, ps, start, k + 1) == DrainEvents(ds, ps, start, k) + [EventOf(pd[i], pp[i])]
      && DrainStats(st, ds, start, k + 1) == Account(DrainStats(st, ds, start, k), pd[i])
  {
    var i := Inc(start, k, |ds|);
    OffUnique(start, i, |ds|, k);
    DrainedAt(ds, ps, start, k, i);
  }


  /**
   * The descriptors after arming slots from `start` with the buffers
   * `got`, one slot per buffer in order, each split by the two-segment
   * rule.
   */
  function ArmedDescs(ds: seq<RxDesc>, start: nat, got: seq<RxAlloc>, length: nat, maxLen: nat): (r: seq<RxDesc>)
    requires start < |ds| && |got| <= |ds|
    ensures |r| == |ds|
  {
    if got == [] then ds
    else
      var i := Inc(start, |got| - 1, |ds|);
      ArmedDescs(ds, start, got[..|got| - 1], length, maxLen)
        [i := RefillOneDesc(ds[i], got[|got| - 1].phys, length, maxLen)]
  }

  /** The buffer pool after arming slots from `start` with the buffers `got`. */
  function ArmedPool(ps: seq<RxBuf>, start: nat, got: seq<RxAlloc>): (r: seq<RxBuf>)
    requires start < |ps| && |got| <= |ps|
    ensures |r| == |ps|
  {
    if got == [] then ps
    else
      var i := Inc(start, |got| - 1, |ps|);
      ArmedPool(ps, start, got[..|got| - 1])[i := RxBuf(Some(got[|got| - 1].skb), got[|got| - 1].virt)]
  }

  /**
   * Arming with `got` programs the j-th slot from `start` with the j-th
   * buffer, for each buffer, and leaves every other slot as it was.
   */
  lemma {:induction false} ArmedAt(ds: seq<RxDesc>, ps: seq<RxBuf>, start: nat, got: seq<RxAlloc>,
                                   length: nat, maxLen: nat, i: nat)
    requires start < |ds| == |ps| && |got| <= |ds| && i < |ds|
    ensures var j := Off(start, i, |ds|);
      && ArmedDescs(ds, start, got, length, maxLen)[i]
         == (if j < |got| then RefillOneDesc(ds[i], got[j].phys, length, maxLen) else ds[i])
      && ArmedPool(ps, start, got)[i]
         == (if j < |got| then RxBuf(Some(got[j].skb), got[j].virt) else ps[i])
  {
    if got != [] {
      var pre := got[..|got| - 1];
      ArmedAt(ds, ps, start, pre, length, maxLen, i);
      OffUnique(start, i, |ds|, |got| - 1);
    }
  }
  /**
   * Arming one more buffer programs the next slot from `start`, which
   * until then held what it held before arming began.
   */
  lemma ArmedSnoc(ds: seq<RxDesc>, ps: seq<RxBuf>, start: nat, got: seq<RxAlloc>, k: nat,
                  length: nat, maxLen: nat)
    requires start < |ds| == |ps| && k < |got| <= |ds|
    ensures var i, pre := Inc(start, k, |ds|), ArmedDescs(ds, start, got[..k], length, maxLen);
      && ArmedDescs(ds, start, got[..k + 1], length, maxLen)
         == pre[i := RefillOneDesc(pre[i], got[k].phys, length, maxLen)]
      && ArmedPool(ps, start, got[..k + 1])
         == ArmedPool(ps, start, got[..k])[i := RxBuf(Some(got[k].skb), got[k].virt)]
  {
    var i := Inc(start, k, |ds|);
    assert got[..k + 1][..k] == got[..k];
    OffUnique(start, i, |ds|, k);
    ArmedAt(ds, ps, start, got[..k], length, maxLen, i);
  }


  /**
   * The number of slots the receive scan drains: from `start`, in ring
   * order, the slots the DMA engine has handed back, at most `limit`.
   */
  function RxDone(ds: seq<RxDesc>, start: nat, limit: nat): (r: nat)
    requires start < |ds| && limit <= |ds|
    ensures r <= limit
    ensures forall j :: 0 <= j < r ==> !RxOwned(ds[Inc(start, j, |ds|)])
    ensures r < limit ==> RxOwned(ds[Inc(start, r, |ds|)])
    decreases limit
  {
    if limit == 0 || RxOwned(ds[start]) then 0
    else
      var rest := RxDone(ds, Inc(start, 1, |ds|), limit - 1);
      assert forall j :: 0 <= j < rest + 1 ==>
        Inc(start, j, |ds|) == if j == 0 then start else Inc(Inc(start, 1, |ds|), j - 1, |ds|);
      rest + 1
  }

  /** The scan ends exactly where a loop that stops at the first owned slot or after `limit` slots ends. */
  lemma RxDoneUnique(ds: seq<RxDesc>, start: nat, limit: nat, k: nat)
    requires start < |ds| && limit <= |ds| && k <= limit
    requires forall j :: 0 <= j < k ==> !RxOwned(ds[Inc(start, j, |ds|)])
    requires k < limit ==> RxOwned(ds[Inc(start, k, |ds|)])
    ensures RxDone(ds, start, limit) == k
  {
  }

  /** The receive ring state `struct syn_dp_info_rx` of one GMAC. */
  class RxRing {
    const desc: array<RxDesc>
    const pool: array<RxBuf>
    /** `SYN_DP_MAX_DESC_BUFF_LEN`: the largest length of one segment. */
    const maxLen: nat
    /** `SYN_DP_SKB_DATA_INVAL_SIZE`: the length armed in every receive slot. */
    const invalSize: nat
    var refillIdx: nat
    var rxIdx: nat
    var busy: nat
    var stats: RxStats

    /**
     * The ring invariant: the slots from `rxIdx` onwards, `busy` of them,
     * are the ones handed to the DMA engine and each holds a buffer; the
     * refill cursor is the slot after them; every other slot is empty.
     */
    ghost predicate Valid()
      reads this`refillIdx, this`rxIdx, this`busy, desc, pool
    {
      && RingOk(desc[..], pool[..], rxIdx, busy)
      && refillIdx == Inc(rxIdx, busy, desc.Length)
    }

    /** A ring of `n` empty slots, the last one marked end-of-ring. */
    constructor (n: nat, maxLen: nat, invalSize: nat)
      requires 0 < n
      ensures Valid() && fresh(desc) && fresh(pool)
      ensures desc.Length == n && busy == 0 && rxIdx == 0 && stats == ZeroStats
      ensures this.maxLen == maxLen && this.invalSize == invalSize
    {
      desc := new RxDesc[n](i => RxDesc(0, i == n - 1, 0, 0, 0, 0, 0));
      pool := new RxBuf[n](i => RxBuf(None, 0));
      this.maxLen := maxLen;
      this.invalSize := invalSize;
      refillIdx, rxIdx, busy := 0, 0, 0;
      stats := ZeroStats;
    }

    /**
     * One pass of the `syn_dp_rx_refill` loop after a successful
     * allocation: arm the slot at the refill cursor with buffer `a`,
     * record it in the pool, advance the cursor and count the slot busy.
     */
    method ArmSlot(a: RxAlloc)
      requires Valid() && busy < desc.Length
      modifies this`refillIdx, this`busy, desc, pool
      ensures Valid()
      ensures busy == old(busy) + 1 && refillIdx == Inc(old(refillIdx), 1, desc.Length)
      ensures desc[..] == old(desc[..])[old(refillIdx) :=
                RefillOneDesc(old(desc[refillIdx]), a.phys, invalSize, maxLen)]
      ensures pool[..] == old(pool[..])[old(refillIdx) := RxBuf(Some(a.skb), a.virt)]
    {
      var idx := refillIdx;
      ghost var ds, ps := desc[..], pool[..];
      RefillOneKeepsRing(ds, ps, rxIdx, busy, a, invalSize, maxLen);
      desc[idx] := RefillOneDesc(desc[idx], a.phys, invalSize, maxLen);
      pool[idx] := RxBuf(Some(a.skb), a.virt);
      assert desc[..] == ds[idx := RefillOneDesc(ds[idx], a.phys, invalSize, maxLen)];
      assert pool[..] == ps[idx := RxBuf(Some(a.skb), a.virt)];
      refillIdx := Inc(idx, 1, desc.Length);
      busy := busy + 1;
    }

    /**
     * One pass of the `syn_dp_rx` loop on a slot the DMA engine has
     * completed: deliver or drop its buffer, count it, reset the
     * descriptor, empty the pool entry and advance the consume cursor.
     */
    method DrainSlot() returns (ev: RxEvent)
      requires Valid() && 0 < busy && !RxOwned(desc[rxIdx])
      modifies this`rxIdx, this`busy, this`stats, desc, pool
      ensures Valid()
      ensures busy == old(busy) - 1 && rxIdx == Inc(old(rxIdx), 1, desc.Length)
      ensures ev == EventOf(old(desc[rxIdx]), old(pool[rxIdx]))
      ensures stats == Account(old(stats), old(desc[rxIdx]))
      ensures desc[..] == old(desc[..])[old(rxIdx) := ResetOneDesc(old(desc[rxIdx]))]
      ensures pool[..] == old(pool[..])[old(rxIdx) := old(pool[rxIdx]).(skb := None)]
    {
      var idx := rxIdx;
      var d := desc[idx];
      var buf := pool[idx];
      if RxDeliverable(d) {
        var frameLength := RxFrameLength(d.status);
        stats := stats.(packets := stats.packets + 1, bytes := stats.bytes + frameLength);
        ev := Deliver(buf.skb, frameLength, d.extstatus & RxChkSumBypass == 0);
      } else {
        ev := Drop(buf.skb);
        stats := RxDropCount(stats, d.status);
      }
      ghost var ds, ps := desc[..], pool[..];
      DrainOneKeepsRing(ds, ps, idx, busy);
      desc[idx] := ResetOneDesc(d);
      pool[idx] := buf.(skb := None);
      assert desc[..] == ds[idx := ResetOneDesc(d)];
      assert pool[..] == ps[idx := buf.(skb := None)];
      rxIdx := Inc(idx, 1, desc.Length);
      busy := busy - 1;
    }

    /**
     * `syn_dp_rx_refill`: arm up to `N - busy` empty slots from the refill
     * cursor, one per successful allocation, stopping at the first failed
     * one.  `allocs[i]` is the outcome of the i-th allocation attempt.
     * Returns the descriptor ranges flushed afterwards, computed from the
     * number of slots that were empty, not the number armed.
     */
    method Refill(allocs: seq<Option<RxAlloc>>) returns (flushed: seq<Span>)
      requires Valid()
      requires |allocs| >= desc.Length - busy
      modifies this`refillIdx, this`busy, this`stats, desc, pool
      ensures Valid()
      ensures var n, start, want := desc.Length, old(refillIdx), desc.Length - old(busy);
        var got := Granted(allocs, want);
        && busy == old(busy) + |got|
        && refillIdx == Inc(start, |got|, n)
        && stats == (if |got| < want then old(stats).(skbAllocErrors := old(stats).skbAllocErrors + 1)
                     else old(stats))
        && desc[..] == ArmedDescs(old(desc[..]), start, got, invalSize, maxLen)
        && pool[..] == ArmedPool(old(pool[..]), start, got)
        && flushed == CacheSpans(start, Inc(start, want, n), n)
    {
      var n := desc.Length;
      var emptyCount := n - busy;
      var start := refillIdx;
      var end := Inc(start, emptyCount, n);
      var armed := Arm(allocs, emptyCount);
      flushed := CacheSpans(start, end, n);
    }

    /**
     * The loop of `syn_dp_rx_refill`: arm one empty slot per allocation
     * attempt, at most `want` of them, until the first attempt fails;
     * that failure counts `rx_skb_alloc_errors`.  Returns the number of
     * slots armed.
     */
    method Arm(allocs: seq<Option<RxAlloc>>, want: nat) returns (armed: nat)
      requires Valid()
      requires want == desc.Length - busy <= |allocs|
      modifies this`refillIdx, this`busy, this`stats, desc, pool
      ensures Valid()
      ensures var n, start := desc.Length, old(refillIdx);
        var got := Granted(allocs, want);
        && armed == |got|
        && stats == (if armed < want then old(stats).(skbAllocErrors := old(stats).skbAllocErrors + 1)
                     else old(stats))
        && busy == old(busy) + armed
        && refillIdx == Inc(start, armed, n)
        && desc[..] == ArmedDescs(old(desc[..]), start, got, invalSize, maxLen)
        && pool[..] == ArmedPool(old(pool[..]), start, got)
    {
      var n := desc.Length;
      var start := refillIdx;
      ghost var oldDesc, oldPool := desc[..], pool[..];
      ghost var got := Granted(allocs, want);
      armed := 0;
      while armed < want
        invariant armed <= |got| && stats == old(stats)
        invariant busy == old(busy) + armed && refillIdx == Inc(start, armed, n)
        invariant Valid()
        invariant desc[..] == ArmedDescs(oldDesc, start, got[..armed], invalSize, maxLen)
        invariant pool[..] == ArmedPool(oldPool, start, got[..armed])
      {
        var a := allocs[armed];
        if a.None? {
          stats := stats.(skbAllocErrors := stats.skbAllocErrors + 1);
          break;
        }
        assert armed < |got| && a.value == got[armed];
        ArmedSnoc(oldDesc, oldPool, start, got, armed, invalSize, maxLen);
        ArmSlot(a.value);
        armed := armed + 1;
      }
      assert got[..armed] == got;
    }

    /**
     * `syn_dp_rx`: drain at most `min(busy, budget)` slots in ring order
     * from `rxIdx`, stopping at the first one the DMA engine still owns.
     * Each drained slot's buffer is delivered or dropped, its descriptor
     * reset and its pool entry emptied.  Returns `budget` minus the
     * clamped slots left undrained, the handed-on buffers, and the
     * descriptor ranges invalidated before the scan.
     */
    method Drain(budget: int) returns (r: int, events: seq<RxEvent>, invalidated: seq<Span>)
      requires Valid()
      requires budget >= 1
      modifies this`rxIdx, this`busy, this`stats, desc, pool
      ensures Valid()
      ensures old(busy) == 0 ==>
        && r == 0 && events == [] && invalidated == []
        && busy == 0 && rxIdx == old(rxIdx)
        && stats == old(stats).(noBufferErrors := old(stats).noBufferErrors + 1)
        && desc[..] == old(desc[..]) && pool[..] == old(pool[..])
      ensures old(busy) > 0 ==>
        var n, start := desc.Length, old(rxIdx);
        var clamp := if old(busy) > budget then budget else old(busy);
        var k := RxDone(old(desc[..]), start, clamp);
        && r == budget - (clamp - k)
        && busy == old(busy) - k
        && rxIdx == Inc(start, k, n)
        && events == DrainEvents(old(desc[..]), old(pool[..]), start, k)
        && stats == DrainStats(old(stats), old(desc[..]), start, k)
        && invalidated == CacheSpans(start, Inc(start, clamp, n), n)
        && desc[..] == DrainedDescs(old(desc[..]), start, k)
        && pool[..] == DrainedPool(old(pool[..]), start, k)
    {
      var n := desc.Length;
      var b := busy;
      if b == 0 {
        stats := stats.(noBufferErrors := stats.noBufferErrors + 1);
        return 0, [], [];
      }
      if b > budget {
        b := budget;
      }
      var start := rxIdx;
      var end := Inc(rxIdx, b, n);
      invalidated := CacheSpans(start, end, n);
      var rest;
      rest, events := Scan(b);
      r := budget - rest;
    }

    /**
     * The scan loop of `syn_dp_rx`: drain slots in ring order from
     * `rxIdx` while some of the `clamp` slots it may take remain and the
     * DMA engine has completed the current one.  Returns the number of
     * those slots left undrained and the handed-on buffers.
     */
    method Scan(clamp: nat) returns (b: nat, events: seq<RxEvent>)
      requires Valid() && 0 < clamp <= busy
      modifies this`rxIdx, this`busy, this`stats, desc, pool
      ensures Valid()
      ensures var n, start := desc.Length, old(rxIdx);
        var k := RxDone(old(desc[..]), start, clamp);
        && b == clamp - k
        && busy == old(busy) - k && rxIdx == Inc(start, k, n)
        && events == DrainEvents(old(desc[..]), old(pool[..]), start, k)
        && stats == DrainStats(old(stats), old(desc[..]), start, k)
        && desc[..] == DrainedDescs(old(desc[..]), start, k)
        && pool[..] == DrainedPool(old(pool[..]), start, k)
    {
      var n := desc.Length;
      var start := rxIdx;
      b := clamp;
      events := [];
      ghost var oldDesc, oldPool := desc[..], pool[..];
      ghost var k: nat := 0;
      while b > 0
        invariant 0 <= b && k + b == clamp
        invariant busy == old(busy) - k && rxIdx == Inc(start, k, n)
        invariant forall j :: 0 <= j < k ==> !RxOwned(oldDesc[Inc(start, j, n)])
        invariant events == DrainEvents(oldDesc, oldPool, start, k)
        invariant stats == DrainStats(old(stats), oldDesc, start, k)
        invariant Valid()
        invariant desc[..] == DrainedDescs(oldDesc, start, k)
        invariant pool[..] == DrainedPool(oldPool, start, k)
      {
        var idx := rxIdx;
        DrainedSnoc(old(stats), oldDesc, oldPool, start, k);
        var d := desc[idx];
        if RxOwned(d) {
          break;
        }
        assert !RxOwned(oldDesc[Inc(start, k, n)]);
        var ev := DrainSlot();
        events := events + [ev];
        b := b - 1;
        k := k + 1;
      }
      RxDoneUnique(oldDesc, start, clamp, k);
    }
  }

  /**
   * The leading successful allocations among the first `limit` attempts:
   * the buffers `syn_dp_rx_refill` arms, in order.
   */
  function Granted(allocs: seq<Option<RxAlloc>>, limit: nat): (r: seq<RxAlloc>)
    requires limit <= |allocs|
    ensures |r| <= limit
    ensures forall j :: 0 <= j < |r| ==> allocs[j] == Some(r[j])
    ensures |r| < limit ==> allocs[|r|].None?
  {
    if limit == 0 || allocs[0].None? then []
    else
      var rest := Granted(allocs[1..], limit - 1);
      assert forall j :: 1 <= j < |rest| + 1 ==> allocs[j] == allocs[1..][j - 1];
      [allocs[0].value] + rest
  }
}
