# Synopsys GMAC data-path descriptor rings

A Dafny model of the descriptor-ring engine of the Synopsys GMAC data
path in the QCA NSS data-plane driver. The receive side
(`syn_dp_rx.c`) and the transmit side (`syn_dp_tx.c`) each keep:

- a fixed array of N DMA descriptors and a parallel buffer pool;
- a produce cursor (`rx_refill_idx` / `tx_idx`);
- a consume cursor (`rx_idx` / `tx_comp_idx`);
- a busy count of the slots handed to the DMA engine;
- statistics counters.

Each ring is a `class` with the descriptor and pool arrays and the
cursor, count and statistics fields. The driver's ring operations
(`syn_dp_rx_refill`, `syn_dp_rx`, `syn_dp_tx_set_desc`, `syn_dp_tx`,
`syn_dp_tx_complete`) are methods that update that state in place. Each
method's `ensures` states the new state as a function of the old one. The
per-descriptor and per-counter helpers (`syn_dp_rx_reset_one_desc`,
`syn_dp_rx_refill_one_desc`, `syn_dp_tx_error_cnt`,
`syn_dp_tx_clear_buf_entry`) are pure functions on descriptor, statistics
and pool values, which the methods apply to the slot they update.

Modules:

- `Ring` (`ring.dfy`) holds what both directions share:
  - ring index arithmetic (`Inc`, `Off`);
  - the two-segment buffer split;
  - the slot intervals used for batched cache maintenance and buffer release.
- `Descriptors` (`desc.dfy`) holds the descriptor layouts and the status bits the engines test.
- `RxEngine` (`rx.dfy`) models refill and drain:
  - `syn_dp_rx_reset_one_desc`, `syn_dp_rx_refill_one_desc`;
  - `syn_dp_rx_refill`, `syn_dp_rx`.
- `TxEngine` (`tx.dfy`) models enqueue, reclaim and error counting:
  - `syn_dp_tx_error_cnt`, `syn_dp_tx_clear_buf_entry`, `syn_dp_tx_set_desc`;
  - `syn_dp_tx_complete`, `syn_dp_tx`.

Each class has a ring invariant, `Valid()`. It says:

- the `busy` slots from the consume cursor on are the slots handed to the DMA engine;
- each of those slots holds a buffer;
- the produce cursor is the slot after them;
- on receive, every other slot is empty and only the last slot has the end-of-ring bit;
- on transmit, no other slot is owned by the DMA engine.

Every public operation keeps `Valid()`: the constructors, `Refill`, `Drain`, `Submit` and `Complete`/`CompleteFixed`, and also their steps `ArmSlot`, `Arm`, `DrainSlot`, `Scan`, `ReclaimSlot`, `Walk`, `FreeReclaimed`, `Reclaim` and their fixed variants. `TxRing.SetDesc` moves `tx_idx` before `Submit` counts the slot busy, so it states its new state without `Valid()`. `ReleaseRange`, `ReleaseConsumed` and `ReleaseConsumedFixed` state the new pool only; the methods that call them re-establish `Valid()`. The transmit ring has a second invariant,
`Tidy()`: no pool entry outside the busy slots still holds a buffer. The
corrected completion keeps `Tidy()`. The completion as written does not
(see Findings).

The DMA engine's write-back is not a step of the model. `Drain`,
`Complete` and `CompleteFixed` accept any descriptor contents that
`Valid()` allows, so the statuses the engine wrote are inputs through the
ring state. Allocation outcomes for refill are a parameter: `allocs[i]` is
the result of the i-th `__netdev_alloc_skb` attempt. A socket buffer is
modelled by an identity number. The buffers a drain or completion hands
on or frees are returned as sequences.

The bit values of the status masks follow the controller's
enhanced-descriptor layout. The driver's register header
(`syn_dma_reg.h`) is not part of this model. The ring-index helpers
`syn_dp_{rx,tx}_inc_index` live in a header that is not part of this
model either. They are modelled as advancing modulo N (`Ring.Inc`, tied
to `%` by `Ring.IncIsMod`).

## Model

| member | source | states |
|---|---|---|
| Ring.Inc | qca/src/qca-nss-dp/hal/dp_ops/syn_gmac_dp/syn_dp_rx.c:262 | `syn_dp_{rx,tx}_inc_index`: advancing a slot index by at most N slots gives a slot of the ring. |
| Ring.IncIsMod | qca/src/qca-nss-dp/hal/dp_ops/syn_gmac_dp/syn_dp_rx.c:262 | Advancing a ring index by k slots (at most N) is `(i + k) mod N`. |
| Ring.Split | qca/src/qca-nss-dp/hal/dp_ops/syn_gmac_dp/syn_dp_rx.c:52-65 | Two-segment rule. A length up to MAX uses one segment with buffer2 = 0. A longer one uses size1 = MAX and size2 = length − MAX, with buffer2 = buffer1 + MAX in 32-bit arithmetic. The sizes always add up to the length. |
| Ring.CacheSpans | qca/src/qca-nss-dp/hal/dp_ops/syn_gmac_dp/syn_dp_rx.c:116-121 | The flush/invalidate ranges: one range from start to end when end is past start, otherwise two, [start..N−1] then [0..end]. Every range lies inside the ring. |
| Ring.CacheSpansExact | qca/src/qca-nss-dp/hal/dp_ops/syn_gmac_dp/syn_dp_rx.c:116-122 | The batched flush/invalidate ranges for a batch of `count` slots from `start` cover exactly the batch plus the slot after it. A batch of 0 slots covers the whole ring. |
| Ring.ConsumedSpansExact | qca/src/qca-nss-dp/hal/dp_ops/syn_gmac_dp/syn_dp_tx.c:179-201 | The intended release ranges (one range, or [start..N−1] then [0..end] when wrapped) hold exactly the slots from start to end in ring order. |
| Ring.ReleaseSpans | qca/src/qca-nss-dp/hal/dp_ops/syn_gmac_dp/syn_dp_tx.c:179-201 | The release ranges as written: one range [start..last] when not wrapped; when wrapped, [start..N−1], followed by [0..last] only when last is non-zero. |
| Ring.ConsumedSpans | qca/src/qca-nss-dp/hal/dp_ops/syn_gmac_dp/syn_dp_tx.c:179-201 | The release ranges as intended: one range [start..last], or [start..N−1] then [0..last] when wrapped. |
| Ring.ReleaseSpansMissSlotZero | qca/src/qca-nss-dp/hal/dp_ops/syn_gmac_dp/syn_dp_tx.c:184-194 | The release ranges as written equal the intended ones except when the range wraps and ends at slot 0. Then slot 0 is consumed but in no released range. |
| Descriptors.RxFrameLength | qca/src/qca-nss-dp/hal/dp_ops/syn_gmac_dp/syn_dp_rx.c:207 | The frame length read from a receive status word fits its 14-bit field. |
| RxEngine.ResetOneDesc | qca/src/qca-nss-dp/hal/dp_ops/syn_gmac_dp/syn_dp_rx.c:31-38 | A reset descriptor is empty: status, extstatus, sizes and both buffers are zero. It keeps only the end-of-ring bit of the length word. |
| RxEngine.RefillOneDesc | qca/src/qca-nss-dp/hal/dp_ops/syn_gmac_dp/syn_dp_rx.c:44-67 | Arming sets status to exactly OWN_BY_DMA, buffer1 to the given address, and sizes/buffer2 by the two-segment rule. End-of-ring and extstatus are kept. Resetting an armed empty descriptor gives it back (round trip). |
| RxEngine.RxDropCount | qca/src/qca-nss-dp/hal/dp_ops/syn_gmac_dp/syn_dp_rx.c:240-255 | A dropped frame adds exactly 1 to `rx_errors`. Each per-bit counter grows by 1 iff its bit is set, and only when one of CRC, collision, overflow, dribbling or length error is set. Packets, bytes, alloc and no-buffer counters are unchanged. |
| RxEngine.ExtStatusOnlyDropCountsOnce | qca/src/qca-nss-dp/hal/dp_ops/syn_gmac_dp/syn_dp_rx.c:203-254 | Take a frame with a valid status but an IP header error in extstatus. It is dropped, counted once in `rx_errors`, and raises no per-bit counter. |
| RxEngine.EventOf | qca/src/qca-nss-dp/hal/dp_ops/syn_gmac_dp/syn_dp_rx.c:203-255 | A drained slot's buffer is delivered iff the status is valid and the extended status reports no IP error, else dropped. A delivery carries the 14-bit frame length and is checksum-verified iff the bypass bit is clear. |
| RxEngine.Account | qca/src/qca-nss-dp/hal/dp_ops/syn_gmac_dp/syn_dp_rx.c:203-255 | A delivered frame adds one packet and its length in bytes and nothing else. A dropped frame adds no packet or byte and is accounted exactly by the drop rule `RxDropCount` (one `rx_errors` plus the per-bit counters). Alloc and no-buffer counters never move. |
| RxEngine.AccountMatchesEvent | qca/src/qca-nss-dp/hal/dp_ops/syn_gmac_dp/syn_dp_rx.c:203-255 | For one drained slot, packets and bytes grow by its event iff it is a delivery, and `rx_errors` grows by one iff it is a drop. |
| RxEngine.RxDropCountFixed | qca/src/qca-nss-dp/hal/dp_ops/syn_gmac_dp/syn_dp_rx.c:250-253 | Corrected drop accounting. `rx_ip_header_errors` and `rx_ip_payload_errors` each grow by 1 iff their bit is set in the extended status, on their own, whatever the status word holds. Every other counter is as written. |
| RxEngine.IpErrorCountersReadStatusWord | qca/src/qca-nss-dp/hal/dp_ops/syn_gmac_dp/syn_dp_rx.c:252-253 | As written, an IP header error in the extended status of a dropped frame is not counted, and the status bit under the same mask is counted instead. A frame dropped at line 203 only for an IP header error is not counted either. The corrected accounting counts the extended-status error in all three cases and ignores the status bit. |
| RxEngine.DrainEvents | qca/src/qca-nss-dp/hal/dp_ops/syn_gmac_dp/syn_dp_rx.c:175-266 | Draining k slots hands on one event per slot, in ring order. The j-th event is the delivery or drop of slot `start + j`. |
| RxEngine.DrainStatsMatchEvents | qca/src/qca-nss-dp/hal/dp_ops/syn_gmac_dp/syn_dp_rx.c:203-255 | After k slots: `rx_packets` grows by the delivered frames, `rx_bytes` by their lengths, `rx_errors` by the dropped frames. Every slot is delivered or dropped, never both (delivered + dropped = k). |
| RxEngine.RefillOneKeepsRing | qca/src/qca-nss-dp/hal/dp_ops/syn_gmac_dp/syn_dp_rx.c:96-110 | The slot after the busy ones is empty. Arming it there keeps the ring shape with one more busy slot. |
| RxEngine.DrainOneKeepsRing | qca/src/qca-nss-dp/hal/dp_ops/syn_gmac_dp/syn_dp_rx.c:260-263 | Resetting the first busy slot, emptying its pool entry and advancing `rx_idx` keeps the ring shape with one fewer busy slot. |
| RxEngine.DrainedAt | qca/src/qca-nss-dp/hal/dp_ops/syn_gmac_dp/syn_dp_rx.c:260-262 | After draining k slots from start, a slot less than k steps from start is reset with its skb cleared. Every other slot is unchanged. |
| RxEngine.ArmedAt | qca/src/qca-nss-dp/hal/dp_ops/syn_gmac_dp/syn_dp_rx.c:96-110 | After arming with buffers `got`, the j-th slot from start holds the j-th buffer (descriptor and pool). Every other slot is unchanged. |
| RxEngine.RxDone | qca/src/qca-nss-dp/hal/dp_ops/syn_gmac_dp/syn_dp_rx.c:175-183 | The number of slots the scan takes: at most the limit, none of them DMA-owned, and stopped only by a DMA-owned slot or the limit. |
| RxEngine.Granted | qca/src/qca-nss-dp/hal/dp_ops/syn_gmac_dp/syn_dp_rx.c:88-95 | The buffers refill arms are the leading successful allocations among the first `limit` attempts. A shorter list means the next attempt failed. |
| RxEngine.RxRing.ArmSlot | qca/src/qca-nss-dp/hal/dp_ops/syn_gmac_dp/syn_dp_rx.c:96-110 | One refill step. The slot at the cursor gets the armed descriptor and the buffer in the pool, the cursor advances by one, busy grows by one, and the ring stays valid. |
| RxEngine.RxRing.DrainSlot | qca/src/qca-nss-dp/hal/dp_ops/syn_gmac_dp/syn_dp_rx.c:185-265 | One drain step. The returned event and the stats are those of the slot's descriptor. The descriptor is reset, the pool skb cleared, the cursor advanced and busy decreased, and the ring stays valid. |
| RxEngine.RxRing.Arm | qca/src/qca-nss-dp/hal/dp_ops/syn_gmac_dp/syn_dp_rx.c:88-111 | The refill loop arms exactly the leading granted buffers, in ring order from the cursor. A failed attempt stops it and counts `rx_skb_alloc_errors` exactly once. The remaining slots stay untouched. |
| RxEngine.RxRing.Refill | qca/src/qca-nss-dp/hal/dp_ops/syn_gmac_dp/syn_dp_rx.c:73-124 | `syn_dp_rx_refill`. Busy and the cursor advance by the number armed, and the ring stays valid (busy ≤ N). The flushed ranges are computed from `empty_count`, not from the number armed. |
| RxEngine.RxRing.Scan | qca/src/qca-nss-dp/hal/dp_ops/syn_gmac_dp/syn_dp_rx.c:175-266 | The drain loop takes exactly `RxDone` slots from `rx_idx`. Events, stats, descriptors and pool are the drained ones. It returns the clamped slots left. |
| RxEngine.RxRing.Drain | qca/src/qca-nss-dp/hal/dp_ops/syn_gmac_dp/syn_dp_rx.c:130-275 | `syn_dp_rx`. With busy = 0 it counts `rx_no_buffer_errors` once, returns 0 and changes nothing else. Otherwise it drains in order up to min(busy, budget) slots, stopping at the first DMA-owned slot, and returns budget − (clamp − drained). The invalidated ranges are those of the clamped batch. |
| TxEngine.TxErrorCount | qca/src/qca-nss-dp/hal/dp_ops/syn_gmac_dp/syn_dp_tx.c:27-40 | `tx_errors` grows by exactly 1. Each of the ten per-cause counters grows by 1 iff its status bit is set. Packets, bytes and `tx_desc_not_avail` are unchanged. |
| TxEngine.StatusWord | qca/src/qca-nss-dp/hal/dp_ops/syn_gmac_dp/syn_dp_tx.c:91 | The written status is the caller's flags, with the checksum-insertion field when offload is needed and end-of-ring in the last slot. All other bits are the caller's. |
| TxEngine.SubmitStatus | qca/src/qca-nss-dp/hal/dp_ops/syn_gmac_dp/syn_dp_tx.c:234-235 | A queued frame's status has OWN, INT_ENABLE, FIRST and LAST set and no ERROR. It has checksum insertion iff offload was requested and end-of-ring iff the slot is the last. |
| TxEngine.TxDone | qca/src/qca-nss-dp/hal/dp_ops/syn_gmac_dp/syn_dp_tx.c:129-138 | The number of slots the completion walk takes: at most the limit, none DMA-owned, and stopped only by a DMA-owned slot or the limit. |
| TxEngine.Reclaimed | qca/src/qca-nss-dp/hal/dp_ops/syn_gmac_dp/syn_dp_tx.c:144-161 | A reclaimed last segment without error counts one packet and its bytes. With error, it counts no packet and is accounted exactly by `syn_dp_tx_error_cnt` (`TxErrorCount`: `tx_errors` and the per-cause counters). A segment that is not last counts nothing. `tx_desc_not_avail` never moves. |
| TxEngine.CompleteStatsCount | qca/src/qca-nss-dp/hal/dp_ops/syn_gmac_dp/syn_dp_tx.c:144-161 | Reclaiming k slots adds to `tx_packets` + `tx_errors` exactly the number of LAST segments among them. That is k when each slot holds a whole frame. `tx_desc_not_avail` does not move. |
| TxEngine.ClearRange | qca/src/qca-nss-dp/hal/dp_ops/syn_gmac_dp/syn_dp_tx.c:46-50 | `syn_dp_tx_clear_buf_entry` over slots lo..hi−1: those entries get a NULL skb and length 0, and every other entry is unchanged. |
| TxEngine.ReleaseAt | qca/src/qca-nss-dp/hal/dp_ops/syn_gmac_dp/syn_dp_tx.c:188-200 | Releasing a list of ranges clears (`skb` NULL, `len` 0) exactly the pool entries of slots in them. |
| TxEngine.ReleaseOnlyConsumed | qca/src/qca-nss-dp/hal/dp_ops/syn_gmac_dp/syn_dp_tx.c:179-201 | The release ranges as written hold only reclaimed slots. The intended ones hold exactly the reclaimed slots. |
| TxEngine.FreedCount | qca/src/qca-nss-dp/hal/dp_ops/syn_gmac_dp/syn_dp_tx.c:179-201 | The intended release frees one buffer per reclaimed slot. The release as written frees one fewer exactly when the reclaimed slots wrap and end at slot 0. |
| TxEngine.QueueOneKeepsRing | qca/src/qca-nss-dp/hal/dp_ops/syn_gmac_dp/syn_dp_tx.c:82-93 | Queueing into the slot after the busy ones keeps the ring shape (and tidiness) with one more busy slot. |
| TxEngine.ReclaimOneKeepsRing | qca/src/qca-nss-dp/hal/dp_ops/syn_gmac_dp/syn_dp_tx.c:162-169 | Advancing `tx_comp_idx` past a completed slot keeps the ring shape with one fewer busy slot. |
| TxEngine.ReleaseKeepsRing | qca/src/qca-nss-dp/hal/dp_ops/syn_gmac_dp/syn_dp_tx.c:188-200 | Releasing the ranges as written, or as intended, after a reclaim keeps the ring shape. |
| TxEngine.ConsumedReleaseTidy | qca/src/qca-nss-dp/hal/dp_ops/syn_gmac_dp/syn_dp_tx.c:188-200 | Releasing exactly the reclaimed slots leaves no buffer outside the busy slots, when none was there before. |
| TxEngine.CompleteLeaksSlotZero | qca/src/qca-nss-dp/hal/dp_ops/syn_gmac_dp/syn_dp_tx.c:184-194 | Take a consumed range that wraps and ends at slot 0. As written, slot 0's pool entry is neither freed nor cleared. As intended, it is cleared. |
| TxEngine.TxRing.SetDesc | qca/src/qca-nss-dp/hal/dp_ops/syn_gmac_dp/syn_dp_tx.c:56-94 | The slot at `tx_idx` gets the split segments, the buffer address and the composed status, and the pool records skb and len. `tx_idx` advances by one (mod N). Nothing else changes. |
| TxEngine.TxRing.Submit | qca/src/qca-nss-dp/hal/dp_ops/syn_gmac_dp/syn_dp_tx.c:213-241 | `syn_dp_tx`. On a full ring it counts `tx_desc_not_avail`, returns −1 and changes nothing else. Otherwise it queues one whole frame owned by DMA, busy grows by 1, and it returns 0. The ring stays valid and tidy. |
| TxEngine.TxRing.ReclaimSlot | qca/src/qca-nss-dp/hal/dp_ops/syn_gmac_dp/syn_dp_tx.c:140-169 | One walk step on a completed slot. It counts the frame (LAST without ERROR: a packet and its len; with ERROR: the error counters), advances `tx_comp_idx` and decreases busy. |
| TxEngine.TxRing.Walk | qca/src/qca-nss-dp/hal/dp_ops/syn_gmac_dp/syn_dp_tx.c:128-170 | The do/while takes exactly `TxDone` slots from `tx_comp_idx`. Stats are those of the reclaimed slots. It returns the clamped slots left and the last reclaimed index, if any. |
| TxEngine.TxRing.ReleaseRange | qca/src/qca-nss-dp/hal/dp_ops/syn_gmac_dp/syn_dp_tx.c:188-192 | A release loop frees the buffers of the slots first..last in order and clears their pool entries (`syn_dp_tx_clear_buf_entry`, lines 46-50). |
| TxEngine.TxRing.ReleaseConsumed | qca/src/qca-nss-dp/hal/dp_ops/syn_gmac_dp/syn_dp_tx.c:179-201 | The release as written: the ranges of `Ring.ReleaseSpans`, with the head part of a wrapped range only when it ends at a non-zero index. |
| TxEngine.TxRing.ReleaseConsumedFixed | qca/src/qca-nss-dp/hal/dp_ops/syn_gmac_dp/syn_dp_tx.c:179-201 | The release as intended: the ranges of `Ring.ConsumedSpans`. |
| TxEngine.TxRing.FreeReclaimed | qca/src/qca-nss-dp/hal/dp_ops/syn_gmac_dp/syn_dp_tx.c:175-201 | After a walk of k slots it frees nothing when none was reclaimed, else releases the ranges as written. The ring stays valid. |
| TxEngine.TxRing.FreeReclaimedFixed | qca/src/qca-nss-dp/hal/dp_ops/syn_gmac_dp/syn_dp_tx.c:175-201 | The same with the intended ranges. The ring stays valid, and tidy if it was tidy before the walk. |
| TxEngine.TxRing.Reclaim | qca/src/qca-nss-dp/hal/dp_ops/syn_gmac_dp/syn_dp_tx.c:128-201 | The walk then the release as written, over `clamp` slots. |
| TxEngine.TxRing.ReclaimFixed | qca/src/qca-nss-dp/hal/dp_ops/syn_gmac_dp/syn_dp_tx.c:128-201 | The walk then the intended release. It keeps `Tidy()`. |
| TxEngine.TxRing.Complete | qca/src/qca-nss-dp/hal/dp_ops/syn_gmac_dp/syn_dp_tx.c:100-207 | `syn_dp_tx_complete` as written. With busy = 0 it returns 0 and changes nothing. Otherwise it reclaims in order up to min(busy, budget) slots, stopping at the first DMA-owned one, counts them, releases the ranges as written, and returns budget − (clamp − reclaimed). |
| TxEngine.TxRing.CompleteFixed | qca/src/qca-nss-dp/hal/dp_ops/syn_gmac_dp/syn_dp_tx.c:100-207 | The same with every reclaimed slot's buffer freed. It keeps `Tidy()`: no buffer outlives its completion. |

## Left out

- Cache maintenance (`dmac_inv_range`, `dmac_flush_range`, `dmac_clean_range`), `prefetch` and `wmb()`: only the ranges of the batched flush/invalidate are modelled, as returned values. Memory ordering is not modelled.
- Atomics and concurrency: each operation is a sequential method. The interleaving of `syn_dp_tx` with `syn_dp_tx_complete` on the busy count is not modelled.
- Kernel calls (`__netdev_alloc_skb`, `skb_reserve`, `virt_to_phys`, `skb_put`, `eth_type_trans`, `napi_gro_receive`, `dev_kfree_skb_any`, `netdev_dbg`): allocation outcomes are a parameter, and delivered, dropped or freed buffers are returned values.
- `syn_resume_dma_rx` / `syn_resume_dma_tx`: register writes, not modelled.
- The DMA engine's write-back is not an operation of the model. Drain and completion accept any descriptor contents the ring invariant allows.
- `SYN_DP_DEBUG` `BUG_ON` checks: not modelled as checks. The conditions at syn_dp_rx.c:48-49, syn_dp_tx.c:65, 68 and 147 follow from the ring invariant. The tx emptiness check at syn_dp_tx.c:67 does not. Completion never clears a tx descriptor's length or buffer fields, so a reused slot is not established to be empty.
- Ring setup and teardown are not part of the modelled files. The constructors only build an empty valid ring.
- Budget: `Drain`, `Complete` and `CompleteFixed` require `budget >= 1`, as NAPI passes. With a budget of 0, `syn_dp_rx` returns 0 when the slot at `rx_idx` is DMA-owned; otherwise it drains that one slot and returns 1. The completion's `while (--busy)` would start from −1.
- Descriptor length word: the size fields are kept separately. The `DESC_SIZE1`/`DESC_SIZE2` shift-and-mask packing, and its truncation of oversized lengths, is not modelled.
- RxEngine.RefillOneDesc: assigns the size fields, whereas the driver ORs them into the length word. The two agree because refill only arms descriptors that reset has emptied.
- Statistics: the 64-bit counters and the `uint32_t` local accumulators (`rx_packets`, `rx_bytes`, `tx_packets`, `total_len`) are unbounded. Packet and byte counts are added per slot instead of once after the loop, which gives the same totals sequentially.
- TxEngine.StatusWord: states that the caller's bits are kept only outside the checksum-insertion and end-of-ring fields (mask `0xFF1F_FFFF`). Inside those fields it states the OR directly.
- Return values: both `syn_dp_rx` and `syn_dp_tx_complete` return budget minus the clamped slots left unprocessed. When busy < budget this is more than the number processed. This is modelled as written.
- Receive IP error counters: `syn_dp_rx` tests the extended-status masks `DESC_RX_IP_HEADER_ERROR` and `DESC_RX_IP_PAYLOAD_ERROR` against the status word, not the extended status word. The drain models this as written (`RxEngine.RxDropCount`), not with the corrected `RxEngine.RxDropCountFixed` (see Findings).
- Socket buffers are identity numbers; their contents, protocol and checksum flags are reduced to the event fields.

## Findings

| source | as written | input that shows it | evidently intended | confidence | as-written member | corrected member |
|---|---|---|---|---|---|---|
| qca/src/qca-nss-dp/hal/dp_ops/syn_gmac_dp/syn_dp_tx.c:184-194 | When the reclaimed range wraps, the second release pass from slot 0 runs only if `skb_free_abs_end_idx` is non-zero. So a wrapped range that ends at slot 0 never frees or clears slot 0. | Ring of N ≥ 2 slots, `tx_comp_idx` = N − 1, two busy slots (N − 1 and 0), both completed, budget ≥ 2. Both slots are reclaimed and counted, but only slot N − 1's buffer is freed. Slot 0 keeps its skb. | Free and clear every reclaimed slot, slot 0 included. | not executed | TxEngine.CompleteLeaksSlotZero, TxEngine.TxRing.Complete | TxEngine.TxRing.CompleteFixed |
| qca/src/qca-nss-dp/hal/dp_ops/syn_gmac_dp/syn_dp_rx.c:252-253 | In the drop branch, the IP header and payload counters test `DESC_RX_IP_HEADER_ERROR` and `DESC_RX_IP_PAYLOAD_ERROR` against the status word. Those are extended-status masks: line 203 tests them against `extstatus`. | A dropped frame with a CRC error whose extended status has the IP header error bit: `rx_ip_header_errors` stays unchanged. A frame whose status word has the mask's bit set: it is counted as an IP header error. A frame dropped only for an IP header error in `extstatus` (no CRC, collision, overflow, dribbling or length bit): no IP counter moves. | Count `rx_ip_header_errors` and `rx_ip_payload_errors` from `extstatus`, each on its own bit. The deliver decision reads the masks from `extstatus` too, and a frame it drops for an IP error alone should still be counted. The other per-bit counters keep the five-bit guard. | not executed | RxEngine.RxDropCount, RxEngine.IpErrorCountersReadStatusWord | RxEngine.RxDropCountFixed |
