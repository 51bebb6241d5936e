/**
 * The DMA descriptors of the Synopsys GMAC rings and the status bits the
 * engines test.  The bit positions follow the controller's enhanced
 * descriptor layout (the driver's register header is not part of this
 * model); the receive and transmit engines only rely on the masks named
 * here.  A descriptor's length word is kept as its fields: the two
 * segment sizes and, on receive, the end-of-ring bit.
 */
module Descriptors {
  import opened Ring

  /** Descriptor status: set by software to hand the slot to the DMA engine. */
  const OwnByDma: bv32 := 0x8000_0000

  // Receive status word (RDES0).
  const RxFrameLengthMask: bv32 := 0x3FFF_0000
  const DescError: bv32 := 0x0000_8000
  const RxLengthError: bv32 := 0x0000_1000
  const RxOverflow: bv32 := 0x0000_0800
  const RxFirst: bv32 := 0x0000_0200
  const RxLast: bv32 := 0x0000_0100
  const RxCollision: bv32 := 0x0000_0040
  const RxDribbling: bv32 := 0x0000_0004
  const RxCrc: bv32 := 0x0000_0002

  // Receive extended status word (RDES4).
  const RxIpHeaderError: bv32 := 0x0000_0008
  const RxIpPayloadError: bv32 := 0x0000_0010
  const RxChkSumBypass: bv32 := 0x0000_0020

  // Transmit status/control word (TDES0).
  const TxIntEnable: bv32 := 0x4000_0000
  const TxLast: bv32 := 0x2000_0000
  const TxFirst: bv32 := 0x1000_0000
  const TxCisTcpPseudoCs: bv32 := 0x00C0_0000
  const TxEndOfRing: bv32 := 0x0020_0000
  const TxIpv4ChkError: bv32 := 0x0001_0000
  const TxError: bv32 := 0x0000_8000
  const TxTimeout: bv32 := 0x0000_4000
  const TxFrameFlushed: bv32 := 0x0000_2000
  const TxPayChkError: bv32 := 0x0000_1000
  const TxLostCarrier: bv32 := 0x0000_0800
  const TxNoCarrier: bv32 := 0x0000_0400
  const TxLateCollision: bv32 := 0x0000_0200
  const TxExcCollisions: bv32 := 0x0000_0100
  const TxExcDeferral: bv32 := 0x0000_0004
  const TxUnderflow: bv32 := 0x0000_0002

  /** 1 when any bit of `mask` is set in `word`, else 0: one counter step. */
  function Bit(word: bv32, mask: bv32): nat
  {
    if word & mask != 0 then 1 else 0
  }

  /** A receive descriptor (`struct dma_desc_rx`). */
  datatype RxDesc = RxDesc(
    status: bv32,
    endOfRing: bool,
    size1: nat,
    size2: nat,
    buffer1: U32,
    buffer2: U32,
    extstatus: bv32)

  /** A transmit descriptor (`struct dma_desc_tx`). */
  datatype TxDesc = TxDesc(
    status: bv32,
    size1: nat,
    size2: nat,
    buffer1: U32,
    buffer2: U32)

  /** A receive descriptor holding no buffer and not handed to the DMA engine. */
  predicate RxDescEmpty(d: RxDesc)
  {
    d.status == 0 && d.extstatus == 0 && d.size1 == 0 && d.size2 == 0
    && d.buffer1 == 0 && d.buffer2 == 0
  }

  predicate RxOwned(d: RxDesc)
  {
    d.status & OwnByDma != 0
  }

  predicate TxOwned(d: TxDesc)
  {
    d.status & OwnByDma != 0
  }

  /** A completed receive status describing a whole, error-free frame. */
  predicate RxStatusValid(status: bv32)
  {
    status & (DescError | RxFirst | RxLast) == RxFirst | RxLast
  }

  /** The frame length the DMA engine reports in a receive status word. */
  function RxFrameLength(status: bv32): (len: nat)
    ensures len < 0x4000
  {
    ((status & RxFrameLengthMask) >> 16) as nat
  }

  /**
   * `syn_dp_rx` hands a completed frame up the stack exactly when its
   * status is valid and the extended status reports neither an IP header
   * nor an IP payload checksum error.
   */
  predicate RxDeliverable(d: RxDesc)
  {
    RxStatusValid(d.status) && d.extstatus & (RxIpHeaderError | RxIpPayloadError) == 0
  }
}
