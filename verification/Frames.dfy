/** Pages, page bytes modulo the checksum field, and buffer-pool frame descriptors
    (src/buffer/frame.rs, src/storage/page.rs). */
module Frames {

  type PageId = nat
  type FrameId = nat

  /** `u64::MAX`: the value of `rec_lsn` on a frame with no unflushed change. */
  const NO_LSN: nat := 0xFFFF_FFFF_FFFF_FFFF

  /** `pin_count` is a `u16`. */
  const PIN_MODULUS: nat := 0x1_0000

  datatype Result<+T, +E> = Ok(value: T) | Err(error: E)

  datatype Option<+T> = None | Some(value: T)

  /** Everything in a page except its checksum field: the id in the header and the bytes. */
  datatype Body = Body(pageId: PageId, bytes: seq<bv8>)

  datatype Page = Page(body: Body, checksum: nat)

  const ZERO_PAGE: Page := Page(Body(0, []), 0)

  /** The checksum is computed over the page with the checksum field taken as zero. */
  predicate VerifyChecksum(crc: Body -> nat, page: Page) {
    page.checksum == crc(page.body)
  }

  function UpdateChecksum(crc: Body -> nat, page: Page): (r: Page)
    ensures r.body == page.body && VerifyChecksum(crc, r)
  {
    page.(checksum := crc(page.body))
  }

  datatype FrameState = Empty | Clean | Dirty | Flushing | Loading

  /** A frame: its descriptor fields and its buffer. */
  datatype Frame = Frame(
    pageId: PageId,
    pinCount: nat,
    dirty: bool,
    clockRef: bool,
    lastLsn: nat,
    recLsn: nat,
    ioInflight: bool,
    state: FrameState,
    buf: Page)
  {
    predicate IsPinned() { pinCount > 0 }

    /** Reset the descriptor to the empty state; the buffer keeps its bytes. */
    function Reset(): (r: Frame)
      ensures r.state == Empty && r.pageId == 0 && !r.IsPinned() && !r.ioInflight && r.buf == buf
    {
      Frame(0, 0, false, false, 0, NO_LSN, false, Empty, buf)
    }

    /** The frame holds a page that the page table points at. */
    predicate Resident() { state == Clean || state == Dirty }

    /** Neither pinned nor under I/O: the sweeper may take it. */
    predicate Reclaimable() { !IsPinned() && !ioInflight }

    /** The frame as the miss path reserves it for `page` before the read. */
    function Reserve(page: PageId): (r: Frame)
      ensures r.state == Loading && r.pageId == page && r.buf == buf
    {
      Reset().(state := Loading, pageId := page, ioInflight := true)
    }
  }

  const NEW_FRAME: Frame := Frame(0, 0, false, false, 0, NO_LSN, false, Empty, ZERO_PAGE)

  /** The fields that go with each lifecycle state. */
  predicate Shaped(fr: Frame) {
    match fr.state
    case Empty => fr == fr.Reset()
    case Clean => fr.pageId != 0 && !fr.dirty
    case Dirty => fr.pageId != 0 && fr.dirty
    case Loading => fr.ioInflight && fr.pinCount == 0 && !fr.dirty
    case Flushing => false
  }

  /** `r` is the least element of `s`, or `NO_LSN` when there is none. */
  ghost predicate IsLeastLsn(r: nat, s: set<nat>) {
    && (s == {} ==> r == NO_LSN)
    && (s != {} ==> r in s)
    && (forall x | x in s :: r <= x)
  }
}
