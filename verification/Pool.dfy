/** The buffer pool (src/buffer/pool.rs), each operation taken as one atomic step.

    Disk outcomes are drawn from two fixed but arbitrary schedules, so that every
    statement below is about every possible sequence of faults. */
module Pool {
  import opened Frames
  import opened PoolState

  datatype IoError = InvalidInput | InvalidData | WouldBlock | Device | StorageFailed

  datatype ReadFate = ReadOk | ReadError

  /** What one visit of the clock hand did. */
  datatype Visit = Passed | Reclaimed | VisitFailed(error: IoError)

  const MAX_SWEEPS: nat := 100_000
  const MAX_PREFETCH_PAGES: nat := 32

  class BufferPool {
    const crc: Body -> nat
    const writeFate: nat -> WriteFate
    const readFate: nat -> ReadFate
    const ghostCapacity: nat

    /** Frames, page table (the shard maps together) and data file. */
    var s: Core
    var clockHand: nat
    var ghostQueue: seq<PageId>
    var ghostSet: set<PageId>
    var hits: nat
    var misses: nat
    var evictions: nat
    var ioFailed: bool

    /** How many write-backs and reads the data file has seen. */
    var writeCount: nat
    var readCount: nat
    var nextGuard: nat

    ghost predicate Valid()
      reads this
    {
      && Inv(s)
      && GhostInv(ghostQueue, ghostSet, ghostCapacity)
      && (forall g | g in s.guards :: g.id < nextGuard)
      && (|s.frames| > 0 ==> clockHand < |s.frames|)
      && ghostCapacity > 0
    }

    /** No flush has failed and none will. */
    ghost predicate FaultFree()
      reads this
    {
      !ioFailed && forall n | n >= writeCount :: writeFate(n).WriteOk?
    }

    /** What a step that no guard asked for leaves alone: the flat page map, the guards, health;
        and, once storage has failed, the disk and every dirty frame. */
    twostate predicate Undisturbed()
      reads this
      requires old(Valid())
    {
      && Valid() && Shows(s) == old(Shows(s))
      && s.guards == old(s.guards) && s.unflagged == old(s.unflagged)
      && |s.frames| == old(|s.frames|)
      && (old(FaultFree()) ==> FaultFree())
      && (old(ioFailed) ==> ioFailed && Frozen(old(s), s))
    }

    constructor (frameCount: nat, disk: map<PageId, Page>, crc: Body -> nat,
                 writeFate: nat -> WriteFate, readFate: nat -> ReadFate)
      ensures Valid() && Shows(s) == map p | p in disk :: disk[p].body
      ensures |s.frames| == frameCount && s.guards == {} && s.unflagged == {} && s.disk == disk && !ioFailed
      ensures this.crc == crc && this.writeFate == writeFate && this.readFate == readFate
    {
      this.s := Core(seq(frameCount, i => NEW_FRAME), map[], disk, {}, {}, seq(frameCount, i => {}));
      this.clockHand := 0;
      this.ghostCapacity := if frameCount / 4 > 16 then frameCount / 4 else 16;
      this.ghostQueue := [];
      this.ghostSet := {};
      this.hits, this.misses, this.evictions := 0, 0, 0;
      this.ioFailed := false;
      this.crc, this.writeFate, this.readFate := crc, writeFate, readFate;
      this.writeCount, this.readCount, this.nextGuard := 0, 0, 0;
      new;
      assert forall f | 0 <= f < |s.frames| :: PinsOf(s.guards, f) == {};
    }

    // -------------------------------------------------------------- guards

    /** `PageGuard::buf_mut`: overwrite the bytes.  The source spins while I/O is in flight. */
    method Write(g: PageGuard, page: Page)
      requires Valid() && g in s.guards && !s.frames[g.frameId].ioInflight
      modifies this`s
      ensures Valid() && s == Written(old(s), g, page)
      ensures g.frameId < |old(s.frames)| && s.frames == old(s.frames)[g.frameId := old(s.frames)[g.frameId].(buf := page)]
      ensures Shows(s) == old(Shows(s))[g.pageId := page.body]
    {
      hide Inv;
      WrittenKeeps(s, g, page);
      s := Written(s, g, page);
    }

    /** `PageGuard::set_dirty`. */
    method SetDirty(g: PageGuard, lsn: nat)
      requires Valid() && g in s.guards && lsn <= NO_LSN
      modifies this`s
      ensures g.frameId < |old(s.frames)| == |old(s.lsns)|
      ensures Valid() && s == Dirtied(old(s), g, lsn)
      ensures var fr := old(s.frames)[g.frameId];
              var rec := if fr.recLsn <= lsn then fr.recLsn else lsn;
              s.frames == old(s.frames)[g.frameId := fr.(dirty := true, state := Dirty, lastLsn := lsn, recLsn := rec)]
      ensures Shows(s) == old(Shows(s))
    {
      hide Inv;
      DirtiedKeeps(s, g, lsn);
      s := Dirtied(s, g, lsn);
    }

    /** `PageGuard::buf`: the bytes this guard shows. */
    method Read(g: PageGuard) returns (page: Page)
      requires Valid() && g in s.guards
      ensures g.pageId in Shows(s) && page.body == Shows(s)[g.pageId]
    {
      page := s.frames[g.frameId].buf;
    }

    /** `PageGuard::drop`; the writer has called `set_dirty` for everything it wrote. */
    method Unfix(g: PageGuard)
      requires Valid() && g in s.guards && g !in s.unflagged
      modifies this`s
      ensures g.frameId < |old(s.frames)| && Valid() && s == Unpinned(old(s), g)
      ensures var fr := old(s.frames)[g.frameId];
              fr.pinCount > 0 && s.frames == old(s.frames)[g.frameId := fr.(pinCount := fr.pinCount - 1)]
      ensures Shows(s) == old(Shows(s))
    {
      hide Inv;
      UnpinnedKeeps(s, g);
      s := Unpinned(s, g);
    }

    // -------------------------------------------------------------- write-back

    /** Frame `f` would be written back by a flush now. */
    predicate Flushable(f: FrameId)
      reads this
      requires f < |s.frames|
    {
      s.frames[f].pageId != 0 && !ioFailed && s.frames[f].Reclaimable()
    }

    /** The write-back proper: claimed, unpinned, storage healthy. */
    method WriteBack(f: FrameId) returns (r: Result<(), IoError>)
      requires Valid() && f < |s.frames| && Flushable(f)
      modifies this`s, this`ioFailed, this`writeCount
      ensures Valid() && Shows(s) == old(Shows(s)) && writeCount == old(writeCount) + 1
      ensures s == Flushed(old(s), f, crc, writeFate(old(writeCount)))
      ensures ioFailed == writeFate(old(writeCount)).SyncError?
      ensures r.Ok? <==> writeFate(old(writeCount)).WriteOk?
      ensures r.Err? ==> r.error == Device
    {
      hide Inv, Flushed;
      var fate := writeFate(writeCount);
      FlushedKeeps(s, f, crc, fate);
      writeCount := writeCount + 1;
      s := Flushed(s, f, crc, fate);
      match fate
      case WriteOk => r := Ok(());
      case StageError => r := Err(Device);
      case WriteError(_) => r := Err(Device);
      case SyncError(_) =>
        ioFailed := true;
        r := Err(Device);
    }

    method FlushSingleFrame(f: FrameId) returns (r: Result<(), IoError>)
      requires Valid() && f < |s.frames|
      modifies this`s, this`ioFailed, this`writeCount
      ensures Valid() && Shows(s) == old(Shows(s))
      ensures !old(Flushable(f)) ==> s == old(s) && writeCount == old(writeCount) && ioFailed == old(ioFailed)
      ensures !old(Flushable(f)) ==> (r.Err? <==> old(ioFailed) && old(s).frames[f].pageId != 0)
      ensures old(Flushable(f)) ==> s == Flushed(old(s), f, crc, writeFate(old(writeCount)))
                                    && writeCount == old(writeCount) + 1
                                    && ioFailed == writeFate(old(writeCount)).SyncError?
      ensures old(Flushable(f)) ==> (r.Ok? <==> writeFate(old(writeCount)).WriteOk?)
      ensures r.Err? ==> r.error == if old(ioFailed) then StorageFailed else Device
    {
      hide Inv, Flushed;
      var fr := s.frames[f];
      if fr.pageId == 0 {
        return Ok(());
      }
      if ioFailed {
        return Err(StorageFailed);
      }
      if fr.ioInflight || fr.IsPinned() {
        return Ok(());
      }
      r := WriteBack(f);
    }

    // -------------------------------------------------------------- ghost queue

    /** Remember a cold page, forgetting the oldest one when full. */
    method PushGhost(p: PageId)
      requires GhostInv(ghostQueue, ghostSet, ghostCapacity) && ghostCapacity > 0
      modifies this`ghostQueue, this`ghostSet
      ensures GhostInv(ghostQueue, ghostSet, ghostCapacity)
      ensures old(p in ghostSet) ==> ghostQueue == old(ghostQueue)
      ensures old(p !in ghostSet) ==>
                ghostQueue == (if |old(ghostQueue)| >= ghostCapacity then old(ghostQueue)[1..] else old(ghostQueue)) + [p]
      ensures p in ghostQueue
    {
      if p in ghostSet {
        return;
      }
      if |ghostQueue| >= ghostCapacity {
        var oldest := ghostQueue[0];
        ghostQueue := ghostQueue[1..];
        ghostSet := ghostSet - {oldest};
      }
      ghostQueue := ghostQueue + [p];
      ghostSet := ghostSet + {p};
    }

    // -------------------------------------------------------------- CLOCK sweep

    /** One visit of the clock hand: skip a busy frame, reclaim an unpinned clean one, give a
        referenced dirty one a second chance, write back an unreferenced dirty one. */
    method VisitFrame(f: FrameId) returns (v: Visit)
      requires Valid() && f < |s.frames|
      modifies this`s, this`ioFailed, this`writeCount, this`ghostQueue, this`ghostSet, this`evictions
      ensures Valid() && Shows(s) == old(Shows(s)) && SameExcept(old(s), s, f)
      ensures v.Reclaimed? <==> old(s.frames[f].Reclaimable() && s.frames[f].state != Dirty)
      ensures v.VisitFailed? ==> v.error == Device || v.error == StorageFailed
      ensures v.Reclaimed? ==> s.frames[f].state == Empty
      ensures v.Passed? ==> s.frames[f].Reclaimable() == old(s.frames[f].Reclaimable())
      ensures v.Passed? && old(s.frames[f].Reclaimable()) ==>
                s.frames[f].state == if old(s.frames[f].clockRef) then Dirty else Clean
      ensures v.Passed? && old(s.frames[f].Reclaimable()) ==> !s.frames[f].clockRef
      ensures v.Passed? && !old(s.frames[f].Reclaimable()) ==> s.frames[f] == old(s.frames[f])
      ensures old(FaultFree()) ==> !v.VisitFailed? && FaultFree()
      ensures old(ioFailed) ==> ioFailed && Frozen(old(s), s)
      ensures BusyKept(old(s), s) && Careful(crc, old(s), s, [])
      // A page that leaves the pool is counted, and remembered as a ghost if it was not referenced since the last round.
      ensures var fr := old(s.frames[f]);
              if v.Reclaimed? && fr.pageId != 0
              then evictions == old(evictions) + 1 && (if fr.clockRef then ghostQueue == old(ghostQueue) else fr.pageId in ghostQueue)
              else evictions == old(evictions) && ghostQueue == old(ghostQueue)
    {
      hide Inv, Flushed, GhostInv, BusyKept, Careful;
      BusyRefl(s);
      CarefulRefl(crc, s, []);
      InvShapes(s, f);
      CarefulVisit(crc, s, f);
      var fr := s.frames[f];
      if fr.IsPinned() || fr.ioInflight {
        return Passed;
      }
      if fr.state == Clean || fr.state == Empty {
        EvictedKeeps(s, f);
        if fr.pageId != 0 {
          if !fr.clockRef {
            PushGhost(fr.pageId);
          }
          evictions := evictions + 1;
        }
        s := Evicted(s, f);
        return Reclaimed;
      }
      if fr.state == Dirty {
        if fr.clockRef {
          UnreferencedKeeps(s, f);
          s := Unreferenced(s, f);
          return Passed;
        }
        if !ioFailed {
          FlushedKeeps(s, f, crc, writeFate(writeCount));
          CarefulFlushed(crc, s, f, writeFate(writeCount));
        }
        var r := FlushSingleFrame(f);
        if r.Err? {
          return VisitFailed(r.error);
        }
      }
      return Passed;
    }

    /** First pass of a sweep: an empty frame, in clock order. */
    method FindEmpty() returns (r: Option<FrameId>)
      requires Valid()
      modifies this`clockHand
      ensures Valid()
      ensures r.Some? ==> r.value < |s.frames| && s.frames[r.value].state == Empty && clockHand == r.value
      ensures r.None? ==> clockHand == old(clockHand)
      ensures r.None? ==> forall f | 0 <= f < |s.frames| :: s.frames[f].Reclaimable() ==> s.frames[f].state != Empty
    {
      var start, count := clockHand, |s.frames|;
      var i := 0;
      while i < count
        invariant 0 <= i <= count && clockHand == start
        invariant forall f | 0 <= f < count && Offset(start, f, count) < i ::
                    s.frames[f].Reclaimable() ==> s.frames[f].state != Empty
      {
        var idx := if start + i < count then start + i else start + i - count;
        if s.frames[idx].state == Empty && !s.frames[idx].ioInflight {
          clockHand := idx;
          return Some(idx);
        }
        i := i + 1;
      }
      r := None;
    }

    /** One CLOCK sweep of at most two rounds. */
    method SweepForVictim() returns (r: Result<Option<FrameId>, IoError>)
      requires Valid()
      modifies this`s, this`ioFailed, this`writeCount, this`ghostQueue, this`ghostSet, this`evictions, this`clockHand
      ensures Undisturbed()
      ensures s.table.Keys <= old(s.table.Keys) && AbsentSame(old(s), s)
      ensures r.Ok? ==> forall f | 0 <= f < |s.frames| && !old(s.frames)[f].Reclaimable() :: s.frames[f] == old(s.frames)[f]
      ensures r.Ok? && r.value.Some? ==> r.value.value < |s.frames| && s.frames[r.value.value].state == Empty
      ensures r.Err? ==> r.error == Device || r.error == StorageFailed
      ensures r == Ok(None) ==> forall f | 0 <= f < |s.frames| ::
                s.frames[f].Reclaimable() == old(s.frames)[f].Reclaimable()
      ensures r == Ok(None) ==> forall f | 0 <= f < |s.frames| && s.frames[f].Reclaimable() ::
                s.frames[f].state == Clean && old(s.frames)[f].state == Dirty
      ensures old(FaultFree()) ==> r.Ok?
      ensures BusyKept(old(s), s) && Careful(crc, old(s), s, [])
    {
      hide Inv, GhostInv, Swept, Shows, BusyKept, Careful, AbsentSame;
      BusyRefl(s);
      AbsentRefl(s);
      CarefulRefl(crc, s, []);
      var empty := FindEmpty();
      if empty.Some? {
        return Ok(empty);
      }
      var count := |s.frames|;
      ghost var start, s0 := clockHand, s;
      var scanned := 0;
      SweptStart(s.frames, start);
      while scanned < 2 * count
        invariant 0 <= scanned <= 2 * count && |s.frames| == count
        invariant count > 0 ==> clockHand == Nth(start, scanned, count) && start < count
        invariant Undisturbed()
        invariant Swept(s0.frames, s.frames, start, scanned) && s.table.Keys <= s0.table.Keys && AbsentSame(s0, s)
        invariant BusyKept(s0, s) && Careful(crc, s0, s, [])
      {
        var idx := clockHand;
        ghost var before := s;
        clockHand := if idx + 1 == count then 0 else idx + 1;
        scanned := scanned + 1;
        var v := VisitFrame(idx);
        BusyMore(s0, before, s);
        CarefulMore(crc, s0, before, s, []);
        AbsentMore(s0, before, s);
        match v
        case Passed => SweptStep(s0.frames, before.frames, s.frames, start, scanned - 1);
        case Reclaimed =>
          SweptOthers(s0.frames, before.frames, s.frames, start, scanned - 1);
          return Ok(Some(idx));
        case VisitFailed(e) => return Err(e);
      }
      SweptEnd(s0.frames, s.frames, start);
      r := Ok(None);
    }

    /** Sweep until a frame is reclaimed, at most `MAX_SWEEPS` times. */
    method FindFreeFrame() returns (r: Result<FrameId, IoError>, ghost sweeps: nat)
      requires Valid()
      modifies this`s, this`ioFailed, this`writeCount, this`ghostQueue, this`ghostSet, this`evictions, this`clockHand
      ensures Undisturbed()
      ensures s.table.Keys <= old(s.table.Keys) && AbsentSame(old(s), s)
      ensures r.Ok? ==> r.value < |s.frames| && s.frames[r.value].state == Empty
      // Bounded eviction: with fault-free flushes, one reclaimable frame is enough, within two sweeps.
      ensures old(FaultFree()) && (exists f | 0 <= f < old(|s.frames|) :: old(s.frames)[f].Reclaimable()) ==>
                r.Ok? && sweeps <= 2
      // Exhaustion is reported only when every frame is pinned or has I/O in flight.
      ensures r == Err(WouldBlock) ==> forall f | 0 <= f < old(|s.frames|) :: !old(s.frames)[f].Reclaimable()
      ensures r.Err? ==> r.error == Device || r.error == StorageFailed || r.error == WouldBlock
      ensures BusyKept(old(s), s) && Careful(crc, old(s), s, [])
    {
      hide Inv, GhostInv, BusyKept, Careful;
      BusyRefl(s);
      CarefulRefl(crc, s, []);
      var i := 0;
      sweeps := 0;
      while i < MAX_SWEEPS
        invariant 0 <= i <= MAX_SWEEPS && sweeps == i && s.table.Keys <= old(s.table.Keys) && AbsentSame(old(s), s)
        invariant Undisturbed() && BusyKept(old(s), s) && Careful(crc, old(s), s, [])
        invariant forall f | 0 <= f < |s.frames| :: s.frames[f].Reclaimable() == old(s.frames)[f].Reclaimable()
        invariant i >= 1 ==> forall f | 0 <= f < |s.frames| && s.frames[f].Reclaimable() :: s.frames[f].state == Clean
        invariant i >= 2 ==> forall f | 0 <= f < |s.frames| :: !s.frames[f].Reclaimable()
      {
        ghost var before := s;
        var v := SweepForVictim();
        BusyMore(old(s), before, s);
        CarefulMore(crc, old(s), before, s, []);
        sweeps := sweeps + 1;
        match v
        case Err(e) => return Err(e), sweeps;
        case Ok(Some(f)) => return Ok(f), sweeps;
        case Ok(None) =>
        i := i + 1;
      }
      r := Err(WouldBlock);
    }

    // -------------------------------------------------------------- ghost promotion

    /** A loaded page leaves the ghost queue. */
    method PromoteGhost(p: PageId)
      requires GhostInv(ghostQueue, ghostSet, ghostCapacity)
      modifies this`ghostQueue, this`ghostSet
      ensures GhostInv(ghostQueue, ghostSet, ghostCapacity)
      ensures ghostSet == old(ghostSet) - {p}
      ensures ghostQueue == Without(old(ghostQueue), p)
    {
      WithoutIs(ghostQueue, p);
      if p in ghostSet {
        ghostSet := ghostSet - {p};
        ghostQueue := Without(ghostQueue, p);
      }
    }

    // -------------------------------------------------------------- loading pages

    /** Read page `p` at its own offset. */
    method ReadPage(p: PageId) returns (r: Result<Page, IoError>)
      modifies this`readCount
      ensures r.Ok? <==> readFate(old(readCount)) == ReadOk && p in s.disk
      ensures r.Ok? ==> r.value == s.disk[p]
      ensures r.Err? ==> r.error == Device
    {
      var fate := readFate(readCount);
      readCount := readCount + 1;
      r := if fate == ReadOk && p in s.disk then Ok(s.disk[p]) else Err(Device);
    }

    /** Reserve free frames for the absent pages of the range, in order, up to `budget`. */
    method ReserveRange(start: PageId, count: nat, budget: nat)
      returns (r: Result<seq<(FrameId, PageId)>, IoError>, ghost upto: nat)
      requires Valid()
      modifies this`s, this`ioFailed, this`writeCount, this`ghostQueue, this`ghostSet, this`evictions, this`clockHand
      ensures Undisturbed() && BusyKept(old(s), s) && Vouched(crc, old(s), s) && s.table.Keys <= old(s.table.Keys)
      ensures r.Ok? ==> Reserving(crc, old(s), s, r.value, start, upto, budget) && upto <= count
      // It stops early only with the budget spent or no frame free.
      ensures r.Ok? && upto < count && |r.value| < budget ==> NoneEmpty(s, [])
    {
      hide Inv, GhostInv, Shows, BusyKept, Reserving, Vouched, NoneEmpty;
      var fill := [];
      ReservingNone(crc, s, start, budget);
      ReservingBusy(crc, s, s, fill, start, 0, budget);
      var i := 0;
      while i < count && |fill| < budget
        invariant 0 <= i <= count && Undisturbed() && Reserving(crc, old(s), s, fill, start, i, budget)
        invariant s.table.Keys <= old(s.table.Keys)
      {
        var p := start + i;
        if p == 0 || p in s.table {
          ReservingSkips(crc, old(s), s, fill, start, i, budget);
          i := i + 1;
          continue;
        }
        ghost var before := s;
        var v := SweepForVictim();
        ReservingBusy(crc, old(s), before, fill, start, i, budget);
        BusyMore(old(s), before, s);
        VouchedMore(crc, old(s), before, s);
        match v
        case Err(e) => return Err(e), i;
        case Ok(None) =>
          ReservingSwept(crc, old(s), before, s, fill, start, i, budget);
          NoneEmptySwept(s);
          return Ok(fill), i;
        case Ok(Some(f)) =>
          ReservingSwept(crc, old(s), before, s, fill, start, i, budget);
          ReservingMore(crc, old(s), s, fill, start, i, budget, f);
          s := Reserved(s, f, p);
          fill := fill + [(f, p)];
          i := i + 1;
      }
      ReservingBusy(crc, old(s), s, fill, start, i, budget);
      r, upto := Ok(fill), i;
    }

    /** Read every reserved page into its own frame. */
    method FillReserved(fill: seq<(FrameId, PageId)>) returns (r: Result<(), IoError>)
      requires Valid() && Pending(s, fill, 0)
      modifies this`s, this`readCount
      ensures Undisturbed()
      // Even after a failed read the frames stay reserved, with I/O in flight.
      ensures Pending(s, fill, 0) && (r.Ok? ==> HoldsOwnPage(s, fill, 0, |fill|))
      ensures OnlyReserved(old(s), s, fill) && Careful(crc, old(s), s, []) && s.table == old(s.table)
    {
      hide Inv, GhostInv, Pending, HoldsOwnPage, Shows, OnlyReserved, OnlyFrame, Careful;
      HoldsNone(s, fill);
      CarefulRefl(crc, s, []);
      ReservedStart(s, fill);
      var k := 0;
      while k < |fill|
        invariant 0 <= k <= |fill| && Undisturbed()
        invariant Pending(s, fill, 0) && HoldsOwnPage(s, fill, 0, k) && OnlyReserved(old(s), s, fill)
        invariant Careful(crc, old(s), s, []) && s.table == old(s.table)
      {
        var page := ReadPage(fill[k].1);
        if page.Err? {
          return Err(page.error);
        }
        PendingFilled(s, fill, k);
        ReservedStep(old(s), s, Filled(s, fill[k].0, page.value), fill, k);
        CarefulFilled(crc, s, fill, k, page.value);
        CarefulMore(crc, old(s), s, Filled(s, fill[k].0, page.value), []);
        s := Filled(s, fill[k].0, page.value);
        k := k + 1;
      }
      r := Ok(());
    }

    /** Publish the frames whose bytes are intact and carry the right page id; drop the others. */
    method PublishFilled(fill: seq<(FrameId, PageId)>)
      requires Valid() && Pending(s, fill, 0) && HoldsOwnPage(s, fill, 0, |fill|)
      modifies this`s
      ensures Undisturbed() && OnlyReserved(old(s), s, fill)
      ensures Settled(crc, s, fill, |fill|) && Joined(old(s), s, fill) && EntriesKept(old(s), s) && Careful(crc, old(s), s, [])
    {
      hide Inv, GhostInv, Pending, HoldsOwnPage, Shows, Published, Abandoned, OnlyReserved, OnlyFrame, Settled, Careful;
      hide DistinctFill, Joined, EntriesKept;
      ReservedStart(s, fill);
      SettledNone(crc, s, fill);
      CarefulRefl(crc, s, []);
      PendingDistinct(s, fill);
      var k := 0;
      while k < |fill|
        invariant 0 <= k <= |fill| && Undisturbed()
        invariant Pending(s, fill, k) && HoldsOwnPage(s, fill, k, |fill|) && OnlyReserved(old(s), s, fill)
        invariant Settled(crc, s, fill, k) && Joined(old(s), s, fill) && EntriesKept(old(s), s) && Careful(crc, old(s), s, [])
      {
        PendingPublished(s, fill, k);
        PendingAbandoned(s, fill, k);
        ReservedStep(old(s), s, Published(s, fill[k].0), fill, k);
        ReservedStep(old(s), s, Abandoned(s, fill[k].0), fill, k);
        var f, p := fill[k].0, fill[k].1;
        var bytes := s.frames[f].buf;
        ghost var before := s;
        CarefulPublished(crc, s, fill, k);
        if VerifyChecksum(crc, bytes) && bytes.body.pageId == p {
          SettledPublished(crc, old(s), s, fill, k);
          s := Published(s, f);
        } else {
          SettledAbandoned(crc, old(s), s, fill, k);
          s := Abandoned(s, f);
        }
        CarefulMore(crc, old(s), before, s, []);
        k := k + 1;
      }
    }

    /** Best-effort readahead of at most half the pool.  The pages that get a frame are mapped exactly if
        they are intact on disk and carry their own id.  A fault leaves the reserved frames reserved for
        good; no page is ever shown with bytes other than its own. */
    method PrefetchRange(start: PageId, count: nat)
      returns (r: Result<(), IoError>, ghost fill: seq<(FrameId, PageId)>, ghost upto: nat)
      requires Valid()
      modifies this`s, this`ioFailed, this`writeCount, this`ghostQueue, this`ghostSet, this`evictions, this`clockHand, this`readCount
      ensures Undisturbed() && BusyKept(old(s), s) && Vouched(crc, old(s), s)
      ensures JoinedWithin(old(s), s, start, count)
      ensures var half := if |old(s.frames)| / 2 > 1 then |old(s.frames)| / 2 else 1;
              var budget := if half < count then half else count;
              r.Ok? ==> && Chosen(old(s), fill, start, upto, budget) && upto <= count
                        && (upto < count && |fill| < budget ==> NoneEmpty(s, fill))
                        && Settled(crc, s, fill, |fill|) && Joined(old(s), s, fill) && Careful(crc, old(s), s, [])
    {
      hide Inv, GhostInv, Pending, HoldsOwnPage, Shows, BusyKept, WereIdle, OnlyReserved, Vouched, Settled, Chosen, NoneEmpty;
      hide Joined, EntriesKept;
      var half := if |s.frames| / 2 > 1 then |s.frames| / 2 else 1;
      var reserved, upto' := ReserveRange(start, count, if half < count then half else count);
      fill, upto := [], upto';
      if reserved.Err? {
        return Err(reserved.error), fill, upto;
      }
      fill := reserved.value;
      ghost var s1 := s;
      r := FillReserved(reserved.value);
      BusyAround(old(s), s1, s, fill);
      CarefulMore(crc, old(s), s1, s, fill);
      if r.Ok? {
        ghost var s2 := s;
        PublishFilled(reserved.value);
        BusyAround(old(s), s2, s, fill);
        CarefulSettled(crc, old(s), s2, s, fill);
        JoinedMore(old(s), s1, s2, s, fill);
        JoinedChosen(old(s), s, fill, start, upto, count, if half < count then half else count);
        if upto < count && |fill| < (if half < count then half else count) {
          NoneEmptyLater(s1, s2, s, fill);
        }
      }
    }

    /** The miss path once frame `f` is free: reserve, read, verify, then publish or give up. */
    method LoadPage(page: PageId, f: FrameId) returns (r: Result<PageGuard, IoError>)
      requires Valid() && page != 0 && page !in s.table && f < |s.frames| && s.frames[f].state == Empty
      modifies this`s, this`readCount, this`nextGuard
      ensures Valid() && Shows(s) == old(Shows(s)) && s.unflagged == old(s.unflagged)
      ensures Frozen(old(s), s) && BusyKept(old(s), s) && Vouched(crc, old(s), s)
      ensures r.Ok? ==> r.value !in old(s.guards) && s.guards == old(s.guards) + {r.value}
                        && r.value.pageId == page && page in Shows(s)
      ensures r.Err? ==> s.guards == old(s.guards) && r.error != WouldBlock && r.error != InvalidInput
      ensures r.Ok? <==> readFate(old(readCount)) == ReadOk && page in old(s.disk) && VerifyChecksum(crc, old(s.disk)[page])
      ensures r == Err(InvalidData) ==> page in old(s.disk) && !VerifyChecksum(crc, old(s.disk)[page])
      ensures r.Ok? ==> s.table == old(s.table)[page := f] && r.value.frameId == f && page in old(s.disk) && f < |s.frames|
                        && JustLoaded(s.frames[f], page, old(s.disk)[page])
      ensures r.Err? ==> s.table == old(s.table)
    {
      hide Inv, GhostInv, Shows, Loaded, Abandoned, BusyKept, Vouched;
      ReadInKeeps(s, f, page);
      CarefulLoad(crc, s, f, page, PageGuard(nextGuard, f, page));
      var bytes := ReadPage(page);
      if bytes.Err? {
        s := Abandoned(Reserved(s, f, page), f);
        return Err(bytes.error);
      }
      if !VerifyChecksum(crc, bytes.value) {
        s := Abandoned(ReadIn(s, f, page), f);
        return Err(InvalidData);
      }
      var g := PageGuard(nextGuard, f, page);
      LoadedKeeps(s, f, page, g);
      s := Loaded(s, f, page, g);
      nextGuard := nextGuard + 1;
      r := Ok(g);
    }

    /** The hit path: one more pin on the frame that holds `page`. */
    method PinResident(page: PageId) returns (g: PageGuard)
      requires Valid() && page in s.table && s.frames[s.table[page]].pinCount + 1 != PIN_MODULUS
      modifies this`s, this`nextGuard, this`hits
      ensures Valid() && Shows(s) == old(Shows(s)) && page in Shows(s) && Frozen(old(s), s)
      ensures g == PageGuard(old(nextGuard), old(s.table)[page], page)
      ensures var f := old(s.table)[page];
              f < |old(s.frames)| && var fr := old(s.frames)[f];
              s.frames == old(s.frames)[f := fr.(pinCount := fr.pinCount + 1, clockRef := true)] && s.table == old(s.table)
      ensures g !in old(s.guards) && g.pageId == page && g.frameId == old(s.table)[page] && g.frameId < |old(s.frames)| && s == Pinned(old(s), g)
      ensures s.guards == old(s.guards) + {g} && s.unflagged == old(s.unflagged) && hits == old(hits) + 1
    {
      hide Inv, GhostInv;
      g := PageGuard(nextGuard, s.table[page], page);
      PinnedKeeps(s, g);
      s := Pinned(s, g);
      nextGuard := nextGuard + 1;
      hits := hits + 1;
    }

    /** The miss path: find a frame, load the page, forget it was a ghost. */
    method MissPage(page: PageId) returns (r: Result<PageGuard, IoError>)
      requires Valid() && page != 0 && page !in s.table
      modifies this
      ensures Valid() && Shows(s) == old(Shows(s)) && s.unflagged == old(s.unflagged)
      ensures r.Ok? ==> r.value !in old(s.guards) && s.guards == old(s.guards) + {r.value}
                        && r.value.pageId == page && page in Shows(s)
      ensures r.Err? ==> s.guards == old(s.guards) && r.error != InvalidInput
      ensures hits == old(hits) && misses == old(misses) + 1
      ensures (old(FaultFree()) && page in old(s.disk) && VerifyChecksum(crc, old(s.disk)[page])
               && readFate(old(readCount)) == ReadOk
               && exists f | 0 <= f < old(|s.frames|) :: old(s.frames)[f].Reclaimable())
              ==> r.Ok?
      ensures r == Err(WouldBlock) ==> forall f | 0 <= f < old(|s.frames|) :: !old(s.frames)[f].Reclaimable()
      ensures old(ioFailed) ==> ioFailed && Frozen(old(s), s)
      ensures BusyKept(old(s), s) && Vouched(crc, old(s), s) && s.table.Keys <= old(s.table.Keys) + {page}
    {
      hide Inv, GhostInv, Shows, View, BusyKept, Vouched, JustLoaded, AbsentSame, Frozen;
      misses := misses + 1;
      var frame, _ := FindFreeFrame();
      if frame.Err? {
        return Err(frame.error);
      }
      ghost var before := s;
      AbsentAt(old(s), s, page);
      r := LoadPage(page, frame.value);
      if old(ioFailed) {
        FrozenMore(old(s), before, s);
      }
      BusyMore(old(s), before, s);
      VouchedMore(crc, old(s), before, s);
      if r.Ok? {
        PromoteGhost(page);
      }
    }

    /** `fix_page`: a guard that shows the page's current bytes.  `readahead` is what the
        per-thread access tracker asks to prefetch. */
    method FixPage(page: PageId, readahead: Option<PageId>) returns (r: Result<PageGuard, IoError>)
      requires Valid() && (page in s.table ==> s.frames[s.table[page]].pinCount + 1 != PIN_MODULUS)
      modifies this
      ensures Valid() && Shows(s) == old(Shows(s)) && s.unflagged == old(s.unflagged)
      ensures r.Ok? ==> r.value !in old(s.guards) && s.guards == old(s.guards) + {r.value}
                        && r.value.pageId == page && page in Shows(s)
      ensures r.Err? ==> s.guards == old(s.guards)
      ensures r == Err(InvalidInput) <==> page == 0
      ensures page != 0 ==> if old(page in s.table) then hits == old(hits) + 1 && misses == old(misses) else hits == old(hits) && misses == old(misses) + 1
      ensures page != 0 && old(page in s.table) ==> r.Ok?
      // A healthy pool with one reclaimable frame serves every intact page.
      ensures (old(FaultFree()) && page != 0 && page in old(s.disk) && VerifyChecksum(crc, old(s.disk)[page])
               && readFate(old(readCount)) == ReadOk
               && exists f | 0 <= f < old(|s.frames|) :: old(s.frames)[f].Reclaimable())
              ==> r.Ok?
      ensures r == Err(WouldBlock) ==> forall f | 0 <= f < old(|s.frames|) :: !old(s.frames)[f].Reclaimable()
      ensures old(ioFailed) ==> ioFailed && Frozen(old(s), s)
      // No page enters the table unless its checksum holds, by whatever path.
      ensures StuckKept(old(s), s) && Vouched(crc, old(s), s)
      // Nothing but the page, and on a miss what is read ahead, enters it.
      ensures forall p | p in s.table && p !in old(s.table) ::
                p == page || (readahead.Some? && readahead.value <= p < readahead.value + MAX_PREFETCH_PAGES)
    {
      hide Inv, GhostInv, Shows, BusyKept, StuckKept, Vouched;
      CarefulRefl(crc, s, []);
      BusyRefl(s);
      BusyIsStuck(s, s);
      if page == 0 {
        return Err(InvalidInput);
      }
      if page in s.table {
        PinnedStuck(s, PageGuard(nextGuard, s.table[page], page));
        CarefulPinned(crc, s, PageGuard(nextGuard, s.table[page], page));
        var g := PinResident(page);
        return Ok(g);
      }
      r := MissPage(page);
      if r.Ok? && readahead.Some? {
        ghost var before := s;
        var _, _, _ := PrefetchRange(readahead.value, MAX_PREFETCH_PAGES);
        BusyMore(old(s), before, s);
        VouchedMore(crc, old(s), before, s);
      }
      BusyIsStuck(old(s), s);
    }

    // -------------------------------------------------------------- flush-all and invalidate

    /** The dirty frames that a flush would write back, in order. */
    method DirtyCandidates() returns (out: seq<FrameId>)
      ensures forall f: FrameId :: f in out <==>
                f < |s.frames| && s.frames[f].state == Dirty && s.frames[f].Reclaimable()
      ensures forall i, j | 0 <= i < j < |out| :: out[i] < out[j]
    {
      out := [];
      for idx := 0 to |s.frames|
        invariant forall f: FrameId :: f in out <==>
                    f < idx && s.frames[f].state == Dirty && s.frames[f].Reclaimable()
        invariant forall i, j | 0 <= i < j < |out| :: out[i] < out[j]
      {
        assert forall i | 0 <= i < |out| :: out[i] in out;
        if s.frames[idx].state == Dirty && !s.frames[idx].IsPinned() && !s.frames[idx].ioInflight {
          out := out + [idx];
        }
      }
    }

    /** Write back every dirty frame that is neither pinned nor under I/O. */
    method FlushAll() returns (r: Result<(), IoError>)
      requires Valid()
      modifies this`s, this`ioFailed, this`writeCount
      ensures Undisturbed()
      ensures BusyKept(old(s), s)
      // `Ok` leaves a dirty page that nobody has pinned exactly where a frame was stuck with I/O in flight.
      ensures r.Ok? ==> forall f | 0 <= f < |s.frames| ::
                s.frames[f].state == Dirty && !s.frames[f].IsPinned() <==>
                old(s.frames)[f].state == Dirty && !old(s.frames)[f].IsPinned() && old(s.frames)[f].ioInflight
      ensures r.Ok? ==> forall f | 0 <= f < |s.frames| && old(s.frames)[f].IsPinned() :: s.frames[f] == old(s.frames)[f]
      ensures old(FaultFree()) ==> r.Ok?
    {
      hide Inv, GhostInv, Flushed, Shows, BusyKept, CleanedTo;
      var candidates := DirtyCandidates();
      BusyRefl(s);
      CleanedNone(s.frames, candidates);
      var k := 0;
      while k < |candidates|
        invariant 0 <= k <= |candidates| && Undisturbed() && BusyKept(old(s), s)
        invariant CleanedTo(old(s.frames), s.frames, candidates, k)
      {
        var f := candidates[k];
        assert f in candidates;
        InvShapes(s, f);
        CleanedNext(old(s.frames), s.frames, candidates, k);
        if Flushable(f) {
          FlushedKeeps(s, f, crc, writeFate(writeCount));
        } else {
          BusyRefl(s);
        }
        ghost var before := s;
        r := FlushSingleFrame(f);
        BusyMore(old(s), before, s);
        if r.Err? {
          return;
        }
        CleanedStep(old(s.frames), before.frames, s.frames, candidates, k);
        k := k + 1;
      }
      CleanedAll(old(s.frames), s.frames, candidates);
      r := Ok(());
    }

    /** Drop a freed page from the cache.  The source spins while I/O is in flight. */
    method Invalidate(page: PageId)
      requires Valid() && (page in s.table ==> s.frames[s.table[page]].Reclaimable())
      modifies this`s
      ensures Valid()
      ensures old(page !in s.table) ==> s == old(s)
      ensures old(page in s.table) ==> page !in s.table && old(s.table)[page] < |s.frames| && s.frames[old(s.table)[page]] == NEW_FRAME
      ensures old(page in s.table) ==> s == Invalidated(old(s), page)
                                       && Shows(s) == Reverted(old(Shows(s)), s.disk, page)
    {
      if page != 0 && page in s.table {
        InvalidatedKeeps(s, page);
        s := Invalidated(s, page);
      }
    }
  }

  /** The first `k` candidates are clean, and every other frame is as before. */
  ghost predicate CleanedTo(fs0: seq<Frame>, fs: seq<Frame>, candidates: seq<FrameId>, k: nat) {
    && |fs| == |fs0| && k <= |candidates|
    && (forall i | 0 <= i < k :: candidates[i] < |fs| && fs[candidates[i]].state == Clean)
    && (forall f | 0 <= f < |fs| :: fs[f].pinCount == fs0[f].pinCount)
    && (forall f | 0 <= f < |fs| && (forall i | 0 <= i < k :: candidates[i] != f) :: fs[f] == fs0[f])
  }

  lemma CleanedNone(fs: seq<Frame>, candidates: seq<FrameId>)
    ensures CleanedTo(fs, fs, candidates, 0)
  {
  }

  lemma CleanedNext(fs0: seq<Frame>, fs: seq<Frame>, candidates: seq<FrameId>, k: nat)
    requires CleanedTo(fs0, fs, candidates, k) && k < |candidates| && candidates[k] < |fs|
    requires forall i, j | 0 <= i < j < |candidates| :: candidates[i] < candidates[j]
    ensures fs[candidates[k]] == fs0[candidates[k]]
  {
  }

  lemma CleanedStep(fs0: seq<Frame>, fs: seq<Frame>, fs': seq<Frame>, candidates: seq<FrameId>, k: nat)
    requires CleanedTo(fs0, fs, candidates, k) && k < |candidates| && candidates[k] < |fs| == |fs'|
    requires forall i | 0 <= i < |fs| && i != candidates[k] :: fs'[i] == fs[i]
    requires fs'[candidates[k]].state == Clean && fs'[candidates[k]].pinCount == fs[candidates[k]].pinCount
    ensures CleanedTo(fs0, fs', candidates, k + 1)
  {
  }

  lemma CleanedAll(fs0: seq<Frame>, fs: seq<Frame>, candidates: seq<FrameId>)
    requires CleanedTo(fs0, fs, candidates, |candidates|)
    requires forall f: FrameId :: f in candidates <==> f < |fs0| && fs0[f].state == Dirty && fs0[f].Reclaimable()
    ensures forall f | 0 <= f < |fs| :: fs[f].state == Dirty && !fs[f].IsPinned() <==>
                                        fs0[f].state == Dirty && !fs0[f].IsPinned() && fs0[f].ioInflight
    ensures forall f | 0 <= f < |fs| && fs0[f].IsPinned() :: fs[f] == fs0[f]
  {
    forall f: FrameId | f < |fs| && f !in candidates ensures fs[f] == fs0[f] {
      assert forall i | 0 <= i < |candidates| :: candidates[i] in candidates;
    }
    assert forall f: FrameId | f in candidates :: exists i | 0 <= i < |candidates| :: candidates[i] == f;
  }

  /** How many steps the hand takes from `start` to reach `f`. */
  function Offset(start: nat, f: nat, count: nat): int {
    if f >= start then f - start else f + count - start
  }

  /** Where the hand is `k` steps after `start`, `k` up to two rounds. */
  function Nth(start: nat, k: nat, count: nat): int {
    if start + k < count then start + k
    else if start + k < 2 * count then start + k - count
    else start + k - 2 * count
  }

  /** After `k` steps of the hand: frames not yet reached are untouched; a reclaimable frame
      passed once was dirty and has lost its referenced bit; one passed twice is clean. */
  ghost predicate Swept(fs0: seq<Frame>, fs: seq<Frame>, start: nat, k: nat) {
    var n := |fs0|;
    && |fs| == n
    && (forall f | 0 <= f < n :: fs[f].Reclaimable() == fs0[f].Reclaimable())
    && (forall f | 0 <= f < n && Offset(start, f, n) >= k :: fs[f] == fs0[f])
    && (forall f | 0 <= f < n && !fs0[f].Reclaimable() :: fs[f] == fs0[f])
    && (forall f | 0 <= f < n && Offset(start, f, n) < k && fs[f].Reclaimable() ::
          !fs[f].clockRef && fs0[f].state == Dirty)
    && (forall f | 0 <= f < n && Offset(start, f, n) + n < k && fs[f].Reclaimable() :: fs[f].state == Clean)
  }

  lemma SweptStart(fs: seq<Frame>, start: nat)
    requires |fs| > 0 ==> start < |fs|
    ensures Swept(fs, fs, start, 0)
  {
  }

  lemma SweptStep(fs0: seq<Frame>, fs: seq<Frame>, fs': seq<Frame>, start: nat, k: nat)
    requires Swept(fs0, fs, start, k) && start < |fs0| && k < 2 * |fs0| && |fs'| == |fs|
    requires var idx := Nth(start, k, |fs0|);
             && (forall i | 0 <= i < |fs| && i != idx :: fs'[i] == fs[i])
             && fs'[idx].Reclaimable() == fs[idx].Reclaimable()
             && (if fs[idx].Reclaimable()
                 then !fs'[idx].clockRef && fs[idx].state == Dirty
                      && fs'[idx].state == (if fs[idx].clockRef then Dirty else Clean)
                 else fs'[idx] == fs[idx])
    ensures Swept(fs0, fs', start, k + 1)
  {
  }

  lemma SweptOthers(fs0: seq<Frame>, fs: seq<Frame>, fs': seq<Frame>, start: nat, k: nat)
    requires Swept(fs0, fs, start, k) && start < |fs0| && k < 2 * |fs0| && |fs'| == |fs|
    requires var idx := Nth(start, k, |fs0|);
             && fs[idx].Reclaimable()
             && (forall i | 0 <= i < |fs| && i != idx :: fs'[i] == fs[i])
    ensures forall f | 0 <= f < |fs0| && !fs0[f].Reclaimable() :: fs'[f] == fs0[f]
  {
  }

  lemma SweptEnd(fs0: seq<Frame>, fs: seq<Frame>, start: nat)
    requires Swept(fs0, fs, start, 2 * |fs0|) && (|fs0| > 0 ==> start < |fs0|)
    ensures |fs| == |fs0|
    ensures forall f | 0 <= f < |fs| && !fs0[f].Reclaimable() :: fs[f] == fs0[f]
    ensures forall f | 0 <= f < |fs| :: fs[f].Reclaimable() == fs0[f].Reclaimable()
    ensures forall f | 0 <= f < |fs| && fs[f].Reclaimable() :: fs[f].state == Clean && fs0[f].state == Dirty
  {
  }

  /** `retain(|q| *q != p)` */
  function Without(queue: seq<PageId>, p: PageId): (r: seq<PageId>)
  {
    if queue == [] then []
    else (if queue[0] == p then [] else [queue[0]]) + Without(queue[1..], p)
  }

  lemma {:induction false} WithoutIs(queue: seq<PageId>, p: PageId)
    ensures |Without(queue, p)| <= |queue|
    ensures forall q :: q in Without(queue, p) <==> q in queue && q != p
    ensures (forall i, j | 0 <= i < j < |queue| :: queue[i] != queue[j]) ==>
              var r := Without(queue, p); forall i, j | 0 <= i < j < |r| :: r[i] != r[j]
    ensures p !in queue ==> Without(queue, p) == queue
  {
    if queue != [] {
      var r, t := Without(queue, p), Without(queue[1..], p);
      WithoutIs(queue[1..], p);
      assert queue == [queue[0]] + queue[1..];
      assert forall q :: q in r <==> (q == queue[0] && q != p) || q in t;
      assert forall q :: q in queue <==> q == queue[0] || q in queue[1..];
      if forall i, j | 0 <= i < j < |queue| :: queue[i] != queue[j] {
        assert queue[0] !in queue[1..];
        assert forall i, j | 0 <= i < j < |queue[1..]| :: queue[1..][i] != queue[1..][j];
        if queue[0] != p {
          assert r == [queue[0]] + t;
        }
      }
    }
  }
}
