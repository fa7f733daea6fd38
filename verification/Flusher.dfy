/** The batch flusher (src/buffer/flusher.rs): claim, sort, stage, write in extents, settle. */
module Flusher {
  import opened Frames
  import opened PoolState
  import opened Pool
  import opened FlushSteps

  datatype ExtentResult = Written | WriteFailed | SyncFailed | Refused

  /** What became of the extent `pending[from..to]`. */
  datatype Extent = Extent(from: nat, to: nat, result: ExtentResult)

  ghost function Fids(pend: seq<Pending>): set<FrameId> {
    set i | 0 <= i < |pend| :: pend[i].fid
  }

  // ---------------------------------------------------------------- sorting

  function InsertByPage(p: Pending, pend: seq<Pending>): seq<Pending> {
    if pend == [] || p.page <= pend[0].page then [p] + pend
    else [pend[0]] + InsertByPage(p, pend[1..])
  }

  /** A stable sort by page id. */
  function SortByPage(pend: seq<Pending>): seq<Pending> {
    if pend == [] then [] else InsertByPage(pend[0], SortByPage(pend[1..]))
  }

  lemma {:induction false} InsertByPageElems(p: Pending, pend: seq<Pending>)
    ensures multiset(InsertByPage(p, pend)) == multiset(pend) + multiset{p} && |InsertByPage(p, pend)| == |pend| + 1
  {
    if !(pend == [] || p.page <= pend[0].page) {
      InsertByPageElems(p, pend[1..]);
      assert pend == [pend[0]] + pend[1..];
    }
  }

  lemma {:induction false} InsertByPageIs(p: Pending, pend: seq<Pending>)
    requires Ascending(pend) && forall q | q in pend :: q.page != p.page
    ensures Ascending(InsertByPage(p, pend))
  {
    if !(pend == [] || p.page <= pend[0].page) {
      InsertByPageIs(p, pend[1..]);
      InsertByPageElems(p, pend[1..]);
      var r := InsertByPage(p, pend[1..]);
      forall i | 0 <= i < |r| ensures pend[0].page < r[i].page {
        assert r[i] in multiset(r);
        assert r[i] in pend[1..] || r[i] == p;
      }
    }
  }

  lemma {:induction false} SortByPageElems(pend: seq<Pending>)
    ensures multiset(SortByPage(pend)) == multiset(pend) && |SortByPage(pend)| == |pend|
  {
    if pend != [] {
      SortByPageElems(pend[1..]);
      InsertByPageElems(pend[0], SortByPage(pend[1..]));
      assert pend == [pend[0]] + pend[1..];
    }
  }

  lemma {:induction false} SortByPageIs(pend: seq<Pending>)
    ensures multiset(SortByPage(pend)) == multiset(pend) && |SortByPage(pend)| == |pend|
    ensures (forall i, j | 0 <= i < j < |pend| :: pend[i].page != pend[j].page) ==> Ascending(SortByPage(pend))
  {
    SortByPageElems(pend);
    if pend != [] && forall i, j | 0 <= i < j < |pend| :: pend[i].page != pend[j].page {
      var r := SortByPage(pend[1..]);
      SortByPageIs(pend[1..]);
      forall q | q in r ensures q.page != pend[0].page {
        assert q in multiset(r);
        assert q in pend[1..];
      }
      InsertByPageIs(pend[0], r);
    }
  }

  // ---------------------------------------------------------------- phases

  /** Frame `f` of the batch is claimed; the others are as in `o`. */
  ghost predicate ClaimedFrom(o: seq<Frame>, s: Core, pend: seq<Pending>) {
    && |s.frames| == |o|
    && (forall f | 0 <= f < |o| && f !in Fids(pend) :: s.frames[f] == o[f])
    && (forall i | 0 <= i < |pend| :: pend[i].fid < |o| && s.frames[pend[i].fid] == o[pend[i].fid].(ioInflight := true))
  }

  lemma FidsAppend(pend: seq<Pending>, p: Pending)
    ensures Fids(pend + [p]) == Fids(pend) + {p.fid}
  {
    var q := pend + [p];
    forall f | f in Fids(pend) + {p.fid} ensures f in Fids(q) {
      if f in Fids(pend) {
        var i :| 0 <= i < |pend| && pend[i].fid == f;
        assert q[i].fid == f;
      } else {
        assert q[|pend|].fid == f;
      }
    }
  }

  /** The candidates seen so far that were eligible are the ones claimed. */
  ghost predicate ClaimsExactly(o: seq<Frame>, seen: seq<FrameId>, durable: nat, pend: seq<Pending>) {
    forall f: FrameId :: f in Fids(pend) <==> f in seen && f < |o| && Eligible(o[f], durable)
  }

  /** Claim every eligible candidate. */
  method ClaimPending(pool: BufferPool, candidates: seq<FrameId>, durable: nat) returns (pending: seq<Pending>)
    requires pool.Valid() && forall c | c in candidates :: c < |pool.s.frames|
    modifies pool`s
    ensures pool.Undisturbed() && pool.s.disk == old(pool.s.disk)
    ensures Held(pool.s, pending) && ClaimedFrom(old(pool.s.frames), pool.s, pending)
    ensures forall i, j | 0 <= i < j < |pending| :: pending[i].page != pending[j].page
    ensures ClaimsExactly(old(pool.s.frames), candidates, durable, pending)
  {
    hide Inv, GhostInv, Shows, Held, ClaimedFrom, Fids, ClaimsExactly;
    pending := [];
    ghost var o := pool.s.frames;
    ClaimNone(pool.s, durable);
    var k := 0;
    while k < |candidates|
      invariant 0 <= k <= |candidates|
      invariant pool.Undisturbed() && pool.s.disk == old(pool.s.disk)
      invariant Held(pool.s, pending) && ClaimedFrom(o, pool.s, pending)
      invariant forall i, j | 0 <= i < j < |pending| :: pending[i].page != pending[j].page
      invariant ClaimsExactly(o, candidates[..k], durable, pending)
    {
      var fid := candidates[k];
      assert fid in candidates;
      var fr := pool.s.frames[fid];
      assert candidates[..k + 1] == candidates[..k] + [fid];
      k := k + 1;
      if fr.pageId == 0 || (fr.recLsn != NO_LSN && fr.recLsn > durable) || fr.ioInflight || fr.IsPinned() {
        PassStep(o, pool.s, candidates[..k - 1], durable, pending, fid);
        continue;
      }
      ClaimStep(o, pool.s, candidates[..k - 1], durable, pending, fid);
      pool.s := Reflagged(pool.s, fid, fr.(ioInflight := true));
      pending := pending + [Pending(fid, fr.pageId)];
    }
    assert candidates[..k] == candidates;
  }

  lemma ClaimNone(s: Core, durable: nat)
    ensures Held(s, []) && ClaimedFrom(s.frames, s, []) && ClaimsExactly(s.frames, [], durable, [])
  {
  }

  lemma PassStep(o: seq<Frame>, s: Core, seen: seq<FrameId>, durable: nat, pend: seq<Pending>, f: FrameId)
    requires ClaimedFrom(o, s, pend) && ClaimsExactly(o, seen, durable, pend)
    requires f < |s.frames| && !Eligible(s.frames[f], durable)
    ensures ClaimsExactly(o, seen + [f], durable, pend)
  {
  }

  lemma ClaimStep(o: seq<Frame>, s: Core, seen: seq<FrameId>, durable: nat, pend: seq<Pending>, f: FrameId)
    requires Inv(s) && Held(s, pend) && ClaimedFrom(o, s, pend) && ClaimsExactly(o, seen, durable, pend)
    requires f < |s.frames| && Eligible(s.frames[f], durable)
    ensures var fr := s.frames[f]; var s' := Reflagged(s, f, fr.(ioInflight := true));
            var pend' := pend + [Pending(f, fr.pageId)];
            Inv(s') && Shows(s') == Shows(s) && Frozen(s, s')
            && Held(s', pend') && ClaimedFrom(o, s', pend') && ClaimsExactly(o, seen + [f], durable, pend')
            && forall i | 0 <= i < |pend| :: pend[i].page != fr.pageId
  {
    assert Shaped(s.frames[f]);
    ReflaggedKeeps(s, f, s.frames[f].(ioInflight := true));
    ClaimBooked(o, s, seen, durable, pend, f);
  }

  lemma ClaimBooked(o: seq<Frame>, s: Core, seen: seq<FrameId>, durable: nat, pend: seq<Pending>, f: FrameId)
    requires Held(s, pend) && ClaimedFrom(o, s, pend) && ClaimsExactly(o, seen, durable, pend)
    requires f < |s.frames| && Eligible(s.frames[f], durable)
    ensures var fr := s.frames[f]; var s' := Reflagged(s, f, fr.(ioInflight := true));
            var pend' := pend + [Pending(f, fr.pageId)];
            ClaimedFrom(o, s', pend') && ClaimsExactly(o, seen + [f], durable, pend')
  {
    FidsAppend(pend, Pending(f, s.frames[f].pageId));
    assert f !in Fids(pend);
  }

  /** The order of the batch does not matter to its claims. */
  lemma ClaimsSorted(o: seq<Frame>, s: Core, seen: seq<FrameId>, durable: nat, pend: seq<Pending>)
    requires Held(s, pend) && ClaimedFrom(o, s, pend) && ClaimsExactly(o, seen, durable, pend)
    requires forall i, j | 0 <= i < j < |pend| :: pend[i].page != pend[j].page
    ensures var r := SortByPage(pend);
            |r| == |pend| && Ascending(r) && Held(s, r) && ClaimedFrom(o, s, r) && ClaimsExactly(o, seen, durable, r)
  {
    var r := SortByPage(pend);
    SortByPageIs(pend);
    hide SortByPage, Ascending;
    SameEntries(pend, r);
    SameFids(pend, r);
    HeldSame(s, pend, r);
    hide Held, Fids;
  }

  lemma SameEntries(pend: seq<Pending>, r: seq<Pending>)
    requires multiset(r) == multiset(pend)
    ensures |r| == |pend| && forall q :: q in r <==> q in pend
  {
    assert |multiset(r)| == |r| && |multiset(pend)| == |pend|;
    forall q ensures q in r <==> q in pend {
      assert q in multiset(r) <==> q in multiset(pend);
    }
  }

  lemma SameFids(pend: seq<Pending>, r: seq<Pending>)
    requires forall q :: q in r <==> q in pend
    ensures Fids(r) == Fids(pend)
  {
    forall f ensures f in Fids(r) <==> f in Fids(pend) {
      if f in Fids(r) {
        var i :| 0 <= i < |r| && r[i].fid == f;
        assert r[i] in pend;
        var j :| 0 <= j < |pend| && pend[j] == r[i];
      }
      if f in Fids(pend) {
        var j :| 0 <= j < |pend| && pend[j].fid == f;
        assert pend[j] in r;
        var i :| 0 <= i < |r| && r[i] == pend[j];
      }
    }
  }

  lemma HeldSame(s: Core, pend: seq<Pending>, r: seq<Pending>)
    requires Held(s, pend) && forall q :: q in r <==> q in pend
    ensures Held(s, r)
  {
    forall i | 0 <= i < |r|
      ensures exists j :: 0 <= j < |pend| && pend[j] == r[i]
    {
      assert r[i] in r;
    }
  }

  // ---------------------------------------------------------------- checksums

  /** The frames of `ext[..k]` have a fresh checksum; the others are as in `o`. */
  ghost predicate RefreshedFrom(o: seq<Frame>, fs: seq<Frame>, ext: seq<Pending>, k: nat, crc: Body -> nat) {
    && |fs| == |o| && k <= |ext|
    && (forall i | 0 <= i < k :: ext[i].fid < |o| && fs[ext[i].fid] == Refreshed(o[ext[i].fid], crc))
    && (forall f | 0 <= f < |o| && (forall i | 0 <= i < k :: ext[i].fid != f) :: fs[f] == o[f])
  }

  method RefreshChecksums(pool: BufferPool, ext: seq<Pending>)
    requires pool.Valid() && Held(pool.s, ext) && Ascending(ext)
    modifies pool`s
    ensures pool.Undisturbed() && pool.s == old(pool.s).(frames := pool.s.frames) && Held(pool.s, ext)
    ensures RefreshedFrom(old(pool.s.frames), pool.s.frames, ext, |ext|, pool.crc)
  {
    hide Inv, GhostInv, Shows, Held, RefreshedFrom, Ascending;
    RefreshNone(pool.s.frames, ext, pool.crc);
    var k := 0;
    while k < |ext|
      invariant 0 <= k <= |ext| && pool.Undisturbed() && Held(pool.s, ext)
      invariant pool.s == old(pool.s).(frames := pool.s.frames)
      invariant RefreshedFrom(old(pool.s.frames), pool.s.frames, ext, k, pool.crc)
    {
      RefreshStep(old(pool.s.frames), pool.s, ext, k, pool.crc);
      var f := ext[k].fid;
      pool.s := Reflagged(pool.s, f, Refreshed(pool.s.frames[f], pool.crc));
      k := k + 1;
    }
  }

  lemma RefreshNone(o: seq<Frame>, ext: seq<Pending>, crc: Body -> nat)
    ensures RefreshedFrom(o, o, ext, 0, crc)
  {
  }

  lemma RefreshStep(o: seq<Frame>, s: Core, ext: seq<Pending>, k: nat, crc: Body -> nat)
    requires Inv(s) && Held(s, ext) && Ascending(ext) && k < |ext| && RefreshedFrom(o, s.frames, ext, k, crc)
    ensures ext[k].fid < |s.frames|
    ensures var s' := Reflagged(s, ext[k].fid, Refreshed(s.frames[ext[k].fid], crc));
            Inv(s') && Shows(s') == Shows(s) && Frozen(s, s') && Held(s', ext)
            && RefreshedFrom(o, s'.frames, ext, k + 1, crc)
  {
    var f := ext[k].fid;
    ReflaggedKeeps(s, f, Refreshed(s.frames[f], crc));
    RefreshBooked(o, s, ext, k, crc);
  }

  lemma RefreshBooked(o: seq<Frame>, s: Core, ext: seq<Pending>, k: nat, crc: Body -> nat)
    requires Held(s, ext) && Ascending(ext) && k < |ext| && RefreshedFrom(o, s.frames, ext, k, crc)
    ensures var s' := Reflagged(s, ext[k].fid, Refreshed(s.frames[ext[k].fid], crc));
            RefreshedFrom(o, s'.frames, ext, k + 1, crc)
  {
    assert forall i | 0 <= i < k :: ext[i].page < ext[k].page && ext[i].fid != ext[k].fid;
  }

  // ---------------------------------------------------------------- writing an extent

  function Bufs(fs: seq<Frame>, ext: seq<Pending>): (r: seq<Page>)
    requires forall i | 0 <= i < |ext| :: ext[i].fid < |fs|
    ensures |r| == |ext|
  {
    seq(|ext|, i requires 0 <= i < |ext| => fs[ext[i].fid].buf)
  }

  /** Every page of the extent is on disk as its frame has it. */
  ghost predicate OnDisk(s: Core, ext: seq<Pending>) {
    forall i | 0 <= i < |ext| ::
      ext[i].fid < |s.frames| && ext[i].page in s.disk && s.disk[ext[i].page] == s.frames[ext[i].fid].buf
  }

  /** Pages outside the batch are untouched on disk. */
  ghost predicate DiskSameOff(disk: map<PageId, Page>, disk': map<PageId, Page>, ext: seq<Pending>) {
    forall p | forall i | 0 <= i < |ext| :: ext[i].page != p ::
      (p in disk' <==> p in disk) && (p in disk ==> disk'[p] == disk[p])
  }

  lemma ExtentPut(s: Core, ext: seq<Pending>, pages: seq<Page>)
    requires Inv(s) && Held(s, ext) && Ascending(ext) && |pages| == |ext|
    requires forall i | 0 <= i < |ext| :: s.frames[ext[i].fid].state == Clean ==> pages[i].body == s.frames[ext[i].fid].buf.body
    ensures var s' := s.(disk := PutPages(s.disk, ext, pages));
            Inv(s') && Shows(s') == Shows(s) && Held(s', ext) && DiskSameOff(s.disk, s'.disk, ext)
            && (pages == Bufs(s.frames, ext) ==> OnDisk(s', ext))
  {
    PutPagesKeeps(s, ext, pages);
    PutPagesAt(s.disk, ext, pages);
  }

  lemma ExtentLeft(s: Core, ext: seq<Pending>, left: PageId -> Page)
    requires Inv(s) && Held(s, ext) && Ascending(ext)
    ensures var s' := s.(disk := PutPages(s.disk, ext, LeftPages(s.disk, ext, Bufs(s.frames, ext), left)));
            Inv(s') && Shows(s') == Shows(s) && Held(s', ext) && DiskSameOff(s.disk, s'.disk, ext)
  {
    var pages := Bufs(s.frames, ext);
    LeftPagesClean(s, ext, pages, left);
    ExtentPut(s, ext, LeftPages(s.disk, ext, pages, left));
  }

  /** Write one extent of consecutive pages with a single vectored write, then sync. */
  method WriteExtent(pool: BufferPool, ext: seq<Pending>) returns (r: ExtentResult)
    requires pool.Valid() && ext != [] && Held(pool.s, ext) && Ascending(ext) && Consecutive(ext)
    modifies pool`s, pool`ioFailed, pool`writeCount
    ensures pool.Undisturbed() && Held(pool.s, ext)
    ensures pool.s == old(pool.s).(frames := pool.s.frames, disk := pool.s.disk)
    ensures r == Refused <==> old(pool.ioFailed)
    ensures r == Refused ==> pool.s == old(pool.s)
    ensures r != Refused ==> RefreshedFrom(old(pool.s.frames), pool.s.frames, ext, |ext|, pool.crc)
    ensures DiskSameOff(old(pool.s.disk), pool.s.disk, ext)
    ensures r == Written ==> OnDisk(pool.s, ext)
    ensures pool.ioFailed <==> old(pool.ioFailed) || r == SyncFailed
    ensures old(pool.FaultFree()) ==> r == Written
  {
    hide Inv, GhostInv, Shows, Held, RefreshedFrom, Ascending, OnDisk, DiskSameOff, PutPages, Vectored, LeftPages, Consecutive;
    if pool.ioFailed {
      DiskSameRefl(pool.s.disk, ext);
      return Refused;
    }
    RefreshChecksums(pool, ext);
    HeldBounds(pool.s, ext);
    var slices := Bufs(pool.s.frames, ext);
    var fate := pool.writeFate(pool.writeCount);
    pool.writeCount := pool.writeCount + 1;
    match fate
    case WriteOk =>
      ExtentPut(pool.s, ext, slices);
      VectoredIsPerPage(pool.s.disk, ext, slices);
      pool.s := pool.s.(disk := Vectored(pool.s.disk, ext[0].page, slices));
      r := Written;
    case StageError =>
      DiskSameRefl(pool.s.disk, ext);
      r := WriteFailed;
    case WriteError(left) =>
      ExtentLeft(pool.s, ext, left);
      pool.s := pool.s.(disk := PutPages(pool.s.disk, ext, LeftPages(pool.s.disk, ext, slices, left)));
      r := WriteFailed;
    case SyncError(left) =>
      ExtentLeft(pool.s, ext, left);
      pool.s := pool.s.(disk := PutPages(pool.s.disk, ext, LeftPages(pool.s.disk, ext, slices, left)));
      pool.ioFailed := true;
      r := SyncFailed;
  }

  lemma DiskSameRefl(disk: map<PageId, Page>, ext: seq<Pending>)
    ensures DiskSameOff(disk, disk, ext)
  {
  }

  lemma HeldBounds(s: Core, ext: seq<Pending>)
    requires Held(s, ext)
    ensures forall i | 0 <= i < |ext| :: ext[i].fid < |s.frames|
  {
  }

  // ---------------------------------------------------------------- settling an extent

  /** A claimed frame after its extent: marked clean if it was written, otherwise only released. */
  function SettledFrame(fr: Frame, written: bool): Frame {
    if written then fr.(dirty := false, state := Clean, ioInflight := false, recLsn := NO_LSN)
    else fr.(ioInflight := false)
  }

  ghost predicate SettledFrom(o: seq<Frame>, fs: seq<Frame>, ext: seq<Pending>, k: nat, written: bool) {
    && |fs| == |o| && k <= |ext|
    && (forall i | 0 <= i < k :: ext[i].fid < |o| && fs[ext[i].fid] == SettledFrame(o[ext[i].fid], written))
    && (forall f | 0 <= f < |o| && (forall i | 0 <= i < k :: ext[i].fid != f) :: fs[f] == o[f])
  }

  method SettleExtent(pool: BufferPool, ext: seq<Pending>, written: bool)
    requires pool.Valid() && Held(pool.s, ext) && Ascending(ext)
    requires written ==> OnDisk(pool.s, ext) && !pool.ioFailed
    modifies pool`s
    ensures pool.Undisturbed()
    ensures pool.s == old(pool.s).(frames := pool.s.frames, lsns := pool.s.lsns)
    ensures SettledFrom(old(pool.s.frames), pool.s.frames, ext, |ext|, written)
  {
    hide Inv, GhostInv, Shows, Held, SettledFrom, Ascending, OnDisk;
    SettleNone(pool.s.frames, ext, written);
    EndsSame(ext);
    var k := 0;
    while k < |ext|
      invariant 0 <= k <= |ext| && pool.Undisturbed()
      invariant pool.s == old(pool.s).(frames := pool.s.frames, lsns := pool.s.lsns)
      invariant Held(pool.s, ext[k..]) && (written ==> OnDisk(pool.s, ext[k..]))
      invariant SettledFrom(old(pool.s.frames), pool.s.frames, ext, k, written)
    {
      SettleStep(old(pool.s.frames), pool.s, ext, k, written);
      var f := ext[k].fid;
      if written {
        pool.s := MarkedClean(pool.s, f);
      } else {
        pool.s := Reflagged(pool.s, f, pool.s.frames[f].(ioInflight := false));
      }
      k := k + 1;
    }
  }

  lemma EndsSame(ext: seq<Pending>)
    ensures ext[0..] == ext
  {
  }

  lemma SettleNone(o: seq<Frame>, ext: seq<Pending>, written: bool)
    ensures SettledFrom(o, o, ext, 0, written)
  {
  }

  lemma SettleStep(o: seq<Frame>, s: Core, ext: seq<Pending>, k: nat, written: bool)
    requires Inv(s) && Ascending(ext) && k < |ext| && SettledFrom(o, s.frames, ext, k, written)
    requires Held(s, ext[k..]) && (written ==> OnDisk(s, ext[k..]))
    ensures ext[k].fid < |s.frames| == |s.lsns|
    ensures var f := ext[k].fid;
            var s' := if written then MarkedClean(s, f) else Reflagged(s, f, s.frames[f].(ioInflight := false));
            Inv(s') && Shows(s') == Shows(s) && (!written ==> Frozen(s, s'))
            && Held(s', ext[k + 1..]) && (written ==> OnDisk(s', ext[k + 1..]))
            && SettledFrom(o, s'.frames, ext, k + 1, written)
  {
    var f := ext[k].fid;
    assert ext[k..][0] == ext[k];
    if written {
      MarkedCleanKeeps(s, f);
    } else {
      ReflaggedKeeps(s, f, s.frames[f].(ioInflight := false));
    }
    SettleRest(s, ext, k, SettledFrame(s.frames[f], written));
    SettleBooked(o, s, ext, k, written);
  }

  /** Settling one frame leaves the rest of the extent claimed and on disk. */
  lemma SettleRest(s: Core, ext: seq<Pending>, k: nat, fr: Frame)
    requires Ascending(ext) && k < |ext| && Held(s, ext[k..])
    ensures ext[k].fid < |s.frames|
    ensures forall s': Core | s'.frames == s.frames[ext[k].fid := fr] && s'.disk == s.disk ::
              Held(s', ext[k + 1..]) && (OnDisk(s, ext[k..]) ==> OnDisk(s', ext[k + 1..]))
  {
    assert ext[k..][0] == ext[k];
    var rest := ext[k + 1..];
    forall i | 0 <= i < |rest|
      ensures rest[i] in ext[k..] && rest[i].fid != ext[k].fid
    {
      assert rest[i] == ext[k..][i + 1];
    }
  }

  lemma SettleBooked(o: seq<Frame>, s: Core, ext: seq<Pending>, k: nat, written: bool)
    requires Ascending(ext) && k < |ext| && SettledFrom(o, s.frames, ext, k, written) && Held(s, ext[k..])
    requires |s.lsns| == |s.frames| && ext[k].fid < |s.frames|
    ensures var f := ext[k].fid;
            var s' := if written then MarkedClean(s, f) else Reflagged(s, f, s.frames[f].(ioInflight := false));
            SettledFrom(o, s'.frames, ext, k + 1, written)
  {
    assert ext[k..][0] == ext[k];
    forall i | 0 <= i < k ensures ext[i].fid != ext[k].fid {
      assert ext[i].page < ext[k].page;
    }
  }

  // ---------------------------------------------------------------- the batch

  /** `pend[from..to]` is one extent: consecutive pages, within the batch size, and as long as
      both allow. */
  ghost predicate IsExtent(pend: seq<Pending>, from: nat, to: nat) {
    && from < to <= |pend|
    && Consecutive(pend[from..to])
    && (to - from) * PAGE_SIZE <= MAX_BATCH_BYTES
    && (to == |pend| || pend[to].page != pend[to - 1].page + 1 || (to - from + 1) * PAGE_SIZE > MAX_BATCH_BYTES)
  }

  method GroupEnd(pend: seq<Pending>, from: nat) returns (to: nat)
    requires from < |pend|
    ensures IsExtent(pend, from, to)
  {
    to := from + 1;
    var bytes := PAGE_SIZE;
    while to < |pend| && pend[to].page == pend[to - 1].page + 1 && bytes + PAGE_SIZE <= MAX_BATCH_BYTES
      invariant from < to <= |pend| && bytes == (to - from) * PAGE_SIZE <= MAX_BATCH_BYTES
      invariant Consecutive(pend[from..to])
    {
      ConsecutiveAppend(pend, from, to);
      bytes := bytes + PAGE_SIZE;
      to := to + 1;
    }
  }

  lemma ConsecutiveAppend(pend: seq<Pending>, from: nat, to: nat)
    requires from < to < |pend| && Consecutive(pend[from..to]) && pend[to].page == pend[to - 1].page + 1
    ensures Consecutive(pend[from..to + 1])
  {
    var a, b := pend[from..to], pend[from..to + 1];
    assert forall i | 0 <= i < |a| :: b[i] == a[i];
    assert a[|a| - 1] == pend[to - 1];
  }

  /** The extents cover `pend[..k]` in order, without gap or overlap; once one fails to sync,
      every later one is refused. */
  ghost predicate Covers(pend: seq<Pending>, outs: seq<Extent>, k: nat) {
    && k <= |pend|
    && (forall e | 0 <= e < |outs| :: IsExtent(pend, outs[e].from, outs[e].to) && outs[e].to <= k)
    && (forall e | 0 <= e < |outs| :: outs[e].from == if e == 0 then 0 else outs[e - 1].to)
    && k == (if outs == [] then 0 else outs[|outs| - 1].to)
    && (forall e, e' | 0 <= e < e' < |outs| :: outs[e].result == SyncFailed ==> outs[e'].result == Refused)
  }

  /** Some extent failed to sync. */
  ghost predicate SyncLost(outs: seq<Extent>) {
    exists e | 0 <= e < |outs| :: outs[e].result == SyncFailed
  }

  /** The batch's entries are distinct frames, each holding its own page, unpinned and idle. */
  ghost predicate Owned(o: seq<Frame>, pend: seq<Pending>) {
    && (forall i | 0 <= i < |pend| ::
          var f := pend[i].fid;
          f < |o| && o[f].Resident() && o[f].pageId == pend[i].page && o[f].Reclaimable())
    && (forall i, j | 0 <= i < j < |pend| :: pend[i].fid != pend[j].fid)
  }

  /** Where the batch stands once its first `|written|` entries are settled: the written ones are
      clean and on disk, the others are as before (with a fresh checksum); the rest are still
      claimed, and frames outside the batch are untouched. */
  ghost predicate Stands(o: seq<Frame>, s: Core, pend: seq<Pending>, written: seq<bool>, crc: Body -> nat) {
    && |s.frames| == |o| && |written| <= |pend|
    && (forall i | 0 <= i < |pend| :: pend[i].fid < |o|)
    && (forall i | 0 <= i < |written| ::
          s.frames[pend[i].fid] == SettledFrame(Refreshed(o[pend[i].fid], crc), written[i]))
    && (forall i | 0 <= i < |written| && written[i] ::
          pend[i].page in s.disk && s.disk[pend[i].page] == UpdateChecksum(crc, o[pend[i].fid].buf))
    && (forall i | |written| <= i < |pend| ::
          s.frames[pend[i].fid] == Refreshed(o[pend[i].fid], crc).(ioInflight := true))
    && (forall f | 0 <= f < |o| && f !in Fids(pend) :: s.frames[f] == o[f])
  }

  lemma OwnedFrom(o: seq<Frame>, s: Core, seen: seq<FrameId>, durable: nat, pend: seq<Pending>)
    requires Held(s, pend) && ClaimedFrom(o, s, pend) && ClaimsExactly(o, seen, durable, pend) && Ascending(pend)
    ensures Owned(o, pend)
  {
    forall i | 0 <= i < |pend| ensures o[pend[i].fid].Reclaimable() {
      assert pend[i].fid in Fids(pend);
    }
  }

  lemma StandsStart(o: seq<Frame>, s: Core, s': Core, pend: seq<Pending>, crc: Body -> nat)
    requires ClaimedFrom(o, s, pend) && RefreshedFrom(s.frames, s'.frames, pend, |pend|, crc)
    ensures Stands(o, s', pend, [], crc)
  {
    forall f | 0 <= f < |o| && f !in Fids(pend)
      ensures s'.frames[f] == o[f]
    {
      assert forall i | 0 <= i < |pend| :: pend[i].fid in Fids(pend);
    }
  }

  /** The next entries are claimed, and refreshing their fresh checksums changes nothing. */
  lemma StandsNext(o: seq<Frame>, s: Core, pend: seq<Pending>, written: seq<bool>, to: nat, crc: Body -> nat)
    requires Owned(o, pend) && Stands(o, s, pend, written, crc) && |written| <= to <= |pend| && Ascending(pend)
    ensures var ext := pend[|written|..to];
            Held(s, ext) && Ascending(ext)
            && forall fs' | RefreshedFrom(s.frames, fs', ext, |ext|, crc) :: fs' == s.frames
  {
    var ext := pend[|written|..to];
    assert forall i | 0 <= i < |ext| :: ext[i] == pend[|written| + i];
    forall fs' | RefreshedFrom(s.frames, fs', ext, |ext|, crc)
      ensures fs' == s.frames
    {
      forall f | 0 <= f < |fs'| ensures fs'[f] == s.frames[f] {
        if i :| 0 <= i < |ext| && ext[i].fid == f {
          assert ext[i] == pend[|written| + i];
        }
      }
    }
  }

  /** `SettledFrom` for a slice of the batch, said of the batch's own indices. */
  lemma SettledSlice(fs: seq<Frame>, fs2: seq<Frame>, pend: seq<Pending>, k: nat, to: nat, ok: bool)
    requires k <= to <= |pend| && SettledFrom(fs, fs2, pend[k..to], to - k, ok)
    ensures |fs2| == |fs|
    ensures forall i | k <= i < to :: pend[i].fid < |fs| && fs2[pend[i].fid] == SettledFrame(fs[pend[i].fid], ok)
    ensures forall f | 0 <= f < |fs| && (forall i | k <= i < to :: pend[i].fid != f) :: fs2[f] == fs[f]
  {
    var ext := pend[k..to];
    assert forall i | k <= i < to :: pend[i] == ext[i - k];
    assert forall j | 0 <= j < |ext| :: ext[j] == pend[k + j];
  }

  /** Writing a slice of the batch leaves the earlier entries on disk, and puts its own there. */
  lemma DiskSlice(s: Core, disk: map<PageId, Page>, pend: seq<Pending>, k: nat, to: nat, ok: bool)
    requires k <= to <= |pend| && Ascending(pend) && DiskSameOff(s.disk, disk, pend[k..to])
    requires ok ==> OnDisk(s.(disk := disk), pend[k..to])
    ensures forall i | 0 <= i < k && pend[i].page in s.disk :: pend[i].page in disk && disk[pend[i].page] == s.disk[pend[i].page]
    ensures ok ==> forall i | k <= i < to :: pend[i].fid < |s.frames| && pend[i].page in disk && disk[pend[i].page] == s.frames[pend[i].fid].buf
  {
    var ext := pend[k..to];
    assert forall i | k <= i < to :: pend[i] == ext[i - k];
    assert forall j | 0 <= j < |ext| :: ext[j] == pend[k + j];
  }

  lemma StandsStep(o: seq<Frame>, s: Core, disk: map<PageId, Page>, s2: Core, pend: seq<Pending>,
                   written: seq<bool>, to: nat, ok: bool, crc: Body -> nat)
    requires Owned(o, pend) && Stands(o, s, pend, written, crc) && |written| <= to <= |pend| && Ascending(pend)
    requires DiskSameOff(s.disk, disk, pend[|written|..to])
    requires ok ==> OnDisk(s.(disk := disk), pend[|written|..to])
    requires SettledFrom(s.frames, s2.frames, pend[|written|..to], to - |written|, ok) && s2.disk == disk
    ensures Stands(o, s2, pend, written + Repeat(ok, to - |written|), crc)
  {
    hide SettledFrom, OnDisk, DiskSameOff, Ascending;
    var k := |written|;
    SettledSlice(s.frames, s2.frames, pend, k, to, ok);
    DiskSlice(s, disk, pend, k, to, ok);
    forall i | 0 <= i < |pend| && !(k <= i < to)
      ensures s2.frames[pend[i].fid] == s.frames[pend[i].fid]
    {
      forall j | k <= j < to ensures pend[j].fid != pend[i].fid {
        assert i < j || j < i;
      }
    }
    forall f | 0 <= f < |o| && f !in Fids(pend)
      ensures s2.frames[f] == o[f]
    {
      assert forall j | k <= j < to :: pend[j].fid in Fids(pend);
    }
  }

  function Repeat(b: bool, n: nat): (r: seq<bool>)
    ensures |r| == n && forall i | 0 <= i < n :: r[i] == b
  {
    seq(n, _ => b)
  }

  /** Each entry's flag is its extent's result. */
  ghost predicate Tells(outs: seq<Extent>, written: seq<bool>) {
    forall e, i | 0 <= e < |outs| && outs[e].from <= i < outs[e].to && i < |written| ::
      written[i] == (outs[e].result == Written)
  }

  lemma CoversStep(pend: seq<Pending>, outs: seq<Extent>, written: seq<bool>, to: nat, r: ExtentResult)
    requires Covers(pend, outs, |written|) && Tells(outs, written) && IsExtent(pend, |written|, to)
    requires SyncLost(outs) ==> r == Refused
    ensures var outs' := outs + [Extent(|written|, to, r)];
            Covers(pend, outs', to) && Tells(outs', written + Repeat(r == Written, to - |written|))
  {
    var outs' := outs + [Extent(|written|, to, r)];
    assert Covers(pend, outs', to) by {
      hide IsExtent, Tells;
      assert forall e | 0 <= e < |outs| :: outs'[e] == outs[e];
      forall e, e' | 0 <= e < e' < |outs'| && outs'[e].result == SyncFailed ensures outs'[e'].result == Refused {
        assert outs[e].result == SyncFailed;
      }
    }
    hide Covers, IsExtent;
    EndsWithin(pend, outs, |written|);
    TellsMore(outs, written, to, r);
  }

  lemma EndsWithin(pend: seq<Pending>, outs: seq<Extent>, k: nat)
    requires Covers(pend, outs, k)
    ensures forall e | 0 <= e < |outs| :: outs[e].to <= k
  {
  }

  lemma TellsMore(outs: seq<Extent>, written: seq<bool>, to: nat, r: ExtentResult)
    requires Tells(outs, written) && |written| <= to && forall e | 0 <= e < |outs| :: outs[e].to <= |written|
    ensures Tells(outs + [Extent(|written|, to, r)], written + Repeat(r == Written, to - |written|))
  {
  }

  /** Write the sorted batch extent by extent. */
  method WriteExtents(pool: BufferPool, pend: seq<Pending>, ghost o: seq<Frame>)
    returns (outs: seq<Extent>, ghost written: seq<bool>)
    requires pool.Valid() && !pool.ioFailed
    requires Owned(o, pend) && Ascending(pend) && Stands(o, pool.s, pend, [], pool.crc)
    modifies pool`s, pool`ioFailed, pool`writeCount
    ensures pool.Undisturbed()
    ensures |written| == |pend| && Covers(pend, outs, |pend|) && Tells(outs, written)
    ensures Stands(o, pool.s, pend, written, pool.crc) && DiskSameOff(old(pool.s.disk), pool.s.disk, pend)
    ensures pool.ioFailed <==> SyncLost(outs)
    ensures old(pool.FaultFree()) ==> forall i | 0 <= i < |written| :: written[i]
  {
    hide Inv, GhostInv, Shows, Held, Owned, Ascending, Stands, Covers, Tells, OnDisk, DiskSameOff, SettledFrom, RefreshedFrom, IsExtent, SyncLost;
    outs, written := [], [];
    CoversNone(pend);
    DiskSameRefl(pool.s.disk, pend);
    var from := 0;
    while from < |pend|
      invariant |written| == from <= |pend| && pool.Undisturbed()
      invariant Covers(pend, outs, from) && Tells(outs, written) && Stands(o, pool.s, pend, written, pool.crc)
      invariant DiskSameOff(old(pool.s.disk), pool.s.disk, pend)
      invariant pool.ioFailed <==> SyncLost(outs)
      invariant old(pool.FaultFree()) ==> forall i | 0 <= i < |written| :: written[i]
      decreases |pend| - from
    {
      var to := GroupEnd(pend, from);
      ExtentShape(pend, from, to);
      StandsNext(o, pool.s, pend, written, to, pool.crc);
      ghost var s := pool.s;
      var ext := pend[from..to];
      var r := WriteExtent(pool, ext);
      assert pool.s.frames == s.frames;
      ghost var disk := pool.s.disk;
      DiskSameMore(old(pool.s.disk), s.disk, disk, pend, from, to);
      SettleExtent(pool, ext, r == Written);
      StandsStep(o, s, disk, pool.s, pend, written, to, r == Written, pool.crc);
      CoversStep(pend, outs, written, to, r);
      SyncLostMore(outs, Extent(from, to, r));
      outs := outs + [Extent(from, to, r)];
      written := written + Repeat(r == Written, to - from);
      from := to;
    }
  }

  lemma CoversNone(pend: seq<Pending>)
    ensures Covers(pend, [], 0) && Tells([], []) && !SyncLost([])
  {
  }

  lemma SyncLostMore(outs: seq<Extent>, e: Extent)
    ensures SyncLost(outs + [e]) <==> SyncLost(outs) || e.result == SyncFailed
  {
    if SyncLost(outs) {
      var i :| 0 <= i < |outs| && outs[i].result == SyncFailed;
      assert (outs + [e])[i].result == SyncFailed;
    } else if e.result == SyncFailed {
      assert (outs + [e])[|outs|].result == SyncFailed;
    }
  }

  lemma ExtentShape(pend: seq<Pending>, from: nat, to: nat)
    requires IsExtent(pend, from, to)
    ensures from < to <= |pend| && Consecutive(pend[from..to])
  {
  }

  lemma DiskSameMore(d0: map<PageId, Page>, d1: map<PageId, Page>, d2: map<PageId, Page>, pend: seq<Pending>, from: nat, to: nat)
    requires from <= to <= |pend| && DiskSameOff(d0, d1, pend) && DiskSameOff(d1, d2, pend[from..to])
    ensures DiskSameOff(d0, d2, pend)
  {
    var ext := pend[from..to];
    assert forall j | 0 <= j < |ext| :: ext[j] == pend[from + j];
  }

  /** Every claim of the batch has been released. */
  ghost predicate ClaimsReleased(o: seq<Frame>, fs: seq<Frame>) {
    |fs| == |o| && forall f | 0 <= f < |o| :: fs[f].ioInflight == o[f].ioInflight
  }

  lemma StandsReleased(o: seq<Frame>, s: Core, pend: seq<Pending>, written: seq<bool>, crc: Body -> nat)
    requires Owned(o, pend) && Stands(o, s, pend, written, crc) && |written| == |pend|
    ensures ClaimsReleased(o, s.frames)
  {
    forall f | 0 <= f < |o| ensures s.frames[f].ioInflight == o[f].ioInflight {
      if f in Fids(pend) {
        var i :| 0 <= i < |pend| && pend[i].fid == f;
      }
    }
  }

  /** `flush_batch`. */
  method FlushBatch(pool: BufferPool, candidates: seq<FrameId>, durable: nat)
    returns (pend: seq<Pending>, outs: seq<Extent>, ghost written: seq<bool>)
    requires pool.Valid() && forall c | c in candidates :: c < |pool.s.frames|
    modifies pool`s, pool`ioFailed, pool`writeCount
    ensures pool.Undisturbed()
    // A poisoned pool is left alone.
    ensures old(pool.ioFailed) ==> pend == [] && pool.s == old(pool.s)
    // The batch is exactly the eligible candidates, in page order; nothing else is written.
    ensures !old(pool.ioFailed) ==> ClaimsExactly(old(pool.s.frames), candidates, durable, pend)
    ensures Owned(old(pool.s.frames), pend)
    // Write-ahead: a page whose bytes on disk changed was resident, unpinned and idle, and its
    // earliest unflushed change was in the durable part of the log.
    ensures WriteAhead(old(pool.s), pool.s.disk, durable)
    // Frames stuck with I/O in flight are passed over.
    ensures BusyKept(old(pool.s), pool.s)
    ensures Ascending(pend) && DiskSameOff(old(pool.s.disk), pool.s.disk, pend)
    // The extents partition it; an entry is clean afterwards exactly when its extent was written.
    ensures |written| == |pend| && Stands(old(pool.s.frames), pool.s, pend, written, pool.crc)
    ensures Tells(outs, written)
    ensures outs != [] ==> Covers(pend, outs, |pend|)
    ensures outs == [] ==> forall i | 0 <= i < |written| :: !written[i]
    // Every claim is released on every exit.
    ensures ClaimsReleased(old(pool.s.frames), pool.s.frames)
    ensures pool.ioFailed <==> old(pool.ioFailed) || SyncLost(outs)
    ensures old(pool.FaultFree()) ==> forall i | 0 <= i < |written| :: written[i]
  {
    hide Inv, GhostInv, Shows, Held, Owned, Ascending, Stands, Covers, Tells, DiskSameOff, SettledFrom, RefreshedFrom, ClaimedFrom, ClaimsExactly, ClaimsReleased, Fids, WriteAhead, BusyKept;
    pend, outs, written := [], [], [];
    CoversNone([]);
    StandsNone(pool.s, pool.crc);
    BatchNone(pool.s, durable);
    if pool.ioFailed {
      return;
    }
    ghost var o, s0 := pool.s.frames, pool.s;
    pend := ClaimPending(pool, candidates, durable);
    ClaimsSorted(o, pool.s, candidates, durable, pend);
    pend := SortByPage(pend);
    if pend == [] {
      ClaimedNothing(o, pool.s);
      StandsNone(pool.s, pool.crc);
      BatchAhead(s0, pool.s, candidates, durable, pend, [], pool.crc);
      return;
    }
    OwnedFrom(o, pool.s, candidates, durable, pend);
    ghost var s1 := pool.s;
    RefreshChecksums(pool, pend);
    StandsStart(o, s1, pool.s, pend, pool.crc);
    var stage := pool.writeFate(pool.writeCount);
    pool.writeCount := pool.writeCount + 1;
    if stage.StageError? {
      ghost var s := pool.s;
      StandsNext(o, s, pend, [], |pend|, pool.crc);
      EndsSame(pend);
      assert pend[0..|pend|] == pend;
      DiskSameRefl(s.disk, pend);
      SettleExtent(pool, pend, false);
      StandsStep(o, s, s.disk, pool.s, pend, [], |pend|, false, pool.crc);
      written := Repeat(false, |pend|);
      assert [] + written == written;
      TellsNone(written);
    } else {
      outs, written := WriteExtents(pool, pend, o);
      CoversSome(pend, outs);
    }
    StandsReleased(o, pool.s, pend, written, pool.crc);
    BatchAhead(s0, pool.s, candidates, durable, pend, written, pool.crc);
  }

  ghost predicate SameBody(disk: map<PageId, Page>, disk': map<PageId, Page>, p: PageId) {
    (p in disk' <==> p in disk) && (p in disk ==> disk'[p].body == disk[p].body)
  }

  /** Only pages that were resident in an eligible frame change on disk, and only bodies of dirty
      ones do. */
  ghost predicate WriteAhead(s: Core, disk: map<PageId, Page>, durable: nat) {
    && (forall p | !SameOnDisk(s.disk, disk, p) ::
          p in s.table && s.table[p] < |s.frames| && Eligible(s.frames[s.table[p]], durable))
    && (forall p | !SameBody(s.disk, disk, p) ::
          p in s.table && DirtyAhead(s, s.table[p], durable))
  }

  /** A dirty frame whose earliest change is durable; the reserved LSN alone counts as none. */
  ghost predicate DirtyAhead(s: Core, f: FrameId, durable: nat) {
    && f < |s.frames| == |s.lsns| && s.frames[f].state == Dirty
    && (s.frames[f].recLsn <= durable || forall l | l in s.lsns[f] :: l >= NO_LSN)
  }

  lemma BatchNone(s: Core, durable: nat)
    ensures Owned(s.frames, []) && WriteAhead(s, s.disk, durable) && BusyKept(s, s)
  {
  }

  /** What the batch's claims say about the disk and about the frames that were busy. */
  lemma BatchAhead(s: Core, s': Core, seen: seq<FrameId>, durable: nat, pend: seq<Pending>, written: seq<bool>, crc: Body -> nat)
    requires Inv(s) && Inv(s') && s'.guards == s.guards
    requires Owned(s.frames, pend) && ClaimsExactly(s.frames, seen, durable, pend)
    requires DiskSameOff(s.disk, s'.disk, pend) && Stands(s.frames, s', pend, written, crc)
    ensures WriteAhead(s, s'.disk, durable) && BusyKept(s, s')
  {
    hide Inv, Owned, Stands, ClaimsExactly, BusyKept;
    BatchBusy(s, s', pend, written, crc);
    forall p | !SameOnDisk(s.disk, s'.disk, p)
      ensures p in s.table && s.table[p] < |s.frames| && Eligible(s.frames[s.table[p]], durable)
    {
      var i :| 0 <= i < |pend| && pend[i].page == p;
      BatchEligible(s, seen, durable, pend, i);
    }
    forall p | !SameBody(s.disk, s'.disk, p)
      ensures p in s.table && DirtyAhead(s, s.table[p], durable)
    {
      var i :| 0 <= i < |pend| && pend[i].page == p;
      BatchEligible(s, seen, durable, pend, i);
      if s.frames[pend[i].fid].state == Clean {
        CleanBodySame(s, s', pend, written, crc, i);
      }
    }
  }

  lemma BatchEligible(s: Core, seen: seq<FrameId>, durable: nat, pend: seq<Pending>, i: nat)
    requires Inv(s) && Owned(s.frames, pend) && ClaimsExactly(s.frames, seen, durable, pend) && i < |pend|
    ensures pend[i].page in s.table && s.table[pend[i].page] == pend[i].fid < |s.frames|
    ensures Eligible(s.frames[pend[i].fid], durable) && s.frames[pend[i].fid].Resident()
    ensures s.frames[pend[i].fid].state == Dirty ==> DirtyAhead(s, pend[i].fid, durable)
  {
    assert pend[i].fid in Fids(pend);
  }

  lemma BatchBusy(s: Core, s': Core, pend: seq<Pending>, written: seq<bool>, crc: Body -> nat)
    requires Inv(s) && Owned(s.frames, pend)
    requires DiskSameOff(s.disk, s'.disk, pend) && Stands(s.frames, s', pend, written, crc)
    ensures BusyKept(s, s')
  {
    forall f | 0 <= f < |s.frames| && s.frames[f].ioInflight
      ensures f !in Fids(pend) && (s.frames[f].Resident() ==> SameOnDisk(s.disk, s'.disk, s.frames[f].pageId))
    {
    }
  }

  /** Writing back a clean frame leaves its page's body as it was on disk. */
  lemma CleanBodySame(s: Core, s': Core, pend: seq<Pending>, written: seq<bool>, crc: Body -> nat, i: nat)
    requires Inv(s) && Inv(s') && Owned(s.frames, pend) && Stands(s.frames, s', pend, written, crc)
    requires s'.guards == s.guards && i < |pend| && s.frames[pend[i].fid].state == Clean
    ensures SameBody(s.disk, s'.disk, pend[i].page)
  {
    var f := pend[i].fid;
    UnpinnedHasNoGuard(s.frames, s.guards, s.unflagged, f);
    UnpinnedHasNoGuard(s'.frames, s'.guards, s'.unflagged, f);
  }

  lemma TellsNone(written: seq<bool>)
    ensures Tells([], written)
  {
  }

  lemma CoversSome(pend: seq<Pending>, outs: seq<Extent>)
    requires Covers(pend, outs, |pend|) && pend != []
    ensures outs != []
  {
  }

  lemma StandsNone(s: Core, crc: Body -> nat)
    ensures Stands(s.frames, s, [], [], crc) && Ascending([]) && DiskSameOff(s.disk, s.disk, [])
    ensures ClaimsReleased(s.frames, s.frames)
  {
  }

  lemma ClaimedNothing(o: seq<Frame>, s: Core)
    requires ClaimedFrom(o, s, [])
    ensures s.frames == o
  {
  }
}
