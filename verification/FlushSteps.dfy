/** The state changes a batch flush is made of (src/buffer/flusher.rs), on values. */
module FlushSteps {
  import opened Frames
  import opened PoolState

  const PAGE_SIZE: nat := 8192
  const MAX_BATCH_BYTES: nat := 4 * 1024 * 1024

  /** A dirty page claimed for this batch. */
  datatype Pending = Pending(fid: FrameId, page: PageId)

  /** The batch takes this frame: it holds a page, its earliest unflushed change is in the
      durable part of the log, no I/O is in flight on it and nobody has it pinned. */
  predicate Eligible(fr: Frame, durable: nat) {
    fr.pageId != 0 && (fr.recLsn == NO_LSN || fr.recLsn <= durable) && fr.Reclaimable()
  }

  function Refreshed(fr: Frame, crc: Body -> nat): Frame {
    fr.(buf := UpdateChecksum(crc, fr.buf))
  }

  /** The frames of `pend` are claimed: unpinned, each with its own page, I/O in flight. */
  ghost predicate Held(s: Core, pend: seq<Pending>) {
    forall i | 0 <= i < |pend| ::
      var f := pend[i].fid;
      f < |s.frames| && s.frames[f].Resident() && s.frames[f].pageId == pend[i].page
      && !s.frames[f].IsPinned() && s.frames[f].ioInflight
  }

  ghost predicate Ascending(pend: seq<Pending>) {
    forall i, j | 0 <= i < j < |pend| :: pend[i].page < pend[j].page
  }

  // ---------------------------------------------------------------- one frame

  /** Only the `io_inflight` flag and the checksum of frame `f` change. */
  function Reflagged(s: Core, f: FrameId, fr: Frame): Core
    requires f < |s.frames|
  {
    s.(frames := s.frames[f := fr])
  }

  lemma ReflaggedKeeps(s: Core, f: FrameId, fr: Frame)
    requires Inv(s) && f < |s.frames| && s.frames[f].Resident()
    requires fr == s.frames[f].(buf := fr.buf, ioInflight := fr.ioInflight) && fr.buf.body == s.frames[f].buf.body
    ensures Inv(Reflagged(s, f, fr)) && Shows(Reflagged(s, f, fr)) == Shows(s)
  {
    StuckKeeps(s, f, fr);
  }

  /** Frame `f`, whose bytes are on disk, is marked clean and its claim released. */
  function MarkedClean(s: Core, f: FrameId): Core
    requires f < |s.frames| == |s.lsns|
  {
    s.(frames := s.frames[f := s.frames[f].(dirty := false, state := Clean, ioInflight := false, recLsn := NO_LSN)],
       lsns := s.lsns[f := {}])
  }

  lemma MarkedCleanKeeps(s: Core, f: FrameId)
    requires Inv(s) && f < |s.frames| && s.frames[f].Resident() && !s.frames[f].IsPinned()
    requires var fr := s.frames[f]; fr.pageId in s.disk && s.disk[fr.pageId].body == fr.buf.body
    ensures |s.lsns| == |s.frames|
    ensures Inv(MarkedClean(s, f)) && Shows(MarkedClean(s, f)) == Shows(s)
  {
    var fr := s.frames[f].(dirty := false, state := Clean, ioInflight := false, recLsn := NO_LSN);
    var page := s.disk[fr.pageId];
    WroteBackKeeps(s, f, fr, page);
    assert s.disk[fr.pageId := page] == s.disk;
    assert WroteBack(s, f, fr, page) == MarkedClean(s, f);
  }

  // ---------------------------------------------------------------- one vectored write

  /** Each page of the extent written at its own offset. */
  function PutPages(disk: map<PageId, Page>, ext: seq<Pending>, pages: seq<Page>): map<PageId, Page>
    requires |ext| == |pages|
    decreases |ext|
  {
    if ext == [] then disk
    else
      var n := |ext| - 1;
      PutPages(disk, ext[..n], pages[..n])[ext[n].page := pages[n]]
  }

  /** The slices written one after another from the offset of page `first`. */
  function Vectored(disk: map<PageId, Page>, first: PageId, pages: seq<Page>): map<PageId, Page>
    decreases |pages|
  {
    if pages == [] then disk
    else
      var n := |pages| - 1;
      Vectored(disk, first, pages[..n])[first + n := pages[n]]
  }

  ghost predicate Consecutive(ext: seq<Pending>) {
    forall i | 0 <= i < |ext| :: ext[i].page == ext[0].page + i
  }

  /** On an extent of consecutive pages, one vectored write is the per-page writes. */
  lemma {:induction false} VectoredIsPerPage(disk: map<PageId, Page>, ext: seq<Pending>, pages: seq<Page>)
    requires |ext| == |pages| && Consecutive(ext)
    ensures ext != [] ==> Vectored(disk, ext[0].page, pages) == PutPages(disk, ext, pages)
    decreases |ext|
  {
    var n := |ext| - 1;
    if n > 0 {
      VectoredIsPerPage(disk, ext[..n], pages[..n]);
      assert ext[n].page == ext[0].page + n;
    } else if n == 0 {
      assert pages[..n] == [] && ext[..n] == [];
    }
  }

  lemma {:induction false} PutPagesAt(disk: map<PageId, Page>, ext: seq<Pending>, pages: seq<Page>)
    requires |ext| == |pages| && Ascending(ext)
    ensures forall i | 0 <= i < |ext| :: ext[i].page in PutPages(disk, ext, pages) && PutPages(disk, ext, pages)[ext[i].page] == pages[i]
    ensures forall p | forall i | 0 <= i < |ext| :: ext[i].page != p ::
              (p in PutPages(disk, ext, pages) <==> p in disk) && (p in disk ==> PutPages(disk, ext, pages)[p] == disk[p])
    decreases |ext|
  {
    var n := |ext| - 1;
    if n >= 0 {
      var before, after := PutPages(disk, ext[..n], pages[..n]), PutPages(disk, ext, pages);
      PutPagesAt(disk, ext[..n], pages[..n]);
      assert after == before[ext[n].page := pages[n]];
      forall i | 0 <= i < |ext| ensures ext[i].page in after && after[ext[i].page] == pages[i] {
        if i < n {
          assert ext[..n][i] == ext[i] && pages[..n][i] == pages[i];
        }
      }
      forall p | forall i | 0 <= i < |ext| :: ext[i].page != p
        ensures (p in after <==> p in disk) && (p in disk ==> after[p] == disk[p])
      {
        assert forall i | 0 <= i < n :: ext[..n][i].page != p;
      }
    }
  }

  lemma {:induction false} PutPagesKeeps(s: Core, ext: seq<Pending>, pages: seq<Page>)
    requires Inv(s) && Held(s, ext) && |ext| == |pages|
    requires forall i | 0 <= i < |ext| :: s.frames[ext[i].fid].state == Clean ==> pages[i].body == s.frames[ext[i].fid].buf.body
    ensures var s' := s.(disk := PutPages(s.disk, ext, pages)); Inv(s') && Shows(s') == Shows(s)
    decreases |ext|
  {
    var n := |ext| - 1;
    if n >= 0 {
      assert forall i | 0 <= i < n :: ext[..n][i] == ext[i] && pages[..n][i] == pages[i];
      PutPagesKeeps(s, ext[..n], pages[..n]);
      PutOneKeeps(s.(disk := PutPages(s.disk, ext[..n], pages[..n])), ext[n].fid, pages[n]);
    }
  }

  lemma PutOneKeeps(s: Core, f: FrameId, page: Page)
    requires Inv(s) && f < |s.frames| && s.frames[f].Resident() && !s.frames[f].IsPinned()
    requires s.frames[f].state == Clean ==> page.body == s.frames[f].buf.body
    ensures var s' := s.(disk := s.disk[s.frames[f].pageId := page]); Inv(s') && Shows(s') == Shows(s)
  {
    WroteBackKeeps(s, f, s.frames[f], page);
    assert s.frames[f := s.frames[f]] == s.frames;
    assert WroteBack(s, f, s.frames[f], page).lsns == s.lsns;
  }

  /** What is in place after a write of `pages` that failed: see `Leftover`. */
  function LeftPages(disk: map<PageId, Page>, ext: seq<Pending>, pages: seq<Page>, left: PageId -> Page): (r: seq<Page>)
    requires |ext| == |pages|
    ensures |r| == |ext|
  {
    seq(|ext|, i requires 0 <= i < |ext| => Leftover(disk, pages[i], ext[i].page, left(ext[i].page)))
  }

  lemma LeftPagesClean(s: Core, ext: seq<Pending>, pages: seq<Page>, left: PageId -> Page)
    requires Inv(s) && Held(s, ext) && |ext| == |pages|
    requires forall i | 0 <= i < |ext| :: pages[i].body == s.frames[ext[i].fid].buf.body
    ensures forall i | 0 <= i < |ext| :: s.frames[ext[i].fid].state == Clean ==>
              LeftPages(s.disk, ext, pages, left)[i].body == s.frames[ext[i].fid].buf.body
  {
    forall i | 0 <= i < |ext| && s.frames[ext[i].fid].state == Clean
      ensures LeftPages(s.disk, ext, pages, left)[i].body == s.frames[ext[i].fid].buf.body
    {
      UnpinnedHasNoGuard(s.frames, s.guards, s.unflagged, ext[i].fid);
    }
  }

  // ---------------------------------------------------------------- bytes

  /** The file with `bytes` written at `offset`, which is within it. */
  function WriteAt(file: seq<bv8>, offset: nat, bytes: seq<bv8>): (r: seq<bv8>)
    requires offset <= |file|
  {
    if offset + |bytes| <= |file| then file[..offset] + bytes + file[offset + |bytes|..]
    else file[..offset] + bytes
  }

  function Concat(slices: seq<seq<bv8>>): seq<bv8> {
    if slices == [] then [] else slices[0] + Concat(slices[1..])
  }

  /** Page-sized slices, each at its own page's offset. */
  function WritePages(file: seq<bv8>, first: PageId, slices: seq<seq<bv8>>): (r: seq<bv8>)
    requires first * PAGE_SIZE <= |file| && forall i | 0 <= i < |slices| :: |slices[i]| == PAGE_SIZE
    decreases |slices|
  {
    if slices == [] then file
    else
      var file' := WriteAt(file, first * PAGE_SIZE, slices[0]);
      WritePages(file', first + 1, slices[1..])
  }

  /** One vectored write of whole pages leaves the file as page-by-page writes would. */
  lemma {:induction false} WritevIsPageWrites(file: seq<bv8>, first: PageId, slices: seq<seq<bv8>>)
    requires first * PAGE_SIZE <= |file| && forall i | 0 <= i < |slices| :: |slices[i]| == PAGE_SIZE
    ensures WriteAt(file, first * PAGE_SIZE, Concat(slices)) == WritePages(file, first, slices)
    decreases |slices|
  {
    if slices != [] {
      var off, a, b := first * PAGE_SIZE, slices[0], Concat(slices[1..]);
      assert Concat(slices) == a + b;
      WritevIsPageWrites(WriteAt(file, off, a), first + 1, slices[1..]);
      WriteTwice(file, off, a, b);
    }
  }

  /** The bytes of page `p`. */
  function PageBytes(file: seq<bv8>, p: PageId): (r: seq<bv8>)
    requires (p + 1) * PAGE_SIZE <= |file|
    ensures |r| == PAGE_SIZE
  {
    file[p * PAGE_SIZE..(p + 1) * PAGE_SIZE]
  }

  /** The file holds every page of `disk` at its own offset. */
  ghost predicate Renders(file: seq<bv8>, disk: map<PageId, Page>, bytes: Page -> seq<bv8>) {
    forall p | p in disk :: (p + 1) * PAGE_SIZE <= |file| && PageBytes(file, p) == bytes(disk[p])
  }

  function Rendered(pages: seq<Page>, bytes: Page -> seq<bv8>): (r: seq<seq<bv8>>)
    ensures |r| == |pages|
  {
    seq(|pages|, i requires 0 <= i < |pages| => bytes(pages[i]))
  }

  /** The one `pwritev` of an extent does to the file what `Vectored` does to the page map. */
  lemma {:induction false} VectoredIsOneWrite(file: seq<bv8>, disk: map<PageId, Page>, first: PageId, pages: seq<Page>,
                                              bytes: Page -> seq<bv8>)
    requires first * PAGE_SIZE <= |file| && Renders(file, disk, bytes) && forall page :: |bytes(page)| == PAGE_SIZE
    ensures Renders(WriteAt(file, first * PAGE_SIZE, Concat(Rendered(pages, bytes))), Vectored(disk, first, pages), bytes)
    ensures first * PAGE_SIZE + |Concat(Rendered(pages, bytes))| == (first + |pages|) * PAGE_SIZE
    decreases |pages|
  {
    hide Renders;
    var slices, off := Rendered(pages, bytes), first * PAGE_SIZE;
    if pages == [] {
      assert WriteAt(file, off, []) == file;
    } else {
      var n := |pages| - 1;
      var less, last := Rendered(pages[..n], bytes), bytes(pages[n]);
      assert slices == less + [last];
      ConcatAppend(less, last);
      VectoredIsOneWrite(file, disk, first, pages[..n], bytes);
      var file' := WriteAt(file, off, Concat(less));
      WriteTwice(file, off, Concat(less), last);
      OnePageWritten(file', Vectored(disk, first, pages[..n]), first + n, pages[n], bytes);
    }
  }

  lemma {:induction false} ConcatAppend(slices: seq<seq<bv8>>, last: seq<bv8>)
    ensures Concat(slices + [last]) == Concat(slices) + last
  {
    if slices == [] {
      assert [last][1..] == [];
    } else {
      assert (slices + [last])[1..] == slices[1..] + [last];
      ConcatAppend(slices[1..], last);
    }
  }

  lemma OnePageWritten(file: seq<bv8>, disk: map<PageId, Page>, p: PageId, page: Page, bytes: Page -> seq<bv8>)
    requires p * PAGE_SIZE <= |file| && Renders(file, disk, bytes) && |bytes(page)| == PAGE_SIZE
    ensures Renders(WriteAt(file, p * PAGE_SIZE, bytes(page)), disk[p := page], bytes)
  {
    var file' := WriteAt(file, p * PAGE_SIZE, bytes(page));
    forall q | q in disk[p := page]
      ensures (q + 1) * PAGE_SIZE <= |file'| && PageBytes(file', q) == bytes(disk[p := page][q])
    {
      if q != p {
        OtherPageKept(file, p, bytes(page), q);
      }
    }
  }

  lemma OtherPageKept(file: seq<bv8>, p: PageId, bytes: seq<bv8>, q: PageId)
    requires p * PAGE_SIZE <= |file| && |bytes| == PAGE_SIZE && q != p && (q + 1) * PAGE_SIZE <= |file|
    ensures (q + 1) * PAGE_SIZE <= |WriteAt(file, p * PAGE_SIZE, bytes)|
    ensures PageBytes(WriteAt(file, p * PAGE_SIZE, bytes), q) == PageBytes(file, q)
  {
    var off, a, b, file' := p * PAGE_SIZE, q * PAGE_SIZE, (q + 1) * PAGE_SIZE, WriteAt(file, p * PAGE_SIZE, bytes);
    if q < p {
      assert file'[..off] == file[..off];
      SliceWithin(file, 0, off, a, b);
      SliceWithin(file', 0, off, a, b);
    } else {
      var end := off + PAGE_SIZE;
      assert file'[end..] == file[end..] && |file'| == |file|;
      assert file'[end..|file|] == file[end..|file|];
      SliceWithin(file, end, |file|, a, b);
      SliceWithin(file', end, |file|, a, b);
    }
  }

  lemma SliceWithin(s: seq<bv8>, i: nat, j: nat, a: nat, b: nat)
    requires i <= a <= b <= j <= |s|
    ensures s[a..b] == s[i..j][a - i..b - i]
  {
    var t, u := s[i..j], s[i..j][a - i..b - i];
    assert |u| == b - a;
    forall k | 0 <= k < b - a ensures u[k] == s[a..b][k] {
      assert u[k] == t[a - i + k] && t[a - i + k] == s[a + k];
    }
  }

  lemma WriteTwice(file: seq<bv8>, off: nat, a: seq<bv8>, b: seq<bv8>)
    requires off <= |file|
    ensures off + |a| <= |WriteAt(file, off, a)|
    ensures WriteAt(WriteAt(file, off, a), off + |a|, b) == WriteAt(file, off, a + b)
  {
    var f1 := WriteAt(file, off, a);
    assert f1[..off + |a|] == file[..off] + a;
    assert file[..off] + a + b == file[..off] + (a + b);
    if off + |a| + |b| <= |file| {
      assert f1[off + |a|..] == file[off + |a|..];
      assert f1[off + |a| + |b|..] == f1[off + |a|..][|b|..] && file[off + |a| + |b|..] == file[off + |a|..][|b|..];
    }
  }
}
