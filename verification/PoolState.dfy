/** What every buffer-pool operation keeps: the frame-table invariant, and the flat
    page map that the pool stands for.  All of it is about values, so that the pool
    class can reason about one changed frame at a time. */
module PoolState {
  import opened Frames

  /** A live `PageGuard`; `id` tells two guards on the same page apart. */
  datatype PageGuard = PageGuard(id: nat, frameId: FrameId, pageId: PageId)

  /** The live guards on frame `f`. */
  function PinsOf(guards: set<PageGuard>, f: FrameId): (r: set<PageGuard>)
    ensures r <= guards
  {
    set g | g in guards && g.frameId == f
  }

  // ---------------------------------------------------------------- invariants

  /** The page table and the frames describe each other. */
  ghost predicate TableInv(fs: seq<Frame>, table: map<PageId, FrameId>) {
    && (forall p | p in table ::
          table[p] < |fs| && fs[table[p]].Resident() && fs[table[p]].pageId == p)
    && (forall f | 0 <= f < |fs| :: Shaped(fs[f]))
    && (forall f | 0 <= f < |fs| :: fs[f].Resident() ==>
          fs[f].pageId in table && table[fs[f].pageId] == f)
  }

  /** `pin_count` counts the live guards, and a live guard's page stays in its frame. */
  ghost predicate PinInv(fs: seq<Frame>, guards: set<PageGuard>) {
    && (forall f | 0 <= f < |fs| :: fs[f].pinCount == |PinsOf(guards, f)|)
    && (forall g | g in guards ::
          g.frameId < |fs| && fs[g.frameId].Resident() && fs[g.frameId].pageId == g.pageId)
  }

  /** A clean frame agrees with the disk, unless one of its guards has written bytes and not
      yet called `set_dirty`. */
  ghost predicate DiskInv(fs: seq<Frame>, disk: map<PageId, Page>, unflagged: set<PageGuard>) {
    forall f | 0 <= f < |fs| :: fs[f].state == Clean && PinsOf(unflagged, f) == {} ==>
      fs[f].pageId in disk && disk[fs[f].pageId].body == fs[f].buf.body
  }

  /** `rec_lsn` is the least LSN since the last flush; exactly the dirty frames have one. */
  ghost predicate LsnInv(fs: seq<Frame>, lsns: seq<set<nat>>) {
    && |lsns| == |fs|
    && (forall f | 0 <= f < |fs| :: fs[f].state != Loading ==>
          IsLeastLsn(fs[f].recLsn, lsns[f]) && (fs[f].state == Dirty <==> lsns[f] != {}))
  }

  /** The ghost queue and the ghost set hold the same distinct pages, within capacity. */
  ghost predicate GhostInv(queue: seq<PageId>, members: set<PageId>, capacity: nat) {
    && |queue| <= capacity
    && (forall p | p in queue :: p in members)
    && (forall p | p in members :: p in queue)
    && (forall i, j | 0 <= i < j < |queue| :: queue[i] != queue[j])
  }

  // ---------------------------------------------------------------- the flat page map

  /** What the pool shows for each page: the resident bytes, otherwise the bytes on disk. */
  ghost function View(fs: seq<Frame>, table: map<PageId, FrameId>, disk: map<PageId, Page>)
    : map<PageId, Body>
    requires TableInv(fs, table)
  {
    map p | p in table.Keys + disk.Keys ::
      if p in table then fs[table[p]].buf.body else disk[p].body
  }

  /** No two pages share a frame. */
  lemma PageTableInjective(fs: seq<Frame>, table: map<PageId, FrameId>, p: PageId, q: PageId)
    requires TableInv(fs, table)
    requires p in table && q in table && table[p] == table[q]
    ensures p == q && p != 0
  {
    assert Shaped(fs[table[p]]);
  }

  lemma PinsAdd(guards: set<PageGuard>, g: PageGuard, f: FrameId)
    requires g !in guards
    ensures |PinsOf(guards + {g}, f)| == |PinsOf(guards, f)| + (if g.frameId == f then 1 else 0)
  {
    if g.frameId == f {
      assert PinsOf(guards + {g}, f) == PinsOf(guards, f) + {g};
    } else {
      assert PinsOf(guards + {g}, f) == PinsOf(guards, f);
    }
  }

  lemma PinsRemove(guards: set<PageGuard>, g: PageGuard, f: FrameId)
    requires g in guards
    ensures |PinsOf(guards, f)| == |PinsOf(guards - {g}, f)| + (if g.frameId == f then 1 else 0)
  {
    PinsAdd(guards - {g}, g, f);
    assert guards - {g} + {g} == guards;
  }

  /** An unpinned frame has no guard, and no guard with an unflagged write. */
  lemma UnpinnedHasNoGuard(fs: seq<Frame>, guards: set<PageGuard>, unflagged: set<PageGuard>, f: FrameId)
    requires PinInv(fs, guards) && unflagged <= guards && f < |fs| && !fs[f].IsPinned()
    ensures forall g | g in guards :: g.frameId != f
    ensures PinsOf(unflagged, f) == {}
  {
    assert |PinsOf(guards, f)| == 0;
    assert PinsOf(guards, f) == {};
    assert forall g | g in guards && g.frameId == f :: g in PinsOf(guards, f);
  }

  // ---------------------------------------------------------------- one frame changes

  /** Frame `f` keeps its page: the table still describes the frames. */
  lemma TableKept(fs: seq<Frame>, table: map<PageId, FrameId>, f: FrameId, fr: Frame)
    requires TableInv(fs, table) && f < |fs|
    requires Shaped(fr) && fr.pageId == fs[f].pageId && (fr.Resident() <==> fs[f].Resident())
    ensures TableInv(fs[f := fr], table)
  {
  }

  /** Frame `f` keeps its page: only that page's bytes may look different. */
  lemma ViewKept(fs: seq<Frame>, table: map<PageId, FrameId>, disk: map<PageId, Page>, f: FrameId, fr: Frame)
    requires TableInv(fs, table) && f < |fs|
    requires Shaped(fr) && fr.pageId == fs[f].pageId && (fr.Resident() <==> fs[f].Resident())
    ensures TableInv(fs[f := fr], table)
    ensures fs[f].Resident() ==>
              View(fs[f := fr], table, disk) == View(fs, table, disk)[fr.pageId := fr.buf.body]
    ensures (fs[f].Resident() ==> fr.buf.body == fs[f].buf.body) ==>
              View(fs[f := fr], table, disk) == View(fs, table, disk)
  {
    TableKept(fs, table, f, fr);
    var v, v' := View(fs, table, disk), View(fs[f := fr], table, disk);
    assert v'.Keys == v.Keys;
    if fs[f].Resident() {
      assert v[fr.pageId] == fs[f].buf.body;
      assert v' == v[fr.pageId := fr.buf.body];
    } else {
      assert v' == v;
    }
  }

  /** A guard `g` joins frame `f`. */
  lemma PinAdded(fs: seq<Frame>, guards: set<PageGuard>, g: PageGuard, fr: Frame)
    requires PinInv(fs, guards) && g !in guards && g.frameId < |fs|
    requires fr.Resident() && fr.pageId == g.pageId == fs[g.frameId].pageId
    requires fr.pinCount == fs[g.frameId].pinCount + 1
    ensures PinInv(fs[g.frameId := fr], guards + {g})
  {
    var fs' := fs[g.frameId := fr];
    forall i | 0 <= i < |fs'|
      ensures fs'[i].pinCount == |PinsOf(guards + {g}, i)|
    {
      PinsAdd(guards, g, i);
    }
  }

  /** A guard `g` leaves frame `f`. */
  lemma PinRemoved(fs: seq<Frame>, guards: set<PageGuard>, g: PageGuard, fr: Frame)
    requires PinInv(fs, guards) && g in guards
    requires fr.Resident() && fr.pageId == fs[g.frameId].pageId
    requires fs[g.frameId].pinCount > 0 ==> fr.pinCount == fs[g.frameId].pinCount - 1
    ensures fs[g.frameId].pinCount > 0
    ensures PinInv(fs[g.frameId := fr], guards - {g})
  {
    PinsRemove(guards, g, g.frameId);
    var fs' := fs[g.frameId := fr];
    forall i | 0 <= i < |fs'|
      ensures fs'[i].pinCount == |PinsOf(guards - {g}, i)|
    {
      PinsRemove(guards, g, i);
    }
  }

  /** Pins, residency and page id of frame `f` stay. */
  lemma PinKept(fs: seq<Frame>, guards: set<PageGuard>, f: FrameId, fr: Frame)
    requires PinInv(fs, guards) && f < |fs|
    requires fr.pinCount == fs[f].pinCount
    requires (fr.Resident() && fr.pageId == fs[f].pageId) || !fs[f].IsPinned()
    ensures PinInv(fs[f := fr], guards)
  {
    if !fs[f].IsPinned() {
      UnpinnedHasNoGuard(fs, guards, {}, f);
    }
  }

  /** Frame `f` changes; every other frame agrees with the disk as before. */
  lemma DiskKept(fs: seq<Frame>, disk: map<PageId, Page>, unflagged: set<PageGuard>,
                 unflagged': set<PageGuard>, f: FrameId, fr: Frame)
    requires DiskInv(fs, disk, unflagged) && f < |fs|
    requires fr.state == Clean && PinsOf(unflagged', f) == {} ==>
               fr.pageId in disk && disk[fr.pageId].body == fr.buf.body
    requires forall g | g in unflagged && g.frameId != f :: g in unflagged'
    requires forall g | g in unflagged' && g.frameId != f :: g in unflagged
    ensures DiskInv(fs[f := fr], disk, unflagged')
  {
    forall i | 0 <= i < |fs| && i != f
      ensures PinsOf(unflagged', i) == PinsOf(unflagged, i)
    {
    }
  }

  /** Frame `f` and its LSNs change together. */
  lemma LsnKept(fs: seq<Frame>, lsns: seq<set<nat>>, f: FrameId, fr: Frame, ls: set<nat>)
    requires LsnInv(fs, lsns) && f < |fs|
    requires fr.state != Loading ==> IsLeastLsn(fr.recLsn, ls) && (fr.state == Dirty <==> ls != {})
    ensures LsnInv(fs[f := fr], lsns[f := ls])
  {
  }

  // ---------------------------------------------------------------- the pool's tied-together state

  /** The part of the pool that the invariant ties together: the frames, the page table and
      the data file, and (for the statements) the live guards, the guards with a write not yet
      flagged by `set_dirty`, and per frame the LSNs since its last flush. */
  datatype Core = Core(
    frames: seq<Frame>,
    table: map<PageId, FrameId>,
    disk: map<PageId, Page>,
    guards: set<PageGuard>,
    unflagged: set<PageGuard>,
    lsns: seq<set<nat>>)

  ghost predicate Inv(s: Core) {
    && TableInv(s.frames, s.table)
    && PinInv(s.frames, s.guards)
    && DiskInv(s.frames, s.disk, s.unflagged)
    && LsnInv(s.frames, s.lsns)
    && s.unflagged <= s.guards
  }

  lemma InvShapes(s: Core, f: FrameId)
    requires Inv(s) && f < |s.frames|
    ensures Shaped(s.frames[f]) && |s.lsns| == |s.frames|
  {
  }

  /** The flat page map that the pool stands for. */
  ghost function Shows(s: Core): map<PageId, Body>
    requires Inv(s)
  {
    View(s.frames, s.table, s.disk)
  }

  /** Page `p` is on disk as before. */
  ghost predicate SameOnDisk(disk: map<PageId, Page>, disk': map<PageId, Page>, p: PageId) {
    (p in disk' <==> p in disk) && (p in disk ==> disk'[p] == disk[p])
  }

  /** Pages that are not resident have the same bytes on disk. */
  ghost predicate AbsentSame(s: Core, s': Core) {
    forall p | p !in s.table :: SameOnDisk(s.disk, s'.disk, p)
  }

  lemma AbsentMore(s0: Core, s1: Core, s2: Core)
    requires AbsentSame(s0, s1) && AbsentSame(s1, s2) && s1.table.Keys <= s0.table.Keys
    ensures AbsentSame(s0, s2)
  {
  }

  lemma AbsentRefl(s: Core)
    ensures AbsentSame(s, s)
  {
  }

  /** Frames with I/O in flight are untouched, and so are their pages on disk. */
  ghost predicate BusyKept(s: Core, s': Core) {
    && |s'.frames| == |s.frames|
    && forall f | 0 <= f < |s.frames| && s.frames[f].ioInflight ::
         s'.frames[f] == s.frames[f] && (s.frames[f].Resident() ==> SameOnDisk(s.disk, s'.disk, s.frames[f].pageId))
  }

  /** What stays so for good once a frame is left with I/O in flight: it keeps its claim, its page
      and its bytes, a dirty one stays dirty, and its page is not written to disk. */
  ghost predicate StuckKept(s: Core, s': Core) {
    && |s'.frames| == |s.frames|
    && forall f | 0 <= f < |s.frames| && s.frames[f].ioInflight ::
         var fr, fr' := s.frames[f], s'.frames[f];
         && fr'.ioInflight && fr'.pageId == fr.pageId && fr'.buf == fr.buf
         && (fr.Resident() ==> fr'.Resident() && SameOnDisk(s.disk, s'.disk, fr.pageId))
         && (fr.state == Dirty ==> fr'.state == Dirty) && (fr.state == Loading ==> fr'.state == Loading)
  }

  lemma BusyIsStuck(s: Core, s': Core)
    requires BusyKept(s, s')
    ensures StuckKept(s, s')
  {
  }

  lemma StuckMore(s0: Core, s1: Core, s2: Core)
    requires StuckKept(s0, s1) && StuckKept(s1, s2)
    ensures StuckKept(s0, s2)
  {
  }

  lemma BusyRefl(s: Core)
    ensures BusyKept(s, s)
  {
  }

  lemma BusyMore(s0: Core, s1: Core, s2: Core)
    requires BusyKept(s0, s1) && BusyKept(s1, s2)
    ensures BusyKept(s0, s2)
  {
  }

  /** Frame `f` is one of those reserved. */
  ghost predicate Reserves(fill: seq<(FrameId, PageId)>, f: FrameId) {
    exists k | 0 <= k < |fill| :: fill[k].0 == f
  }

  /** What the table points at carries a checksum that holds, or is as before. */
  ghost predicate Vouched(crc: Body -> nat, s: Core, s': Core) {
    && |s'.frames| == |s.frames|
    && forall p | p in s'.table && s'.table[p] < |s'.frames| ::
         var f := s'.table[p];
         VerifyChecksum(crc, s'.frames[f].buf) || (p in s.table && s.table[p] == f && s'.frames[f].buf == s.frames[f].buf)
  }

  lemma VouchedMore(crc: Body -> nat, s0: Core, s1: Core, s2: Core)
    requires Vouched(crc, s0, s1) && Vouched(crc, s1, s2)
    ensures Vouched(crc, s0, s2)
  {
  }

  /** ... and no frame but the reserved ones is newly loading. */
  ghost predicate Careful(crc: Body -> nat, s: Core, s': Core, fill: seq<(FrameId, PageId)>) {
    && Vouched(crc, s, s')
    && (forall f | 0 <= f < |s.frames| && s'.frames[f].state == Loading && s.frames[f].state != Loading :: Reserves(fill, f))
  }

  lemma CarefulRefl(crc: Body -> nat, s: Core, fill: seq<(FrameId, PageId)>)
    ensures Careful(crc, s, s, fill)
  {
  }

  lemma CarefulMore(crc: Body -> nat, s0: Core, s1: Core, s2: Core, fill: seq<(FrameId, PageId)>)
    requires Careful(crc, s0, s1, fill) && Careful(crc, s1, s2, [])
    ensures Careful(crc, s0, s2, fill)
  {
  }

  lemma CarefulReserved(crc: Body -> nat, s0: Core, s: Core, fill: seq<(FrameId, PageId)>, f: FrameId, p: PageId)
    requires Inv(s) && Careful(crc, s0, s, fill) && f < |s.frames| && s.frames[f].state == Empty
    ensures Careful(crc, s0, Reserved(s, f, p), fill + [(f, p)])
  {
    var more := fill + [(f, p)];
    assert more[|fill|].0 == f;
    forall g | Reserves(fill, g) ensures Reserves(more, g) {
      var k :| 0 <= k < |fill| && fill[k].0 == g;
      assert more[k].0 == g;
    }
    assert forall q | q in s.table :: s.table[q] != f;
  }

  /** A step of the clock hand is careful. */
  lemma CarefulVisit(crc: Body -> nat, s: Core, f: FrameId)
    requires Inv(s) && f < |s.frames|
    ensures Careful(crc, s, Evicted(s, f), []) && Careful(crc, s, Unreferenced(s, f), [])
  {
  }

  lemma CarefulFlushed(crc: Body -> nat, s: Core, f: FrameId, fate: WriteFate)
    requires Inv(s) && f < |s.frames| == |s.lsns|
    ensures Careful(crc, s, Flushed(s, f, crc, fate), [])
  {
  }

  /** So is a load: nothing is mapped unless its checksum holds. */
  lemma CarefulLoad(crc: Body -> nat, s: Core, f: FrameId, p: PageId, g: PageGuard)
    requires Inv(s) && f < |s.frames| == |s.lsns| && s.frames[f].state == Empty && g.frameId == f
    ensures Careful(crc, s, Abandoned(Reserved(s, f, p), f), [])
    ensures p in s.disk ==> Careful(crc, s, Abandoned(ReadIn(s, f, p), f), [])
    ensures p in s.disk && VerifyChecksum(crc, s.disk[p]) ==> Careful(crc, s, Loaded(s, f, p, g), [])
  {
    assert forall q | q in s.table :: s.table[q] != f;
  }

  lemma CarefulPinned(crc: Body -> nat, s: Core, g: PageGuard)
    requires g.frameId < |s.frames|
    ensures Careful(crc, s, Pinned(s, g), [])
  {
  }

  /** The same guards and number of frames; frames other than `f` are untouched. */
  ghost predicate SameExcept(s: Core, s': Core, f: FrameId) {
    && s'.guards == s.guards && s'.unflagged == s.unflagged
    && s'.table.Keys <= s.table.Keys && AbsentSame(s, s')
    && |s'.frames| == |s.frames|
    && forall i | 0 <= i < |s.frames| && i != f :: s'.frames[i] == s.frames[i]
  }

  /** Nothing was written to disk, and every dirty frame still holds its page, dirty. */
  ghost predicate Frozen(s: Core, s': Core) {
    && s'.disk == s.disk
    && |s'.frames| == |s.frames|
    && forall f | 0 <= f < |s.frames| && s.frames[f].state == Dirty ::
         s'.frames[f].state == Dirty && s'.frames[f].pageId == s.frames[f].pageId
  }

  lemma FrozenMore(s0: Core, s1: Core, s2: Core)
    requires Frozen(s0, s1) && Frozen(s1, s2)
    ensures Frozen(s0, s2)
  {
  }

  lemma AbsentAt(s: Core, s': Core, p: PageId)
    requires AbsentSame(s, s') && p !in s.table
    ensures SameOnDisk(s.disk, s'.disk, p)
  {
  }

  // ---- guards

  /** A new guard: one more pin, and the referenced bit. */
  function Pinned(s: Core, g: PageGuard): Core
    requires g.frameId < |s.frames|
  {
    var fr := s.frames[g.frameId];
    s.(frames := s.frames[g.frameId := fr.(pinCount := if fr.pinCount + 1 == PIN_MODULUS then 0 else fr.pinCount + 1, clockRef := true)],
       guards := s.guards + {g})
  }

  lemma PinnedKeeps(s: Core, g: PageGuard)
    requires Inv(s) && g !in s.guards
    requires g.pageId in s.table && s.table[g.pageId] == g.frameId && s.frames[g.frameId].pinCount + 1 != PIN_MODULUS
    ensures |s.lsns| == |s.frames|
    ensures g.frameId < |s.frames| && g.pageId in Shows(s)
    ensures Inv(Pinned(s, g)) && Shows(Pinned(s, g)) == Shows(s)
  {
    var f, s' := g.frameId, Pinned(s, g);
    PinAdded(s.frames, s.guards, g, s'.frames[f]);
    ViewKept(s.frames, s.table, s.disk, f, s'.frames[f]);
    DiskKept(s.frames, s.disk, s.unflagged, s.unflagged, f, s'.frames[f]);
    LsnKept(s.frames, s.lsns, f, s'.frames[f], s.lsns[f]);
    assert s.lsns[f := s.lsns[f]] == s.lsns;
  }

  /** The `u16` pin counter is the one limit: a guard may join exactly while its frame's counter
      does not wrap. */
  lemma PinnedExactly(s: Core, g: PageGuard)
    requires Inv(s) && g !in s.guards && g.pageId in s.table && s.table[g.pageId] == g.frameId
    ensures g.frameId < |s.frames|
    ensures Inv(Pinned(s, g)) <==> s.frames[g.frameId].pinCount + 1 != PIN_MODULUS
  {
    var f := g.frameId;
    if s.frames[f].pinCount + 1 == PIN_MODULUS {
      PinsAdd(s.guards, g, f);
      assert Pinned(s, g).frames[f].pinCount != |PinsOf(s.guards + {g}, f)|;
    } else {
      PinnedKeeps(s, g);
    }
  }

  lemma PinnedStuck(s: Core, g: PageGuard)
    requires Inv(s) && g.pageId in s.table && s.table[g.pageId] == g.frameId
    ensures g.frameId < |s.frames| && StuckKept(s, Pinned(s, g))
  {
  }

  /** Bytes written through a guard. */
  function Written(s: Core, g: PageGuard, page: Page): Core
    requires g.frameId < |s.frames|
  {
    s.(frames := s.frames[g.frameId := s.frames[g.frameId].(buf := page)], unflagged := s.unflagged + {g})
  }

  lemma WrittenKeeps(s: Core, g: PageGuard, page: Page)
    requires Inv(s) && g in s.guards
    ensures |s.lsns| == |s.frames| && g.frameId < |s.frames|
    ensures Inv(Written(s, g, page))
    ensures Shows(Written(s, g, page)) == Shows(s)[g.pageId := page.body]
  {
    var f, s' := g.frameId, Written(s, g, page);
    ViewKept(s.frames, s.table, s.disk, f, s'.frames[f]);
    PinKept(s.frames, s.guards, f, s'.frames[f]);
    assert g in PinsOf(s'.unflagged, f);
    DiskKept(s.frames, s.disk, s.unflagged, s'.unflagged, f, s'.frames[f]);
    LsnKept(s.frames, s.lsns, f, s'.frames[f], s.lsns[f]);
    assert s.lsns[f := s.lsns[f]] == s.lsns;
  }

  /** `set_dirty`: dirty, and `rec_lsn` lowered to this LSN if it is the earliest. */
  function Dirtied(s: Core, g: PageGuard, lsn: nat): Core
    requires g.frameId < |s.frames| == |s.lsns|
  {
    var f := g.frameId;
    var fr := s.frames[f];
    var rec := if fr.recLsn == NO_LSN || lsn < fr.recLsn then lsn else fr.recLsn;
    s.(frames := s.frames[f := fr.(dirty := true, lastLsn := lsn, recLsn := rec, state := Dirty)],
       unflagged := s.unflagged - {g},
       lsns := s.lsns[f := s.lsns[f] + {lsn}])
  }

  lemma DirtiedKeeps(s: Core, g: PageGuard, lsn: nat)
    requires Inv(s) && g in s.guards && lsn <= NO_LSN
    ensures |s.lsns| == |s.frames| && g.frameId < |s.frames|
    ensures Inv(Dirtied(s, g, lsn)) && Shows(Dirtied(s, g, lsn)) == Shows(s)
  {
    var f, s' := g.frameId, Dirtied(s, g, lsn);
    ViewKept(s.frames, s.table, s.disk, f, s'.frames[f]);
    PinKept(s.frames, s.guards, f, s'.frames[f]);
    DiskKept(s.frames, s.disk, s.unflagged, s'.unflagged, f, s'.frames[f]);
    assert lsn in s'.lsns[f];
    LsnKept(s.frames, s.lsns, f, s'.frames[f], s'.lsns[f]);
  }

  /** A guard dropped: one pin less, never below zero. */
  function Unpinned(s: Core, g: PageGuard): Core
    requires g.frameId < |s.frames|
  {
    var fr := s.frames[g.frameId];
    s.(frames := s.frames[g.frameId := fr.(pinCount := if fr.pinCount == 0 then 0 else fr.pinCount - 1)],
       guards := s.guards - {g})
  }

  lemma UnpinnedKeeps(s: Core, g: PageGuard)
    requires Inv(s) && g in s.guards && g !in s.unflagged
    ensures |s.lsns| == |s.frames| && g.frameId < |s.frames|
    ensures Inv(Unpinned(s, g)) && Shows(Unpinned(s, g)) == Shows(s)
    ensures s.frames[g.frameId].pinCount > 0
  {
    var f, s' := g.frameId, Unpinned(s, g);
    PinRemoved(s.frames, s.guards, g, s'.frames[f]);
    ViewKept(s.frames, s.table, s.disk, f, s'.frames[f]);
    DiskKept(s.frames, s.disk, s.unflagged, s.unflagged, f, s'.frames[f]);
    LsnKept(s.frames, s.lsns, f, s'.frames[f], s.lsns[f]);
    assert s.lsns[f := s.lsns[f]] == s.lsns;
  }

  // ---- the clock hand

  /** Only the referenced bit of frame `f` changes. */
  function Unreferenced(s: Core, f: FrameId): Core
    requires f < |s.frames|
  {
    s.(frames := s.frames[f := s.frames[f].(clockRef := false)])
  }

  lemma UnreferencedKeeps(s: Core, f: FrameId)
    requires Inv(s) && f < |s.frames| && s.frames[f].Resident()
    ensures Inv(Unreferenced(s, f)) && Shows(Unreferenced(s, f)) == Shows(s)
    ensures SameExcept(s, Unreferenced(s, f), f) && Frozen(s, Unreferenced(s, f))
    ensures !s.frames[f].ioInflight ==> BusyKept(s, Unreferenced(s, f))
  {
    UnreferencedElsewhere(s, f);
    hide SameExcept, Frozen, BusyKept;
    var s' := Unreferenced(s, f);
    ViewKept(s.frames, s.table, s.disk, f, s'.frames[f]);
    PinKept(s.frames, s.guards, f, s'.frames[f]);
    DiskKept(s.frames, s.disk, s.unflagged, s.unflagged, f, s'.frames[f]);
    LsnKept(s.frames, s.lsns, f, s'.frames[f], s.lsns[f]);
    assert s.lsns[f := s.lsns[f]] == s.lsns;
  }

  lemma UnreferencedElsewhere(s: Core, f: FrameId)
    requires f < |s.frames|
    ensures SameExcept(s, Unreferenced(s, f), f) && Frozen(s, Unreferenced(s, f))
    ensures !s.frames[f].ioInflight ==> BusyKept(s, Unreferenced(s, f))
  {
  }

  /** Frame `f` gives up its page: unmapped and reset. */
  function Evicted(s: Core, f: FrameId): Core
    requires f < |s.frames|
  {
    var p := s.frames[f].pageId;
    s.(frames := s.frames[f := s.frames[f].Reset()],
       table := if p in s.table && s.table[p] == f then s.table - {p} else s.table)
  }

  lemma EvictedKeeps(s: Core, f: FrameId)
    requires Inv(s) && f < |s.frames| && !s.frames[f].IsPinned()
    requires s.frames[f].state == Clean || s.frames[f].state == Empty
    ensures Inv(Evicted(s, f)) && Shows(Evicted(s, f)) == Shows(s)
    ensures SameExcept(s, Evicted(s, f), f) && Frozen(s, Evicted(s, f))
    ensures !s.frames[f].ioInflight ==> BusyKept(s, Evicted(s, f))
  {
    var s' := Evicted(s, f);
    if s.frames[f].state == Empty {
      assert Shaped(s.frames[f]);
      assert 0 !in s.table;
      assert s' == s;
      return;
    }
    UnpinnedHasNoGuard(s.frames, s.guards, s.unflagged, f);
    PinKept(s.frames, s.guards, f, s'.frames[f]);
    DiskKept(s.frames, s.disk, s.unflagged, s.unflagged, f, s'.frames[f]);
    LsnKept(s.frames, s.lsns, f, s'.frames[f], s.lsns[f]);
    assert s.lsns[f := s.lsns[f]] == s.lsns;
    ViewUnmapped(s.frames, s.table, s.disk, f, s'.frames[f]);
  }

  lemma TableUnmapped(fs: seq<Frame>, table: map<PageId, FrameId>, f: FrameId, fr: Frame)
    requires TableInv(fs, table) && f < |fs| && fs[f].Resident() && Shaped(fr) && !fr.Resident()
    ensures TableInv(fs[f := fr], table - {fs[f].pageId})
  {
  }

  /** Unmapping a page shows what the disk has for it, and nothing else changes. */
  lemma ViewUnmapped(fs: seq<Frame>, table: map<PageId, FrameId>, disk: map<PageId, Page>, f: FrameId, fr: Frame)
    requires TableInv(fs, table) && f < |fs| && fs[f].Resident() && Shaped(fr) && !fr.Resident()
    ensures TableInv(fs[f := fr], table - {fs[f].pageId})
    ensures View(fs[f := fr], table - {fs[f].pageId}, disk)
            == Reverted(View(fs, table, disk), disk, fs[f].pageId)
  {
    TableUnmapped(fs, table, f, fr);
    var p := fs[f].pageId;
    var v' := View(fs[f := fr], table - {p}, disk);
    var w := Reverted(View(fs, table, disk), disk, p);
    assert v'.Keys == w.Keys;
    forall q | q in v' ensures v'[q] == w[q] {
      if q != p && q in table {
        assert table[q] != f;
      }
    }
  }

  /** The page map `v` with page `p` back to what the disk has. */
  ghost function Reverted(v: map<PageId, Body>, disk: map<PageId, Page>, p: PageId): map<PageId, Body> {
    if p in disk then v[p := disk[p].body] else v - {p}
  }

  /** Page `p` is freed: its frame is emptied and zeroed. */
  function Invalidated(s: Core, p: PageId): Core
    requires p in s.table && s.table[p] < |s.frames| == |s.lsns|
  {
    var f := s.table[p];
    s.(frames := s.frames[f := s.frames[f].(buf := ZERO_PAGE).Reset()], table := s.table - {p},
       lsns := s.lsns[f := {}])
  }

  lemma InvalidatedKeeps(s: Core, p: PageId)
    requires Inv(s) && p in s.table && !s.frames[s.table[p]].IsPinned()
    ensures Inv(Invalidated(s, p))
    ensures Shows(Invalidated(s, p)) == Reverted(Shows(s), s.disk, p)
  {
    var f, s' := s.table[p], Invalidated(s, p);
    UnpinnedHasNoGuard(s.frames, s.guards, s.unflagged, f);
    PinKept(s.frames, s.guards, f, s'.frames[f]);
    DiskKept(s.frames, s.disk, s.unflagged, s.unflagged, f, s'.frames[f]);
    LsnKept(s.frames, s.lsns, f, s'.frames[f], {});
    ViewUnmapped(s.frames, s.table, s.disk, f, s'.frames[f]);
  }

  // ---- write-back

  /** Frame `f` becomes `fr` and its page on disk becomes `page`. */
  function WroteBack(s: Core, f: FrameId, fr: Frame, page: Page): Core
    requires f < |s.frames| == |s.lsns|
  {
    s.(frames := s.frames[f := fr], disk := s.disk[fr.pageId := page],
       lsns := s.lsns[f := if fr.state == Dirty then s.lsns[f] else {}])
  }

  /** A write-back keeps the frame's bytes; if it ends clean, the disk has them too. */
  lemma WroteBackKeeps(s: Core, f: FrameId, fr: Frame, page: Page)
    requires Inv(s) && f < |s.frames| && s.frames[f].Resident() && !s.frames[f].IsPinned()
    requires Shaped(fr) && fr.Resident() && fr.pageId == s.frames[f].pageId && fr.pinCount == s.frames[f].pinCount
    requires fr.buf.body == s.frames[f].buf.body
    requires fr.state == Clean ==> page.body == fr.buf.body && fr.recLsn == NO_LSN
    requires fr.state == Dirty ==> s.frames[f].state == Dirty && fr.recLsn == s.frames[f].recLsn
    ensures Inv(WroteBack(s, f, fr, page)) && Shows(WroteBack(s, f, fr, page)) == Shows(s)
  {
    var s' := WroteBack(s, f, fr, page);
    ViewKept(s.frames, s.table, s.disk, f, fr);
    PinKept(s.frames, s.guards, f, fr);
    LsnKept(s.frames, s.lsns, f, fr, s'.lsns[f]);
    DiskWritten(s.frames, s.table, s.disk, s.unflagged, f, fr, page);
    ViewWritten(s'.frames, s.table, s.disk, fr.pageId, page);
  }

  /** What is on disk for a resident page does not show. */
  lemma ViewWritten(fs: seq<Frame>, table: map<PageId, FrameId>, disk: map<PageId, Page>, p: PageId, page: Page)
    requires TableInv(fs, table) && p in table
    ensures View(fs, table, disk[p := page]) == View(fs, table, disk)
  {
  }

  lemma DiskWritten(fs: seq<Frame>, table: map<PageId, FrameId>, disk: map<PageId, Page>,
                    unflagged: set<PageGuard>, f: FrameId, fr: Frame, page: Page)
    requires TableInv(fs, table) && DiskInv(fs, disk, unflagged) && f < |fs| && fs[f].Resident()
    requires fr.pageId == fs[f].pageId
    requires fr.state == Clean ==> page.body == fr.buf.body
    ensures DiskInv(fs[f := fr], disk[fr.pageId := page], unflagged)
  {
    var disk' := disk[fr.pageId := page];
    forall i | 0 <= i < |fs| && i != f && fs[i].state == Clean && PinsOf(unflagged, i) == {}
      ensures fs[i].pageId in disk' && disk'[fs[i].pageId].body == fs[i].buf.body
    {
      assert fs[i].pageId != fs[f].pageId;
    }
  }

  /** How one write-back (stage in the double-write buffer, write in place, sync) turns out.  A
      failed write or sync leaves arbitrary bytes in place. */
  datatype WriteFate = WriteOk | StageError | WriteError(left: PageId -> Page) | SyncError(left: PageId -> Page)

  /** Rewriting bytes that are already there cannot change them, even when it fails half-way. */
  function Leftover(disk: map<PageId, Page>, written: Page, p: PageId, left: Page): Page {
    if p in disk && disk[p].body == written.body then written else left
  }

  /** The write-back of frame `f`, once it has claimed `io_inflight` and seen no pin.  A stage or
      write error leaves the claim in place; a sync error releases it and leaves the frame as it was. */
  function Flushed(s: Core, f: FrameId, crc: Body -> nat, fate: WriteFate): Core
    requires f < |s.frames| == |s.lsns|
  {
    var fr := s.frames[f].(buf := UpdateChecksum(crc, s.frames[f].buf));
    match fate
    case WriteOk =>
      WroteBack(s, f, fr.(dirty := false, state := Clean, ioInflight := false, recLsn := NO_LSN), fr.buf)
    case StageError => s.(frames := s.frames[f := fr.(ioInflight := true)])
    case WriteError(left) =>
      WroteBack(s, f, fr.(ioInflight := true), Leftover(s.disk, fr.buf, fr.pageId, left(fr.pageId)))
    case SyncError(left) =>
      WroteBack(s, f, fr.(ioInflight := false), Leftover(s.disk, fr.buf, fr.pageId, left(fr.pageId)))
  }

  lemma FlushedKeeps(s: Core, f: FrameId, crc: Body -> nat, fate: WriteFate)
    requires Inv(s) && f < |s.frames| && s.frames[f].pageId != 0 && s.frames[f].Reclaimable()
    ensures |s.lsns| == |s.frames|
    ensures Inv(Flushed(s, f, crc, fate)) && Shows(Flushed(s, f, crc, fate)) == Shows(s)
    ensures SameExcept(s, Flushed(s, f, crc, fate), f)
    ensures var fr, fr' := s.frames[f], Flushed(s, f, crc, fate).frames[f];
            fr'.clockRef == fr.clockRef && fr'.pageId == fr.pageId && fr'.pinCount == fr.pinCount
            && fr'.buf == UpdateChecksum(crc, fr.buf) && fr'.state == (if fate.WriteOk? then Clean else fr.state)
            // A stage or write error leaves the frame claimed; nothing else does.
            && (fr'.ioInflight <==> fate.StageError? || fate.WriteError?)
    ensures BusyKept(s, Flushed(s, f, crc, fate))
  {
    hide Inv, Shows, SameExcept, BusyKept;
    InvShapes(s, f);
    FlushedInv(s, f, crc, fate);
    FlushedElsewhere(s, f, crc, fate);
  }

  lemma FlushedElsewhere(s: Core, f: FrameId, crc: Body -> nat, fate: WriteFate)
    requires Inv(s) && f < |s.frames| == |s.lsns| && s.frames[f].pageId != 0 && s.frames[f].Reclaimable()
    ensures SameExcept(s, Flushed(s, f, crc, fate), f) && BusyKept(s, Flushed(s, f, crc, fate))
  {
    assert Shaped(s.frames[f]);
  }

  lemma FlushedInv(s: Core, f: FrameId, crc: Body -> nat, fate: WriteFate)
    requires Inv(s) && f < |s.frames| == |s.lsns| && s.frames[f].pageId != 0 && s.frames[f].Reclaimable()
    ensures Inv(Flushed(s, f, crc, fate)) && Shows(Flushed(s, f, crc, fate)) == Shows(s)
  {
    assert Shaped(s.frames[f]);
    var fr := s.frames[f].(buf := UpdateChecksum(crc, s.frames[f].buf));
    UnpinnedHasNoGuard(s.frames, s.guards, s.unflagged, f);
    match fate
    case WriteOk =>
      WroteBackKeeps(s, f, fr.(dirty := false, state := Clean, ioInflight := false, recLsn := NO_LSN), fr.buf);
    case StageError => StuckKeeps(s, f, fr.(ioInflight := true));
    case WriteError(left) =>
      WroteBackKeeps(s, f, fr.(ioInflight := true), Leftover(s.disk, fr.buf, fr.pageId, left(fr.pageId)));
    case SyncError(left) =>
      WroteBackKeeps(s, f, fr.(ioInflight := false), Leftover(s.disk, fr.buf, fr.pageId, left(fr.pageId)));
  }

  lemma StuckKeeps(s: Core, f: FrameId, fr: Frame)
    requires Inv(s) && f < |s.frames| && s.frames[f].Resident()
    requires fr == s.frames[f].(buf := fr.buf, ioInflight := fr.ioInflight) && fr.buf.body == s.frames[f].buf.body
    ensures var s' := s.(frames := s.frames[f := fr]); Inv(s') && Shows(s') == Shows(s)
  {
    ViewKept(s.frames, s.table, s.disk, f, fr);
    PinKept(s.frames, s.guards, f, fr);
    DiskKept(s.frames, s.disk, s.unflagged, s.unflagged, f, fr);
    LsnKept(s.frames, s.lsns, f, fr, s.lsns[f]);
    assert s.lsns[f := s.lsns[f]] == s.lsns;
  }

  // ---- loading

  /** An empty frame is reserved for page `p`. */
  function Reserved(s: Core, f: FrameId, p: PageId): Core
    requires f < |s.frames|
  {
    s.(frames := s.frames[f := s.frames[f].Reserve(p)])
  }

  /** A frame that the table does not point at changes to another such frame. */
  lemma UnmappedKeeps(s: Core, f: FrameId, fr: Frame, ls: set<nat>)
    requires Inv(s) && f < |s.frames| && !s.frames[f].Resident()
    requires Shaped(fr) && !fr.Resident() && fr.pinCount == 0
    requires fr.state == Empty ==> ls == {}
    ensures var s' := s.(frames := s.frames[f := fr], lsns := s.lsns[f := ls]);
            Inv(s') && Shows(s') == Shows(s)
  {
    var s' := s.(frames := s.frames[f := fr], lsns := s.lsns[f := ls]);
    assert s.frames[f].pinCount == 0;
    PinKept(s.frames, s.guards, f, fr);
    DiskKept(s.frames, s.disk, s.unflagged, s.unflagged, f, fr);
    LsnKept(s.frames, s.lsns, f, fr, ls);
    ViewApart(s.frames, s.table, s.disk, f, fr);
  }

  lemma ViewApart(fs: seq<Frame>, table: map<PageId, FrameId>, disk: map<PageId, Page>, f: FrameId, fr: Frame)
    requires TableInv(fs, table) && f < |fs| && !fs[f].Resident() && Shaped(fr) && !fr.Resident()
    ensures TableInv(fs[f := fr], table)
    ensures View(fs[f := fr], table, disk) == View(fs, table, disk)
  {
    assert forall p | p in table :: table[p] != f;
  }

  lemma ReservedKeeps(s: Core, f: FrameId, p: PageId)
    requires Inv(s) && f < |s.frames| && s.frames[f].state == Empty
    ensures Inv(Reserved(s, f, p)) && Shows(Reserved(s, f, p)) == Shows(s)
  {
    UnmappedKeeps(s, f, s.frames[f].Reserve(p), s.lsns[f]);
    assert s.lsns[f := s.lsns[f]] == s.lsns;
  }

  /** A reserved frame is given up. */
  function Abandoned(s: Core, f: FrameId): Core
    requires f < |s.frames| == |s.lsns|
  {
    s.(frames := s.frames[f := s.frames[f].Reset()], lsns := s.lsns[f := {}])
  }

  lemma AbandonedKeeps(s: Core, f: FrameId)
    requires Inv(s) && f < |s.frames| && !s.frames[f].Resident()
    ensures Inv(Abandoned(s, f)) && Shows(Abandoned(s, f)) == Shows(s)
  {
    UnmappedKeeps(s, f, s.frames[f].Reset(), {});
  }

  /** The page read into a reserved frame. */
  function Filled(s: Core, f: FrameId, page: Page): Core
    requires f < |s.frames|
  {
    s.(frames := s.frames[f := s.frames[f].(buf := page)])
  }

  lemma FilledKeeps(s: Core, f: FrameId, page: Page)
    requires Inv(s) && f < |s.frames| && s.frames[f].state == Loading
    ensures Inv(Filled(s, f, page)) && Shows(Filled(s, f, page)) == Shows(s)
  {
    UnmappedKeeps(s, f, s.frames[f].(buf := page), s.lsns[f]);
    assert s.lsns[f := s.lsns[f]] == s.lsns;
  }

  /** A filled frame is published in the page table, clean and unpinned. */
  function Published(s: Core, f: FrameId): Core
    requires f < |s.frames| == |s.lsns|
  {
    s.(frames := s.frames[f := s.frames[f].(ioInflight := false, state := Clean, pinCount := 0, clockRef := false)],
       table := s.table[s.frames[f].pageId := f],
       lsns := s.lsns[f := {}])
  }

  lemma PublishedKeeps(s: Core, f: FrameId)
    requires Inv(s) && f < |s.frames| && s.frames[f].state == Loading
    requires var p := s.frames[f].pageId;
             p != 0 && p !in s.table && p in s.disk && s.disk[p] == s.frames[f].buf
    requires s.frames[f].recLsn == NO_LSN
    ensures Inv(Published(s, f)) && Shows(Published(s, f)) == Shows(s)
  {
    var s', p := Published(s, f), s.frames[f].pageId;
    PinKept(s.frames, s.guards, f, s'.frames[f]);
    DiskKept(s.frames, s.disk, s.unflagged, s.unflagged, f, s'.frames[f]);
    LsnKept(s.frames, s.lsns, f, s'.frames[f], {});
    ViewMapped(s.frames, s.table, s.disk, f, s'.frames[f]);
  }

  /** Mapping a page to a frame that holds its disk bytes shows nothing new. */
  lemma ViewMapped(fs: seq<Frame>, table: map<PageId, FrameId>, disk: map<PageId, Page>, f: FrameId, fr: Frame)
    requires TableInv(fs, table) && f < |fs| && !fs[f].Resident() && Shaped(fr) && fr.Resident()
    requires fr.pageId !in table && fr.pageId in disk && disk[fr.pageId] == fr.buf
    ensures TableInv(fs[f := fr], table[fr.pageId := f])
    ensures View(fs[f := fr], table[fr.pageId := f], disk) == View(fs, table, disk)
  {
    assert forall p | p in table :: table[p] != f;
    assert TableInv(fs[f := fr], table[fr.pageId := f]);
  }

  /** A miss: an empty frame reserved for page `p` and filled from disk. */
  function ReadIn(s: Core, f: FrameId, p: PageId): Core
    requires f < |s.frames| && p in s.disk
  {
    Filled(Reserved(s, f, p), f, s.disk[p])
  }

  /** ... and then published and pinned by its first guard. */
  function Loaded(s: Core, f: FrameId, p: PageId, g: PageGuard): Core
    requires f < |s.frames| == |s.lsns| && p in s.disk && g.frameId == f
  {
    Pinned(Published(ReadIn(s, f, p), f), g)
  }

  lemma ReadInKeeps(s: Core, f: FrameId, p: PageId)
    requires Inv(s) && f < |s.frames| && s.frames[f].state == Empty
    ensures |s.lsns| == |s.frames|
    ensures var s' := Abandoned(Reserved(s, f, p), f);
            Inv(s') && Shows(s') == Shows(s) && SameExcept(s, s', f) && Frozen(s, s') && BusyKept(s, s') && s'.table == s.table
    ensures p in s.disk ==>
              var s' := Abandoned(ReadIn(s, f, p), f);
              Inv(s') && Shows(s') == Shows(s) && SameExcept(s, s', f) && Frozen(s, s') && BusyKept(s, s') && s'.table == s.table
  {
    ReservedKeeps(s, f, p);
    AbandonedKeeps(Reserved(s, f, p), f);
    if p in s.disk {
      ReadThenAbandoned(s, f, p);
    }
  }

  lemma ReadThenAbandoned(s: Core, f: FrameId, p: PageId)
    requires Inv(s) && f < |s.frames| && s.frames[f].state == Empty && p in s.disk && |s.lsns| == |s.frames|
    ensures var s' := Abandoned(ReadIn(s, f, p), f);
            Inv(s') && Shows(s') == Shows(s) && SameExcept(s, s', f) && Frozen(s, s') && BusyKept(s, s') && s'.table == s.table
  {
    ReservedKeeps(s, f, p);
    FilledKeeps(Reserved(s, f, p), f, s.disk[p]);
    AbandonedKeeps(ReadIn(s, f, p), f);
  }

  lemma LoadedKeeps(s: Core, f: FrameId, p: PageId, g: PageGuard)
    requires Inv(s) && f < |s.frames| && s.frames[f].state == Empty
    requires p != 0 && p !in s.table && p in s.disk
    requires g !in s.guards && g.frameId == f && g.pageId == p
    ensures |s.lsns| == |s.frames|
    ensures var s' := Loaded(s, f, p, g);
            Inv(s') && Shows(s') == Shows(s) && p in Shows(s) && Frozen(s, s') && BusyKept(s, s')
            && s'.guards == s.guards + {g} && s'.unflagged == s.unflagged
            && s'.table == s.table[p := f] && f < |s'.frames| && JustLoaded(s'.frames[f], p, s.disk[p])
  {
    LoadedShows(s, f, p, g);
    hide Inv, Shows;
  }

  lemma LoadedShows(s: Core, f: FrameId, p: PageId, g: PageGuard)
    requires Inv(s) && f < |s.frames| && s.frames[f].state == Empty
    requires p != 0 && p !in s.table && p in s.disk
    requires g !in s.guards && g.frameId == f && g.pageId == p
    ensures |s.lsns| == |s.frames|
    ensures var s' := Loaded(s, f, p, g); Inv(s') && Shows(s') == Shows(s) && p in Shows(s)
  {
    ReservedKeeps(s, f, p);
    FilledKeeps(Reserved(s, f, p), f, s.disk[p]);
    PublishedKeeps(ReadIn(s, f, p), f);
    PinnedKeeps(Published(ReadIn(s, f, p), f), g);
  }

  // ---- prefetch

  /** The frames reserved for the pages of `fill`, from the `k`-th on: distinct, still loading,
      each for its own page, none of which the table has. */
  ghost predicate Pending(s: Core, fill: seq<(FrameId, PageId)>, k: nat) {
    && (forall i | k <= i < |fill| ::
          var f, p := fill[i].0, fill[i].1;
          f < |s.frames| && s.frames[f].state == Loading && s.frames[f].pageId == p && s.frames[f].recLsn == NO_LSN
          && p != 0 && p !in s.table)
    && (forall i, j | k <= i < j < |fill| :: fill[i].0 != fill[j].0 && fill[i].1 != fill[j].1)
  }

  /** Each of those frames holds its own page's disk bytes, from the `i`-th up to the `j`-th. */
  ghost predicate HoldsOwnPage(s: Core, fill: seq<(FrameId, PageId)>, i: nat, j: nat) {
    forall k | i <= k < j && k < |fill| ::
      var f, p := fill[k].0, fill[k].1;
      f < |s.frames| && p in s.disk && s.frames[f].buf == s.disk[p]
  }

  /** Only frame `f` changes, and nothing on disk. */
  ghost predicate OnlyFrame(s: Core, s': Core, f: FrameId) {
    && |s'.frames| == |s.frames| && s'.disk == s.disk
    && forall i | 0 <= i < |s.frames| && i != f :: s'.frames[i] == s.frames[i]
  }

  /** Only the frames of `fill` change, and nothing on disk. */
  ghost predicate OnlyReserved(s: Core, s': Core, fill: seq<(FrameId, PageId)>) {
    && |s'.frames| == |s.frames| && s'.disk == s.disk
    && forall f | 0 <= f < |s.frames| && (forall k | 0 <= k < |fill| :: fill[k].0 != f) :: s'.frames[f] == s.frames[f]
  }

  /** The frames of `fill` had no I/O in flight. */
  ghost predicate WereIdle(s: Core, fill: seq<(FrameId, PageId)>) {
    forall k | 0 <= k < |fill| :: fill[k].0 < |s.frames| && !s.frames[fill[k].0].ioInflight
  }

  lemma ReservedStart(s: Core, fill: seq<(FrameId, PageId)>)
    ensures OnlyReserved(s, s, fill) && WereIdle(s, [])
  {
  }

  lemma ReservedStep(s0: Core, s: Core, s': Core, fill: seq<(FrameId, PageId)>, k: nat)
    requires OnlyReserved(s0, s, fill) && k < |fill| && OnlyFrame(s, s', fill[k].0)
    ensures OnlyReserved(s0, s', fill)
  {
  }

  /** Reserving an empty frame touches no frame that was busy. */
  lemma ReservedBusy(s0: Core, s: Core, fill: seq<(FrameId, PageId)>, f: FrameId, p: PageId)
    requires Inv(s) && BusyKept(s0, s) && WereIdle(s0, fill) && f < |s.frames| && s.frames[f].state == Empty
    ensures BusyKept(s0, Reserved(s, f, p)) && WereIdle(s0, fill + [(f, p)])
  {
    assert Shaped(s.frames[f]);
  }

  lemma BusyAround(s0: Core, s1: Core, s2: Core, fill: seq<(FrameId, PageId)>)
    requires BusyKept(s0, s1) && WereIdle(s0, fill) && OnlyReserved(s1, s2, fill)
    ensures BusyKept(s0, s2)
  {
  }

  lemma PendingNone(s: Core)
    ensures Pending(s, [], 0)
  {
  }

  lemma HoldsNone(s: Core, fill: seq<(FrameId, PageId)>)
    ensures HoldsOwnPage(s, fill, 0, 0)
  {
  }

  lemma PendingReserved(s: Core, fill: seq<(FrameId, PageId)>, f: FrameId, p: PageId)
    requires Inv(s) && Pending(s, fill, 0) && f < |s.frames| && s.frames[f].state == Empty
    requires p != 0 && p !in s.table && forall i | 0 <= i < |fill| :: fill[i].1 != p
    ensures Inv(Reserved(s, f, p)) && Shows(Reserved(s, f, p)) == Shows(s)
    ensures Pending(Reserved(s, f, p), fill + [(f, p)], 0)
    ensures SameExcept(s, Reserved(s, f, p), f) && Frozen(s, Reserved(s, f, p))
  {
    ReservedKeeps(s, f, p);
  }

  lemma PendingFilled(s: Core, fill: seq<(FrameId, PageId)>, k: nat)
    requires Inv(s) && Pending(s, fill, 0) && HoldsOwnPage(s, fill, 0, k)
    requires k < |fill| && fill[k].1 in s.disk
    ensures fill[k].0 < |s.frames|
    ensures var s' := Filled(s, fill[k].0, s.disk[fill[k].1]);
            Inv(s') && Shows(s') == Shows(s) && Pending(s', fill, 0) && HoldsOwnPage(s', fill, 0, k + 1)
            && SameExcept(s, s', fill[k].0) && Frozen(s, s') && OnlyFrame(s, s', fill[k].0)
  {
    FilledKeeps(s, fill[k].0, s.disk[fill[k].1]);
  }

  lemma PendingPublished(s: Core, fill: seq<(FrameId, PageId)>, k: nat)
    requires Inv(s) && Pending(s, fill, k) && HoldsOwnPage(s, fill, k, |fill|) && k < |fill|
    ensures fill[k].0 < |s.frames| == |s.lsns|
    ensures var s' := Published(s, fill[k].0);
            Inv(s') && Shows(s') == Shows(s) && Pending(s', fill, k + 1) && HoldsOwnPage(s', fill, k + 1, |fill|)
            && s'.guards == s.guards && s'.unflagged == s.unflagged && Frozen(s, s') && OnlyFrame(s, s', fill[k].0)
  {
    PublishedKeeps(s, fill[k].0);
  }

  lemma PendingAbandoned(s: Core, fill: seq<(FrameId, PageId)>, k: nat)
    requires Inv(s) && Pending(s, fill, k) && HoldsOwnPage(s, fill, k, |fill|) && k < |fill|
    ensures fill[k].0 < |s.frames| == |s.lsns|
    ensures var s' := Abandoned(s, fill[k].0);
            Inv(s') && Shows(s') == Shows(s) && Pending(s', fill, k + 1) && HoldsOwnPage(s', fill, k + 1, |fill|)
            && s'.guards == s.guards && s'.unflagged == s.unflagged && Frozen(s, s') && OnlyFrame(s, s', fill[k].0)
  {
    AbandonedKeeps(s, fill[k].0);
  }

  /** Page `p` on disk is intact and is that page. */
  predicate IntactOnDisk(crc: Body -> nat, disk: map<PageId, Page>, p: PageId) {
    p in disk && VerifyChecksum(crc, disk[p]) && disk[p].body.pageId == p
  }

  /** Of the first `k` reserved frames, those with an intact page are mapped to it, clean and unpinned; the
      others are empty, and their pages not mapped. */
  ghost predicate Settled(crc: Body -> nat, s: Core, fill: seq<(FrameId, PageId)>, k: nat) {
    forall i | 0 <= i < k && i < |fill| ::
      var f, p := fill[i].0, fill[i].1;
      && f < |s.frames|
      && if IntactOnDisk(crc, s.disk, p)
         then p in s.table && s.table[p] == f && s.frames[f].state == Clean && s.frames[f].Reclaimable() && s.frames[f].buf == s.disk[p]
         else p !in s.table && s.frames[f].state == Empty
  }

  /** Page `p` is one of those reserved for. */
  ghost predicate Fetches(fill: seq<(FrameId, PageId)>, p: PageId) {
    exists i | 0 <= i < |fill| :: fill[i].1 == p
  }

  /** Nothing but the pages of `fill` joined the table. */
  ghost predicate Joined(s0: Core, s: Core, fill: seq<(FrameId, PageId)>) {
    forall p | p in s.table && p !in s0.table :: Fetches(fill, p)
  }

  ghost predicate EntriesKept(s0: Core, s: Core) {
    forall p | p in s0.table :: p in s.table && s.table[p] == s0.table[p]
  }

  lemma SettledNone(crc: Body -> nat, s: Core, fill: seq<(FrameId, PageId)>)
    ensures Settled(crc, s, fill, 0) && Joined(s, s, fill) && EntriesKept(s, s)
  {
  }

  lemma JoinedMore(s0: Core, s1: Core, s2: Core, s3: Core, fill: seq<(FrameId, PageId)>)
    requires s1.table.Keys <= s0.table.Keys && s2.table == s1.table && Joined(s2, s3, fill)
    ensures Joined(s0, s3, fill)
  {
  }

  /** Nothing but pages of the range joined the table. */
  ghost predicate JoinedWithin(s0: Core, s: Core, start: PageId, count: nat) {
    forall p | p in s.table && p !in s0.table :: start <= p < start + count && p != 0
  }

  lemma JoinedChosen(s0: Core, s: Core, fill: seq<(FrameId, PageId)>, start: PageId, upto: nat, count: nat, budget: nat)
    requires Joined(s0, s, fill) && Chosen(s0, fill, start, upto, budget) && upto <= count
    ensures JoinedWithin(s0, s, start, count)
  {
    forall p | p in s.table && p !in s0.table ensures start <= p < start + count && p != 0 {
      assert Fetches(fill, p);
    }
  }

  /** A frame that holds a page just read: clean, idle, with one pin, referenced. */
  predicate JustLoaded(fr: Frame, page: PageId, bytes: Page) {
    && fr.pageId == page && fr.buf == bytes && fr.state == Clean && !fr.dirty && !fr.ioInflight
    && fr.pinCount == 1 && fr.clockRef && fr.recLsn == NO_LSN
  }

  /** The reserved frames are distinct, and so are their pages. */
  ghost predicate DistinctFill(fill: seq<(FrameId, PageId)>) {
    forall i, j | 0 <= i < j < |fill| :: fill[i].0 != fill[j].0 && fill[i].1 != fill[j].1
  }

  lemma PendingDistinct(s: Core, fill: seq<(FrameId, PageId)>)
    requires Pending(s, fill, 0)
    ensures DistinctFill(fill)
  {
  }

  lemma SettledPublished(crc: Body -> nat, s0: Core, s: Core, fill: seq<(FrameId, PageId)>, k: nat)
    requires Settled(crc, s, fill, k) && Joined(s0, s, fill) && EntriesKept(s0, s)
    requires Pending(s, fill, k) && HoldsOwnPage(s, fill, k, |fill|)
    requires k < |fill| && DistinctFill(fill) && fill[k].0 < |s.frames| == |s.lsns|
    requires VerifyChecksum(crc, s.frames[fill[k].0].buf) && s.frames[fill[k].0].buf.body.pageId == fill[k].1
    ensures var s' := Published(s, fill[k].0); Settled(crc, s', fill, k + 1) && Joined(s0, s', fill) && EntriesKept(s0, s')
  {
    assert Fetches(fill, fill[k].1);
  }

  lemma SettledAbandoned(crc: Body -> nat, s0: Core, s: Core, fill: seq<(FrameId, PageId)>, k: nat)
    requires Settled(crc, s, fill, k) && Joined(s0, s, fill) && EntriesKept(s0, s)
    requires Pending(s, fill, k) && HoldsOwnPage(s, fill, k, |fill|)
    requires k < |fill| && DistinctFill(fill) && fill[k].0 < |s.frames| == |s.lsns|
    requires !(VerifyChecksum(crc, s.frames[fill[k].0].buf) && s.frames[fill[k].0].buf.body.pageId == fill[k].1)
    ensures var s' := Abandoned(s, fill[k].0); Settled(crc, s', fill, k + 1) && Joined(s0, s', fill) && EntriesKept(s0, s')
  {
  }

  lemma CarefulPublished(crc: Body -> nat, s: Core, fill: seq<(FrameId, PageId)>, k: nat)
    requires Inv(s) && Pending(s, fill, k) && k < |fill| && fill[k].0 < |s.frames| == |s.lsns|
    ensures VerifyChecksum(crc, s.frames[fill[k].0].buf) ==> Careful(crc, s, Published(s, fill[k].0), [])
    ensures Careful(crc, s, Abandoned(s, fill[k].0), [])
  {
    assert forall q | q in s.table :: s.table[q] != fill[k].0;
  }

  /** After publishing, no reserved frame is still loading. */
  lemma CarefulSettled(crc: Body -> nat, s0: Core, s2: Core, s3: Core, fill: seq<(FrameId, PageId)>)
    requires Careful(crc, s0, s2, fill) && Careful(crc, s2, s3, []) && Settled(crc, s3, fill, |fill|)
    ensures Careful(crc, s0, s3, [])
  {
    CarefulMore(crc, s0, s2, s3, fill);
  }

  lemma CarefulFilled(crc: Body -> nat, s: Core, fill: seq<(FrameId, PageId)>, k: nat, page: Page)
    requires Inv(s) && Pending(s, fill, 0) && k < |fill| && fill[k].0 < |s.frames|
    ensures Careful(crc, s, Filled(s, fill[k].0, page), [])
  {
    assert forall q | q in s.table :: s.table[q] != fill[k].0;
  }

  /** Which pages of a range get a frame: the first that the table does not have, in order, until the budget is
      spent or no frame is free. */
  ghost predicate Chosen(s0: Core, fill: seq<(FrameId, PageId)>, start: PageId, upto: nat, budget: nat) {
    && |fill| <= budget
    && (forall i | 0 <= i < |fill| :: start <= fill[i].1 < start + upto && fill[i].1 != 0)
    && (forall i, j | 0 <= i < j < |fill| :: fill[i].1 < fill[j].1)
    && (forall p | start <= p < start + upto && p != 0 && p !in s0.table :: exists i :: 0 <= i < |fill| && fill[i].1 == p)
  }

  /** No frame is free but those reserved. */
  ghost predicate NoneEmpty(s: Core, fill: seq<(FrameId, PageId)>) {
    forall f | 0 <= f < |s.frames| && s.frames[f].state == Empty :: Reserves(fill, f)
  }

  lemma NoneEmptyLater(s1: Core, s2: Core, s3: Core, fill: seq<(FrameId, PageId)>)
    requires NoneEmpty(s1, []) && OnlyReserved(s1, s2, fill) && OnlyReserved(s2, s3, fill)
    ensures NoneEmpty(s3, fill)
  {
  }

  /** After a sweep that found nothing. */
  lemma NoneEmptySwept(s: Core)
    requires Inv(s) && forall f | 0 <= f < |s.frames| && s.frames[f].Reclaimable() :: s.frames[f].state == Clean
    ensures NoneEmpty(s, [])
  {
  }

  lemma ChosenNone(s: Core, start: PageId, budget: nat)
    ensures Chosen(s, [], start, 0, budget)
  {
  }

  lemma ChosenMore(s0: Core, fill: seq<(FrameId, PageId)>, start: PageId, i: nat, budget: nat, f: FrameId)
    requires Chosen(s0, fill, start, i, budget) && |fill| < budget
    ensures start + i == 0 || start + i in s0.table ==> Chosen(s0, fill, start, i + 1, budget)
    ensures start + i != 0 ==> Chosen(s0, fill + [(f, start + i)], start, i + 1, budget)
  {
    var p := start + i;
    var more := fill + [(f, p)];
    forall q | start <= q < start + i + 1 && q != 0 && q !in s0.table ensures exists j :: 0 <= j < |more| && more[j].1 == q {
      if q == p {
        assert more[|fill|].1 == q;
      } else {
        var j :| 0 <= j < |fill| && fill[j].1 == q;
        assert more[j].1 == q;
      }
    }
  }

  /** A sweep leaves reserved frames alone. */
  lemma PendingSwept(s: Core, s': Core, fill: seq<(FrameId, PageId)>)
    requires Inv(s) && Pending(s, fill, 0) && |s'.frames| == |s.frames| && s'.table.Keys <= s.table.Keys
    requires forall f | 0 <= f < |s.frames| && !s.frames[f].Reclaimable() :: s'.frames[f] == s.frames[f]
    ensures Pending(s', fill, 0)
  {
  }

  /** Where the reservation of a range stands: `fill` is reserved, for the pages chosen among the first `i`. */
  ghost predicate Reserving(crc: Body -> nat, s0: Core, s: Core, fill: seq<(FrameId, PageId)>, start: PageId, i: nat, budget: nat) {
    && Pending(s, fill, 0) && BusyKept(s0, s) && WereIdle(s0, fill) && Careful(crc, s0, s, fill)
    && Chosen(s0, fill, start, i, budget) && s.table.Keys <= s0.table.Keys
  }

  lemma ReservingNone(crc: Body -> nat, s: Core, start: PageId, budget: nat)
    ensures Reserving(crc, s, s, [], start, 0, budget)
  {
    BusyRefl(s);
  }

  lemma ReservingBusy(crc: Body -> nat, s0: Core, s: Core, fill: seq<(FrameId, PageId)>, start: PageId, i: nat, budget: nat)
    requires Reserving(crc, s0, s, fill, start, i, budget)
    ensures BusyKept(s0, s) && Vouched(crc, s0, s)
  {
    hide BusyKept, Vouched, Chosen, Pending, WereIdle;
  }

  lemma ReservingSkips(crc: Body -> nat, s0: Core, s: Core, fill: seq<(FrameId, PageId)>, start: PageId, i: nat, budget: nat)
    requires Reserving(crc, s0, s, fill, start, i, budget) && |fill| < budget && (start + i == 0 || start + i in s.table)
    ensures Reserving(crc, s0, s, fill, start, i + 1, budget)
  {
    hide Pending, BusyKept, WereIdle, Careful, Chosen;
    ChosenMore(s0, fill, start, i, budget, 0);
  }

  lemma ReservingSwept(crc: Body -> nat, s0: Core, s: Core, s': Core, fill: seq<(FrameId, PageId)>, start: PageId, i: nat, budget: nat)
    requires Inv(s) && Reserving(crc, s0, s, fill, start, i, budget)
    requires BusyKept(s, s') && Careful(crc, s, s', []) && s'.table.Keys <= s.table.Keys
    requires forall f | 0 <= f < |s.frames| && !s.frames[f].Reclaimable() :: s'.frames[f] == s.frames[f]
    ensures Reserving(crc, s0, s', fill, start, i, budget)
  {
    hide Inv, Pending, WereIdle, Careful, Chosen;
    BusyMore(s0, s, s');
    PendingSwept(s, s', fill);
    CarefulMore(crc, s0, s, s', fill);
  }

  lemma ReservingMore(crc: Body -> nat, s0: Core, s: Core, fill: seq<(FrameId, PageId)>, start: PageId, i: nat, budget: nat, f: FrameId)
    requires Inv(s) && Reserving(crc, s0, s, fill, start, i, budget) && |fill| < budget
    requires f < |s.frames| && s.frames[f].state == Empty && start + i != 0 && start + i !in s.table
    ensures var p, s' := start + i, Reserved(s, f, start + i);
            && Inv(s') && Shows(s') == Shows(s) && SameExcept(s, s', f) && Frozen(s, s')
            && Reserving(crc, s0, s', fill + [(f, p)], start, i + 1, budget)
  {
    hide Inv, Pending, BusyKept, WereIdle, Careful, Chosen, Shows;
    ChosenBelow(s0, fill, start, i, budget);
    PendingReserved(s, fill, f, start + i);
    ReservedBusy(s0, s, fill, f, start + i);
    CarefulReserved(crc, s0, s, fill, f, start + i);
    ChosenMore(s0, fill, start, i, budget, f);
  }

  lemma ChosenBelow(s0: Core, fill: seq<(FrameId, PageId)>, start: PageId, i: nat, budget: nat)
    requires Chosen(s0, fill, start, i, budget)
    ensures forall k | 0 <= k < |fill| :: fill[k].1 != start + i
  {
  }
}
