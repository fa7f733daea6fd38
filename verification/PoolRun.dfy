/** Whole runs of the pool: any sequence of operations, under any faults, is explained by a
    flat page map. */
module PoolRun {
  import opened Frames
  import opened PoolState
  import opened Pool
  import opened FlushSteps
  import opened Flusher

  /** One operation; `slot` names one of the guards held so far. */
  datatype Op =
    | Fix(page: PageId, readahead: Option<PageId>)
    | Write(slot: nat, bytes: Page)
    | SetDirty(slot: nat, lsn: nat)
    | Show(slot: nat)
    | Drop(slot: nat)
    | Prefetch(start: PageId, count: nat)
    | FlushOne(frame: FrameId)
    | FlushEvery
    | FlushSome(durable: nat)
    | Free(page: PageId)

  /** What the outside sees of one operation. */
  datatype Event =
    | Silent
    | Fixed(page: PageId)
    | Declined(error: IoError)
    | Wrote(page: PageId, body: Body)
    | Showed(page: PageId, body: Body)
    | Freed(page: PageId, now: Option<Body>)

  /** The flat page map after an event. */
  ghost function After(m: map<PageId, Body>, e: Event): map<PageId, Body> {
    match e
    case Wrote(p, b) => m[p := b]
    case Freed(p, Some(b)) => m[p := b]
    case Freed(p, None) => m - {p}
    case _ => m
  }

  /** The flat page map allows the event: a guard shows exactly the map's bytes. */
  ghost predicate Allows(m: map<PageId, Body>, e: Event) {
    match e
    case Fixed(p) => p in m
    case Wrote(p, _) => p in m
    case Showed(p, b) => p in m && m[p] == b
    case _ => true
  }

  ghost function AfterAll(m: map<PageId, Body>, events: seq<Event>): map<PageId, Body>
    decreases |events|
  {
    if events == [] then m else AfterAll(After(m, events[0]), events[1..])
  }

  ghost predicate AllowsAll(m: map<PageId, Body>, events: seq<Event>)
    decreases |events|
  {
    events != [] ==> Allows(m, events[0]) && AllowsAll(After(m, events[0]), events[1..])
  }

  lemma {:induction false} RunAppend(m: map<PageId, Body>, events: seq<Event>, e: Event)
    ensures AfterAll(m, events + [e]) == After(AfterAll(m, events), e)
    ensures AllowsAll(m, events + [e]) <==> AllowsAll(m, events) && Allows(AfterAll(m, events), e)
    decreases |events|
  {
    if events == [] {
      assert events + [e] == [e] && [e][1..] == [];
    } else {
      assert (events + [e])[1..] == events[1..] + [e];
      RunAppend(After(m, events[0]), events[1..], e);
    }
  }

  /** In a run that only the flat map explains, a shown page has the bytes of the last write to it,
      or those it started with. */
  lemma {:induction false} LastWriteShows(m: map<PageId, Body>, events: seq<Event>, p: PageId)
    requires p in m && forall i | 0 <= i < |events| :: !(events[i].Freed? && events[i].page == p)
    ensures p in AfterAll(m, events)
    ensures (forall i | 0 <= i < |events| :: !(events[i].Wrote? && events[i].page == p)) ==> AfterAll(m, events)[p] == m[p]
    ensures forall i | 0 <= i < |events| && events[i].Wrote? && events[i].page == p
              && (forall j | i < j < |events| :: !(events[j].Wrote? && events[j].page == p)) ::
              AfterAll(m, events)[p] == events[i].body
    decreases |events|
  {
    if events != [] {
      var m', rest := After(m, events[0]), events[1..];
      assert forall i | 0 <= i < |rest| :: rest[i] == events[i + 1];
      LastWriteShows(m', rest, p);
      forall i | 0 <= i < |events| && events[i].Wrote? && events[i].page == p
                 && (forall j | i < j < |events| :: !(events[j].Wrote? && events[j].page == p))
        ensures AfterAll(m, events)[p] == events[i].body
      {
        if i > 0 {
          assert rest[i - 1] == events[i];
        }
      }
    }
  }

  /** The pages with a change that is not on disk. */
  ghost function DirtyPages(s: Core): set<PageId>
    requires Inv(s)
  {
    set p | p in s.table && s.frames[s.table[p]].state == Dirty
  }

  lemma FrozenKeepsDirty(s: Core, s': Core)
    requires Inv(s) && Inv(s') && Frozen(s, s')
    ensures DirtyPages(s) <= DirtyPages(s')
  {
  }

  /** The guards the run holds are the pool's live guards, each once. */
  ghost predicate Holds(held: seq<PageGuard>, guards: set<PageGuard>) {
    && (forall g | g in held :: g in guards)
    && (forall g | g in guards :: g in held)
    && (forall i, j | 0 <= i < j < |held| :: held[i] != held[j])
  }

  /** What storage failure forbids from then on: nothing more reaches the disk, and no page stops
      being dirty except by being freed. */
  ghost predicate Poisoned(s: Core, s': Core, freed: set<PageId>)
    requires Inv(s) && Inv(s')
  {
    s'.disk == s.disk && DirtyPages(s) <= DirtyPages(s') + freed
  }

  ghost function FreedBy(e: Event): set<PageId> {
    if e.Freed? then {e.page} else {}
  }

  function RemoveAt(held: seq<PageGuard>, i: nat): seq<PageGuard>
    requires i < |held|
  {
    held[..i] + held[i + 1..]
  }

  lemma HoldsRemove(held: seq<PageGuard>, guards: set<PageGuard>, i: nat)
    requires Holds(held, guards) && i < |held|
    ensures Holds(RemoveAt(held, i), guards - {held[i]})
  {
    var r := RemoveAt(held, i);
    forall j | 0 <= j < |r| ensures r[j] == if j < i then held[j] else held[j + 1] {}
    forall g | g in guards - {held[i]} ensures g in r {
      var j :| 0 <= j < |held| && held[j] == g;
      if j < i {
        assert r[j] == g;
      } else {
        assert r[j - 1] == g;
      }
    }
  }

  lemma HoldsAdd(held: seq<PageGuard>, guards: set<PageGuard>, g: PageGuard)
    requires Holds(held, guards) && g !in guards
    ensures Holds(held + [g], guards + {g})
  {
  }

  /** An operation on one of the guards held. */
  method GuardStep(pool: BufferPool, op: Op, held: seq<PageGuard>) returns (e: Event, held': seq<PageGuard>)
    requires pool.Valid() && Holds(held, pool.s.guards)
    requires (op.Write? || op.SetDirty? || op.Show? || op.Drop?) && op.slot < |held|
    modifies pool
    ensures pool.Valid() && Holds(held', pool.s.guards)
    ensures Allows(old(Shows(pool.s)), e) && Shows(pool.s) == After(old(Shows(pool.s)), e)
    ensures pool.ioFailed == old(pool.ioFailed) && Poisoned(old(pool.s), pool.s, FreedBy(e))
    ensures StuckKept(old(pool.s), pool.s)
  {
    hide Inv, Shows, Holds, GhostInv, StuckKept;
    var g := held[op.slot];
    held' := held;
    e := Silent;
    SlotLive(held, pool.s, op.slot);
    match op
    case Write(_, bytes) =>
      if !pool.s.frames[g.frameId].ioInflight {
        pool.Write(g, bytes);
        WrittenDirty(old(pool.s), g, bytes);
        e := Wrote(g.pageId, bytes.body);
      }
    case SetDirty(_, lsn) =>
      if lsn <= NO_LSN {
        pool.SetDirty(g, lsn);
        DirtiedDirty(old(pool.s), g, lsn);
      }
    case Show(_) =>
      var page := pool.Read(g);
      e := Showed(g.pageId, page.body);
    case Drop(_) =>
      var flagged := Flagged(pool, g);
      if flagged {
        HoldsRemove(held, pool.s.guards, op.slot);
        pool.Unfix(g);
        UnpinnedDirty(old(pool.s), g);
        held' := RemoveAt(held, op.slot);
      }
  }

  /** The writer's side of the contract: no write is left without its `set_dirty`. */
  method Flagged(pool: BufferPool, g: PageGuard) returns (ok: bool)
    ensures ok <==> g !in pool.s.unflagged
  {
    ok := g !in pool.s.unflagged;
  }

  lemma SlotLive(held: seq<PageGuard>, s: Core, slot: nat)
    requires Inv(s) && Holds(held, s.guards) && slot < |held|
    ensures held[slot] in s.guards && held[slot].frameId < |s.frames| == |s.lsns| && held[slot].pageId in Shows(s)
    ensures Poisoned(s, s, {}) && StuckKept(s, s)
  {
  }

  lemma WrittenDirty(s: Core, g: PageGuard, page: Page)
    requires Inv(s) && g in s.guards && Inv(PoolState.Written(s, g, page)) && !s.frames[g.frameId].ioInflight
    ensures Poisoned(s, PoolState.Written(s, g, page), {}) && StuckKept(s, PoolState.Written(s, g, page))
  {
  }

  lemma DirtiedDirty(s: Core, g: PageGuard, lsn: nat)
    requires Inv(s) && g in s.guards && Inv(Dirtied(s, g, lsn))
    ensures Poisoned(s, Dirtied(s, g, lsn), {}) && StuckKept(s, Dirtied(s, g, lsn))
  {
  }

  lemma UnpinnedDirty(s: Core, g: PageGuard)
    requires Inv(s) && g in s.guards && Inv(Unpinned(s, g))
    ensures Poisoned(s, Unpinned(s, g), {}) && StuckKept(s, Unpinned(s, g))
  {
  }

  /** An operation that no guard is behind. */
  method PoolStep(pool: BufferPool, op: Op, held: seq<PageGuard>) returns (e: Event, held': seq<PageGuard>)
    requires pool.Valid() && Holds(held, pool.s.guards)
    requires !(op.Write? || op.SetDirty? || op.Show? || op.Drop?)
    modifies pool
    ensures pool.Valid() && Holds(held', pool.s.guards)
    ensures Allows(old(Shows(pool.s)), e) && Shows(pool.s) == After(old(Shows(pool.s)), e)
    ensures old(pool.ioFailed) ==> pool.ioFailed && Poisoned(old(pool.s), pool.s, FreedBy(e))
    ensures StuckKept(old(pool.s), pool.s)
  {
    hide Inv, Shows, Holds, GhostInv, Frozen, Poisoned, Flushed, BusyKept, StuckKept;
    held' := held;
    e := Silent;
    BusyRefl(pool.s);
    match op {
    case Fix(page, readahead) =>
      e, held' := FixStep(pool, page, readahead, held);
    case Prefetch(start, count) =>
      var _, _, _ := pool.PrefetchRange(start, count);
    case FlushOne(frame) =>
      if frame < |pool.s.frames| {
        var before := pool.Flushable(frame);
        if before {
          FlushedKeeps(pool.s, frame, pool.crc, pool.writeFate(pool.writeCount));
        }
        var _ := pool.FlushSingleFrame(frame);
      }
    case FlushEvery =>
      var _ := pool.FlushAll();
    case FlushSome(durable) =>
      var candidates := pool.DirtyCandidates();
      var _, _, _ := FlushBatch(pool, candidates, durable);
    case Free(page) =>
      e, held' := FreeStep(pool, page, held);
    }
    if !op.Fix? && !op.Free? {
      BusyIsStuck(old(pool.s), pool.s);
    }
    if old(pool.ioFailed) && !e.Freed? {
      FrozenRefl(pool.s);
      FrozenPoisoned(old(pool.s), pool.s);
    }
  }

  /** `fix_page`, unless the frame's pin counter is about to wrap. */
  method FixStep(pool: BufferPool, page: PageId, readahead: Option<PageId>, held: seq<PageGuard>)
    returns (e: Event, held': seq<PageGuard>)
    requires pool.Valid() && Holds(held, pool.s.guards)
    modifies pool
    ensures pool.Valid() && Holds(held', pool.s.guards) && StuckKept(old(pool.s), pool.s)
    ensures Allows(old(Shows(pool.s)), e) && Shows(pool.s) == After(old(Shows(pool.s)), e) && !e.Freed?
    ensures old(pool.ioFailed) ==> pool.ioFailed && Frozen(old(pool.s), pool.s)
  {
    hide Inv, Shows, Holds, GhostInv, Frozen, StuckKept;
    held' := held;
    e := Silent;
    FrozenRefl(pool.s);
    TableShapes(pool.s, page);
    if page in pool.s.table && pool.s.frames[pool.s.table[page]].pinCount + 1 == PIN_MODULUS {
      return;
    }
    var r := pool.FixPage(page, readahead);
    match r
    case Ok(g) =>
      HoldsAdd(held, old(pool.s.guards), g);
      e, held' := Fixed(page), held + [g];
    case Err(error) => e := Declined(error);
  }

  lemma FrozenRefl(s: Core)
    ensures Frozen(s, s) && StuckKept(s, s)
  {
  }

  lemma FrozenPoisoned(s: Core, s': Core)
    requires Inv(s) && Inv(s') && Frozen(s, s')
    ensures Poisoned(s, s', {})
  {
    FrozenKeepsDirty(s, s');
  }

  method FreeStep(pool: BufferPool, page: PageId, held: seq<PageGuard>) returns (e: Event, held': seq<PageGuard>)
    requires pool.Valid() && Holds(held, pool.s.guards)
    modifies pool
    ensures pool.Valid() && Holds(held', pool.s.guards) && pool.ioFailed == old(pool.ioFailed)
    ensures Shows(pool.s) == After(old(Shows(pool.s)), e)
    ensures e == Silent ==> pool.s == old(pool.s)
    ensures e.Silent? || (e.Freed? && Poisoned(old(pool.s), pool.s, FreedBy(e)))
    ensures StuckKept(old(pool.s), pool.s)
  {
    hide Inv, Shows, Holds, GhostInv, Poisoned, Invalidated, StuckKept;
    held' := held;
    e := Silent;
    FrozenRefl(pool.s);
    TableShapes(pool.s, page);
    if page in pool.s.table && pool.s.frames[pool.s.table[page]].Reclaimable() {
      pool.Invalidate(page);
      InvalidatedDirty(old(pool.s), page);
      e := Freed(page, if page in pool.s.disk then Some(pool.s.disk[page].body) else None);
    }
  }

  lemma TableShapes(s: Core, p: PageId)
    requires Inv(s)
    ensures |s.lsns| == |s.frames|
    ensures p in s.table ==> s.table[p] < |s.frames| && Invalidated(s, p).disk == s.disk && Invalidated(s, p).guards == s.guards
  {
  }

  lemma InvalidatedDirty(s: Core, p: PageId)
    requires Inv(s) && p in s.table && |s.lsns| == |s.frames| && Inv(Invalidated(s, p))
    requires !s.frames[s.table[p]].ioInflight
    ensures Poisoned(s, Invalidated(s, p), {p}) && StuckKept(s, Invalidated(s, p))
  {
  }

  ghost function FreedIn(events: seq<Event>): set<PageId> {
    set i | 0 <= i < |events| && events[i].Freed? :: events[i].page
  }

  lemma FreedInAppend(events: seq<Event>, e: Event)
    ensures FreedIn(events + [e]) == FreedIn(events) + FreedBy(e)
  {
    var all := events + [e];
    forall p | p in FreedIn(events) + FreedBy(e) ensures p in FreedIn(all) {
      if p in FreedIn(events) {
        var i :| 0 <= i < |events| && events[i].Freed? && events[i].page == p;
        assert all[i].Freed? && all[i].page == p;
      } else {
        assert all[|events|].Freed? && all[|events|].page == p;
      }
    }
  }

  /** A run as a trace: the state and the failure flag before and after every event. */
  datatype Trace = Trace(states: seq<Core>, failed: seq<bool>)

  /** Between any two points of the run, the later one at or after the earlier: a failure is
      remembered, and from it on nothing reaches the disk and no page stops being dirty except by
      being freed; a frame left with I/O in flight stays as it is. */
  ghost predicate RunKeeps(t: Trace, events: seq<Event>) {
    && |t.states| == |t.failed| == |events| + 1
    && (forall i | 0 <= i < |t.states| :: Inv(t.states[i]))
    && (forall i, j | 0 <= i <= j < |t.states| :: StuckKept(t.states[i], t.states[j]))
    && (forall i, j | 0 <= i <= j < |t.states| && t.failed[i] ::
          t.failed[j] && Poisoned(t.states[i], t.states[j], FreedIn(events[i..j])))
  }

  /** A frame once left with I/O in flight is never reclaimed, evicted or written back again. */
  lemma StuckForGood(t: Trace, events: seq<Event>, i: nat, j: nat, f: FrameId, durable: nat)
    requires RunKeeps(t, events) && i <= j <= |events| && f < |t.states[i].frames| && t.states[i].frames[f].ioInflight
    ensures var s, s' := t.states[i], t.states[j];
            f < |s'.frames| && !s'.frames[f].Reclaimable() && !Eligible(s'.frames[f], durable)
            && (s.frames[f].Resident() ==>
                  var p := s.frames[f].pageId;
                  p in s'.table && s'.table[p] == f && s'.frames[f].buf == s.frames[f].buf && SameOnDisk(s.disk, s'.disk, p))
            && (s.frames[f].state == Dirty ==> s'.frames[f].state == Dirty)
  {
    assert StuckKept(t.states[i], t.states[j]) && Inv(t.states[j]);
  }

  lemma TraceStart(s: Core, failed: bool)
    requires Inv(s)
    ensures RunKeeps(Trace([s], [failed]), [])
  {
  }

  lemma TraceStep(t: Trace, events: seq<Event>, e: Event, s': Core, failed': bool)
    requires RunKeeps(t, events) && Inv(s')
    requires var n := |events|;
             StuckKept(t.states[n], s') && (t.failed[n] ==> failed' && Poisoned(t.states[n], s', FreedBy(e)))
    ensures RunKeeps(Trace(t.states + [s'], t.failed + [failed']), events + [e])
  {
    hide Inv, Poisoned, FreedIn, StuckKept;
    var n, t', all := |events|, Trace(t.states + [s'], t.failed + [failed']), events + [e];
    PoisonedRefl(s');
    StuckRefl(s');
    forall i, j | 0 <= i <= j < |t'.states| ensures StuckKept(t'.states[i], t'.states[j]) {
      if i <= n && j == n + 1 {
        StuckMore(t.states[i], t.states[n], s');
      }
    }
    forall i, j | 0 <= i <= j < |t'.states| && t'.failed[i]
      ensures t'.failed[j] && Poisoned(t'.states[i], t'.states[j], FreedIn(all[i..j]))
    {
      if j <= n {
        assert all[i..j] == events[i..j];
      } else if i <= n {
        assert all[i..j] == events[i..n] + [e];
        FreedInAppend(events[i..n], e);
        PoisonedMore(t.states[i], t.states[n], s', FreedIn(events[i..n]), FreedBy(e));
      } else {
        assert all[i..j] == [];
      }
    }
  }

  /** Run any operations, from any valid pool and the guards already held.  What the run shows is
      what the flat page map allows, and its trace is kept to. */
  method Run(pool: BufferPool, ops: seq<Op>, held0: seq<PageGuard>)
    returns (events: seq<Event>, held: seq<PageGuard>, ghost trace: Trace)
    requires pool.Valid() && Holds(held0, pool.s.guards)
    modifies pool
    ensures pool.Valid() && Holds(held, pool.s.guards) && |events| == |ops|
    ensures AllowsAll(old(Shows(pool.s)), events)
    ensures Shows(pool.s) == AfterAll(old(Shows(pool.s)), events)
    ensures RunKeeps(trace, events)
    ensures trace.states[0] == old(pool.s) && trace.states[|ops|] == pool.s
    ensures trace.failed[0] == old(pool.ioFailed) && trace.failed[|ops|] == pool.ioFailed
    // ... and at every point of the run the pool shows what the events so far explain.
    ensures forall i | 0 <= i <= |ops| :: Shows(trace.states[i]) == AfterAll(old(Shows(pool.s)), events[..i])
  {
    hide Inv, Shows, Holds, GhostInv, Poisoned, FreedIn, Allows, After, AllowsAll, AfterAll, StuckKept, RunKeeps;
    events, held, trace := [], held0, Trace([pool.s], [pool.ioFailed]);
    TraceStart(pool.s, pool.ioFailed);
    NothingYet(Shows(pool.s));
    var k := 0;
    while k < |ops|
      invariant 0 <= k <= |ops| && |events| == k && pool.Valid() && Holds(held, pool.s.guards)
      invariant AllowsAll(old(Shows(pool.s)), events) && Shows(pool.s) == AfterAll(old(Shows(pool.s)), events)
      invariant RunKeeps(trace, events) && |trace.states| == |trace.failed| == k + 1
      invariant trace.states[0] == old(pool.s) && trace.states[k] == pool.s
      invariant trace.failed[0] == old(pool.ioFailed) && trace.failed[k] == pool.ioFailed
      invariant forall i | 0 <= i <= k :: Inv(trace.states[i]) && Shows(trace.states[i]) == AfterAll(old(Shows(pool.s)), events[..i])
    {
      var op := ops[k];
      var e := Silent;
      PoisonedRefl(pool.s);
      StuckRefl(pool.s);
      if !(op.Write? || op.SetDirty? || op.Show? || op.Drop?) {
        e, held := PoolStep(pool, op, held);
      } else if op.slot < |held| {
        e, held := GuardStep(pool, op, held);
      } else {
        SilentStep(Shows(pool.s));
      }
      RunAppend(old(Shows(pool.s)), events, e);
      TraceStep(trace, events, e, pool.s, pool.ioFailed);
      assert forall i | 0 <= i <= k :: (events + [e])[..i] == events[..i];
      events := events + [e];
      trace := Trace(trace.states + [pool.s], trace.failed + [pool.ioFailed]);
      k := k + 1;
      assert events[..k] == events;
    }
  }

  lemma NothingYet(m: map<PageId, Body>)
    ensures AllowsAll(m, []) && AfterAll(m, []) == m
  {
  }

  lemma StuckRefl(s: Core)
    ensures StuckKept(s, s)
  {
  }

  lemma SilentStep(m: map<PageId, Body>)
    ensures Allows(m, Silent) && After(m, Silent) == m
  {
  }

  lemma PoisonedRefl(s: Core)
    requires Inv(s)
    ensures Poisoned(s, s, {}) && Poisoned(s, s, FreedIn([]))
  {
  }

  lemma PoisonedMore(s0: Core, s1: Core, s2: Core, a: set<PageId>, b: set<PageId>)
    requires Inv(s0) && Inv(s1) && Inv(s2) && Poisoned(s0, s1, a) && Poisoned(s1, s2, b)
    ensures Poisoned(s0, s2, a + b)
  {
  }
}
