/** Crash points of a flush with a double-write buffer (src/buffer/pool.rs:818-860,
    src/buffer/flusher.rs:158-250, src/wal/doublewrite.rs).

    A single-frame flush is a batch of one page.  A write that has not been synced may, after a
    crash, be absent, complete or torn; the double-write file is durable once staging returns. */
module TornPages {
  import opened Frames
  import FlushSteps

  /** How many pages one `write_batch` stages; the rest of a longer batch is dropped. */
  const DOUBLEWRITE_CAPACITY: nat := 128

  /** A page in place as recovery finds it: its checksum holds, or it does not. */
  datatype Image = Whole(body: Body) | Torn

  /** The double-write file: empty or unreadable, or a set of staged page images. */
  datatype Dw = NoEntries | Entries(images: map<PageId, Body>)

  type Batch = seq<(PageId, Body)>

  datatype Pc =
    | Idle
    | Staging(batch: Batch)
    /** `batch[..next]` is done with. */
    | Between(batch: Batch, next: nat, allOk: bool)
    /** The extent `batch[next..upto]` is written and not yet synced. */
    | Unsynced(batch: Batch, next: nat, upto: nat, allOk: bool)
    | Clearing

  datatype State = State(
    place: map<PageId, Image>,
    /** Writes issued and never synced. */
    unsynced: map<PageId, Body>,
    dw: Dw,
    pc: Pc,
    poisoned: bool)

  datatype Action =
    | Begin(batch: Batch) | StageDone | StageFail(left: Dw)
    | Issue | SyncOk | SyncFail | WriteFail | Refuse
    | Finish | ClearDone | ClearFail

  ghost predicate Distinct(batch: Batch) {
    forall i, j | 0 <= i < j < |batch| :: batch[i].0 != batch[j].0
  }

  /** A batch is sorted by page before it is staged. */
  ghost predicate InPageOrder(batch: Batch) {
    forall i, j | 0 <= i < j < |batch| :: batch[i].0 < batch[j].0
  }

  /** Where the extent that starts at `from` ends: it grows while the next page follows on and the
      bytes stay within one vectored write. */
  function Grown(batch: Batch, from: nat, to: nat): (r: nat)
    requires from < to <= |batch|
    ensures to <= r <= |batch|
    decreases |batch| - to
  {
    if to < |batch| && batch[to].0 == batch[to - 1].0 + 1
       && (to - from + 1) * FlushSteps.PAGE_SIZE <= FlushSteps.MAX_BATCH_BYTES
    then Grown(batch, from, to + 1)
    else to
  }

  function ExtentEnd(batch: Batch, from: nat): (r: nat)
    requires from < |batch|
    ensures from < r <= |batch|
  {
    Grown(batch, from, from + 1)
  }

  /** The pages of `batch[from..to]` follow one another, within one vectored write. */
  ghost predicate OneExtent(batch: Batch, from: nat, to: nat) {
    && from < to <= |batch| && (to - from) * FlushSteps.PAGE_SIZE <= FlushSteps.MAX_BATCH_BYTES
    && forall i | from <= i < to :: batch[i].0 == batch[from].0 + (i - from)
  }

  /** The extents are the flusher's: as long as page order and size allow. */
  lemma {:induction false} GrownIs(batch: Batch, from: nat, to: nat)
    requires OneExtent(batch, from, to)
    ensures OneExtent(batch, from, Grown(batch, from, to))
    ensures Grown(batch, from, to) < |batch| ==> !OneExtent(batch, from, Grown(batch, from, to) + 1)
    decreases |batch| - to
  {
    if Grown(batch, from, to) != to {
      GrownIs(batch, from, to + 1);
    }
  }

  function PagesOf(batch: Batch): map<PageId, Body> {
    if batch == [] then map[]
    else
      var n := |batch| - 1;
      PagesOf(batch[..n])[batch[n].0 := batch[n].1]
  }

  /** What `write_batch` puts in the double-write file. */
  function StagedPages(batch: Batch): map<PageId, Body> {
    PagesOf(if |batch| <= DOUBLEWRITE_CAPACITY then batch else batch[..DOUBLEWRITE_CAPACITY])
  }

  ghost predicate Enabled(s: State, a: Action) {
    match a
    case Begin(b) => s.pc.Idle? && !s.poisoned && InPageOrder(b) && forall i | 0 <= i < |b| :: b[i].0 in s.place
    case StageDone => s.pc.Staging?
    case StageFail(_) => s.pc.Staging?
    case Issue => s.pc.Between? && !s.poisoned && s.pc.next < |s.pc.batch|
    case SyncOk => s.pc.Unsynced?
    case SyncFail => s.pc.Unsynced?
    case WriteFail => s.pc.Unsynced?
    case Refuse => s.pc.Between? && s.poisoned && s.pc.next < |s.pc.batch|
    case Finish => s.pc.Between? && s.pc.next == |s.pc.batch|
    case ClearDone => s.pc.Clearing?
    case ClearFail => s.pc.Clearing?
  }

  /** The extent being written. */
  function Extent(pc: Pc): map<PageId, Body>
    requires pc.Unsynced?
  {
    if pc.next <= pc.upto <= |pc.batch| then PagesOf(pc.batch[pc.next..pc.upto]) else map[]
  }

  function Do(s: State, a: Action): State
    requires Enabled(s, a)
  {
    match a
    case Begin(b) => s.(pc := Staging(b))
    case StageDone => s.(dw := Entries(StagedPages(s.pc.batch)), pc := Between(s.pc.batch, 0, true))
    case StageFail(left) => s.(dw := left, pc := Idle)
    case Issue =>
      var pc := Unsynced(s.pc.batch, s.pc.next, ExtentEnd(s.pc.batch, s.pc.next), s.pc.allOk);
      s.(pc := pc, unsynced := s.unsynced + Extent(pc))
    case SyncOk =>
      var e := Extent(s.pc);
      s.(place := map p | p in s.place :: if p in e then Whole(e[p]) else s.place[p],
         unsynced := s.unsynced - e.Keys,
         pc := Between(s.pc.batch, s.pc.upto, s.pc.allOk))
    case SyncFail => s.(poisoned := true, pc := Between(s.pc.batch, s.pc.upto, false))
    case WriteFail => s.(pc := Between(s.pc.batch, s.pc.upto, false))
    case Refuse => s.(pc := Between(s.pc.batch, ExtentEnd(s.pc.batch, s.pc.next), false))
    case Finish => s.(pc := if s.pc.allOk then Clearing else Idle)
    case ClearDone => s.(dw := NoEntries, pc := Idle)
    case ClearFail => s.(pc := Idle)
  }

  // ---------------------------------------------------------------- crash and recovery

  /** `place` and `dw` may be what a crash in state `s` leaves. */
  ghost predicate CrashLeaves(s: State, place: map<PageId, Image>, dw: Dw) {
    && place.Keys == s.place.Keys
    && (forall p | p in place ::
          || place[p] == s.place[p]
          || (p in s.unsynced && (place[p] == Torn || place[p] == Whole(s.unsynced[p]))))
    && (s.pc.Staging? || dw == s.dw || (s.pc.Clearing? && dw == NoEntries))
  }

  /** `recover_torn_pages`: a torn page with a staged image gets that image. */
  function Recovered(place: map<PageId, Image>, dw: Dw): map<PageId, Image> {
    map p | p in place ::
      if place[p].Torn? && dw.Entries? && p in dw.images then Whole(dw.images[p]) else place[p]
  }

  /** Whatever a crash now leaves, recovery finds every page whole: as last synced, or as the
      unfinished flush meant it. */
  ghost predicate TornSafe(s: State) {
    forall place, dw | CrashLeaves(s, place, dw) ::
      forall p | p in place ::
        var r := Recovered(place, dw)[p];
        r.Whole? && (r == s.place[p] || (p in s.unsynced && r.body == s.unsynced[p]))
  }

  // ---------------------------------------------------------------- runs

  ghost predicate IsRun(s: State, steps: seq<Action>)
    decreases |steps|
  {
    steps != [] ==> Enabled(s, steps[0]) && IsRun(Do(s, steps[0]), steps[1..])
  }

  ghost function Final(s: State, steps: seq<Action>): State
    requires IsRun(s, steps)
    decreases |steps|
  {
    if steps == [] then s else Final(Do(s, steps[0]), steps[1..])
  }

  /** Between flushes of a healthy pool. */
  ghost predicate Quiet(s: State) {
    s.pc.Idle? && !s.poisoned && s.unsynced == map[] && forall p | p in s.place :: s.place[p].Whole?
  }

  /** Every batch fits the double-write buffer and no write fails other than by its sync. */
  ghost predicate Sound(steps: seq<Action>) {
    forall a | a in steps :: !a.WriteFail? && (a.Begin? ==> |a.batch| <= DOUBLEWRITE_CAPACITY)
  }

  ghost predicate Inv(s: State) {
    && (forall p | p in s.place :: s.place[p].Whole?)
    && (forall p | p in s.unsynced :: s.dw.Entries? && p in s.dw.images && s.dw.images[p] == s.unsynced[p])
    && (s.pc.Staging? || s.pc.Clearing? ==> s.unsynced == map[] && !s.poisoned)
    && (s.pc.Idle? && !s.poisoned ==> s.unsynced == map[])
    && (s.pc.Staging? ==> |s.pc.batch| <= DOUBLEWRITE_CAPACITY)
    && (s.pc.Between? && !s.poisoned ==> s.unsynced == map[] && s.dw == Entries(PagesOf(s.pc.batch)))
    && (s.pc.Between? && s.poisoned ==> !s.pc.allOk)
    && (s.pc.Unsynced? ==> !s.poisoned && s.pc.next < s.pc.upto <= |s.pc.batch|
                           && s.unsynced == Extent(s.pc) && s.dw == Entries(PagesOf(s.pc.batch)))
    && ((s.pc.Staging? || s.pc.Between? || s.pc.Unsynced?) ==> Distinct(s.pc.batch))
  }

  lemma {:induction false} PagesOfAt(batch: Batch)
    requires Distinct(batch)
    ensures forall i | 0 <= i < |batch| :: batch[i].0 in PagesOf(batch) && PagesOf(batch)[batch[i].0] == batch[i].1
    ensures forall p | p in PagesOf(batch) :: exists i :: 0 <= i < |batch| && batch[i].0 == p
  {
    if batch != [] {
      var n := |batch| - 1;
      PagesOfAt(batch[..n]);
      forall i | 0 <= i < |batch|
        ensures batch[i].0 in PagesOf(batch) && PagesOf(batch)[batch[i].0] == batch[i].1
      {
        if i < n {
          assert batch[..n][i] == batch[i];
        }
      }
      forall p | p in PagesOf(batch)
        ensures exists i :: 0 <= i < |batch| && batch[i].0 == p
      {
        if p != batch[n].0 {
          var i :| 0 <= i < n && batch[..n][i].0 == p;
          assert batch[i].0 == p;
        }
      }
    }
  }

  /** An extent's pages are pages of its batch, with the same images. */
  lemma ExtentStaged(batch: Batch, i: nat, j: nat)
    requires Distinct(batch) && i <= j <= |batch|
    ensures forall p | p in PagesOf(batch[i..j]) :: p in PagesOf(batch) && PagesOf(batch)[p] == PagesOf(batch[i..j])[p]
  {
    var e := batch[i..j];
    PagesOfAt(batch);
    PagesOfAt(e);
    forall p | p in PagesOf(e)
      ensures p in PagesOf(batch) && PagesOf(batch)[p] == PagesOf(e)[p]
    {
      var k :| 0 <= k < |e| && e[k].0 == p;
      assert e[k] == batch[i + k];
    }
  }

  lemma StepKeeps(s: State, a: Action)
    requires Inv(s) && Enabled(s, a) && !a.WriteFail? && (a.Begin? ==> |a.batch| <= DOUBLEWRITE_CAPACITY)
    ensures Inv(Do(s, a))
  {
    if a.Issue? {
      ExtentStaged(s.pc.batch, s.pc.next, ExtentEnd(s.pc.batch, s.pc.next));
    }
  }

  lemma {:induction false} RunKeeps(s: State, steps: seq<Action>)
    requires Inv(s) && IsRun(s, steps) && Sound(steps)
    ensures Inv(Final(s, steps))
    decreases |steps|
  {
    if steps != [] {
      StepKeeps(s, steps[0]);
      RunKeeps(Do(s, steps[0]), steps[1..]);
    }
  }

  /** At every crash point of every run of flushes. */
  lemma FlushesAreTornSafe(s: State, steps: seq<Action>)
    requires Quiet(s) && IsRun(s, steps) && Sound(steps)
    ensures TornSafe(Final(s, steps))
  {
    RunKeeps(s, steps);
  }

  // ---------------------------------------------------------------- exactly when

  /** Whatever a crash now leaves, recovery finds no torn page. */
  ghost predicate NoneTorn(s: State) {
    forall place, dw | CrashLeaves(s, place, dw) :: forall p | p in place :: Recovered(place, dw)[p].Whole?
  }

  /** What holds at every point of every run, whatever fails and however long the batches. */
  ghost predicate Loose(s: State) {
    && (forall p | p in s.place :: s.place[p].Whole?)
    && (forall p | p in s.unsynced :: p in s.place)
    && (s.pc.Staging? || s.pc.Between? || s.pc.Unsynced? ==>
          InPageOrder(s.pc.batch) && forall i | 0 <= i < |s.pc.batch| :: s.pc.batch[i].0 in s.place)
    && (s.pc.Unsynced? ==> s.pc.next < s.pc.upto <= |s.pc.batch|)
  }

  lemma LooseKept(s: State, a: Action)
    requires Loose(s) && Enabled(s, a)
    ensures Loose(Do(s, a))
  {
    if a.Issue? || s.pc.Unsynced? {
      var from := s.pc.next;
      var to := if a.Issue? then ExtentEnd(s.pc.batch, from) else s.pc.upto;
      ExtentInBatch(s.pc.batch, from, to);
    }
  }

  lemma ExtentInBatch(batch: Batch, i: nat, j: nat)
    requires InPageOrder(batch) && i <= j <= |batch|
    ensures forall p | p in PagesOf(batch[i..j]) :: exists k :: 0 <= k < |batch| && batch[k].0 == p
  {
    var e := batch[i..j];
    PagesOfAt(e);
    forall p | p in PagesOf(e) ensures exists k :: 0 <= k < |batch| && batch[k].0 == p {
      var k :| 0 <= k < |e| && e[k].0 == p;
      assert e[k] == batch[i + k];
    }
  }

  lemma {:induction false} LooseRun(s: State, steps: seq<Action>)
    requires Loose(s) && IsRun(s, steps)
    ensures Loose(Final(s, steps))
    decreases |steps|
  {
    if steps != [] {
      LooseKept(s, steps[0]);
      LooseRun(Do(s, steps[0]), steps[1..]);
    }
  }

  /** The double-write file has an image of page `p`, and no crash now can take it away. */
  ghost predicate Staged(s: State, p: PageId) {
    !s.pc.Staging? && !s.pc.Clearing? && s.dw.Entries? && p in s.dw.images
  }

  /** ... and the image is one the page may be recovered to. */
  ghost predicate Covered(s: State, p: PageId)
    requires p in s.unsynced && p in s.place
  {
    Staged(s, p) && (s.dw.images[p] == s.unsynced[p] || Whole(s.dw.images[p]) == s.place[p])
  }

  /** The exact condition, at every crash point of every run of flushes, whatever fails and however
      long the batches: every page written and not synced is staged (no page is left torn), with
      bytes the page may have (torn-safe). */
  lemma TornSafeExactly(s: State, steps: seq<Action>)
    requires Quiet(s) && IsRun(s, steps)
    ensures var f := Final(s, steps); forall p | p in f.unsynced :: p in f.place
    ensures var f := Final(s, steps); NoneTorn(f) <==> forall p | p in f.unsynced :: Staged(f, p)
    ensures var f := Final(s, steps); TornSafe(f) <==> forall p | p in f.unsynced :: Covered(f, p)
  {
    LooseRun(s, steps);
    SafeWhereCovered(Final(s, steps));
  }

  lemma SafeWhereCovered(s: State)
    requires Loose(s)
    ensures NoneTorn(s) <==> forall p | p in s.unsynced :: Staged(s, p)
    ensures TornSafe(s) <==> forall p | p in s.unsynced :: Covered(s, p)
  {
    forall p | p in s.unsynced && !Covered(s, p)
      ensures !TornSafe(s) && (!Staged(s, p) ==> !NoneTorn(s))
    {
      TearsWhereUncovered(s, p);
    }
  }

  /** A torn page with no usable image is not put right. */
  lemma TearsWhereUncovered(s: State, p: PageId)
    requires p in s.unsynced && p in s.place && !Covered(s, p)
    ensures !TornSafe(s) && (!Staged(s, p) ==> !NoneTorn(s))
  {
    var place := s.place[p := Torn];
    var dw := if s.pc.Staging? || s.pc.Clearing? then NoEntries else s.dw;
    assert CrashLeaves(s, place, dw);
    var r := Recovered(place, dw)[p];
    assert p in place;
    if !Staged(s, p) {
      assert r == Torn;
    } else {
      assert r == Whole(s.dw.images[p]);
    }
  }

  // ---------------------------------------------------------------- where it fails

  lemma RunCons(s: State, a: Action, rest: seq<Action>)
    requires Enabled(s, a) && IsRun(Do(s, a), rest)
    ensures IsRun(s, [a] + rest) && Final(s, [a] + rest) == Final(Do(s, a), rest)
  {
    assert ([a] + rest)[1..] == rest;
  }

  /** Steps of one flush in which no write fails other than by its sync. */
  ghost predicate OneFlush(steps: seq<Action>) {
    forall a | a in steps :: !a.WriteFail? && !a.Begin?
  }

  /** A flush of `batch`, alone on a quiet pool, is torn-safe at every crash point exactly when the
      batch fits the double-write buffer: the staging call drops the pages beyond its capacity, and
      the flusher does not split its batches. */
  lemma TornSafeIffFits(s: State, batch: Batch)
    requires Quiet(s) && Enabled(s, Begin(batch))
    ensures |batch| <= DOUBLEWRITE_CAPACITY <==>
            forall steps | IsRun(s, [Begin(batch)] + steps) && OneFlush(steps) ::
              TornSafe(Final(s, [Begin(batch)] + steps))
  {
    if |batch| <= DOUBLEWRITE_CAPACITY {
      forall steps | IsRun(s, [Begin(batch)] + steps) && OneFlush(steps)
        ensures TornSafe(Final(s, [Begin(batch)] + steps))
      {
        FlushesAreTornSafe(s, [Begin(batch)] + steps);
      }
    } else {
      var steps := UnstagedPageTears(s, batch);
    }
  }

  /** The crash point: every extent before that of the first dropped page is written and synced,
      and that one is written. */
  lemma UnstagedPageTears(s: State, batch: Batch) returns (steps: seq<Action>)
    requires Quiet(s) && Enabled(s, Begin(batch)) && |batch| > DOUBLEWRITE_CAPACITY
    ensures OneFlush(steps) && IsRun(s, [Begin(batch)] + steps) && !TornSafe(Final(s, [Begin(batch)] + steps))
  {
    hide TornSafe, CrashLeaves;
    var s1 := Do(s, Begin(batch));
    var s2 := Do(s1, StageDone);
    var rest := Approach(s2);
    RunCons(s1, StageDone, rest);
    steps := [StageDone] + rest;
    RunCons(s, Begin(batch), steps);
    var f := Final(s, [Begin(batch)] + steps);
    NotStaged(batch);
    TearsWhereUncovered(f, batch[DOUBLEWRITE_CAPACITY].0);
  }

  /** Write and sync extent by extent until the one that holds the first dropped page is written. */
  lemma {:induction false} Approach(s: State) returns (steps: seq<Action>)
    requires s.pc.Between? && s.pc.next <= DOUBLEWRITE_CAPACITY < |s.pc.batch| && !s.poisoned
    requires InPageOrder(s.pc.batch) && forall i | 0 <= i < |s.pc.batch| :: s.pc.batch[i].0 in s.place
    ensures OneFlush(steps) && IsRun(s, steps)
    ensures var f, p := Final(s, steps), s.pc.batch[DOUBLEWRITE_CAPACITY].0;
            f.pc.Unsynced? && f.dw == s.dw && p in f.unsynced && p in f.place
    decreases DOUBLEWRITE_CAPACITY - s.pc.next
  {
    var batch, next := s.pc.batch, s.pc.next;
    var end := ExtentEnd(batch, next);
    var s' := Do(s, Issue);
    if DOUBLEWRITE_CAPACITY < end {
      var e, k := batch[next..end], DOUBLEWRITE_CAPACITY - next;
      PagesOfAt(e);
      assert e[k] == batch[DOUBLEWRITE_CAPACITY];
      RunCons(s, Issue, []);
      steps := [Issue] + [];
    } else {
      var s'' := Do(s', SyncOk);
      var rest := Approach(s'');
      RunCons(s', SyncOk, rest);
      RunCons(s, Issue, [SyncOk] + rest);
      steps := [Issue] + ([SyncOk] + rest);
    }
  }

  lemma NotStaged(batch: Batch)
    requires Distinct(batch) && |batch| > DOUBLEWRITE_CAPACITY
    ensures batch[DOUBLEWRITE_CAPACITY].0 !in StagedPages(batch)
  {
    var staged := batch[..DOUBLEWRITE_CAPACITY];
    PagesOfAt(staged);
    assert forall i | 0 <= i < |staged| :: staged[i].0 == batch[i].0;
  }

  /** After any run, write errors included, the next flush leaves no page to tear once it is staged
      exactly if its staged pages include every page still unsynced. */
  lemma NextFlushCovers(s: State, steps: seq<Action>, batch: Batch)
    requires Quiet(s) && IsRun(s, steps) && Enabled(Final(s, steps), Begin(batch))
    ensures var all := steps + [Begin(batch), StageDone];
            IsRun(s, all) && (NoneTorn(Final(s, all)) <==> Final(s, steps).unsynced.Keys <= StagedPages(batch).Keys)
  {
    hide NoneTorn;
    var f, more := Final(s, steps), [Begin(batch)] + ([StageDone] + []);
    RunCons(Do(f, Begin(batch)), StageDone, []);
    RunCons(f, Begin(batch), [StageDone] + []);
    RunAppend(s, steps, more);
    assert steps + more == steps + [Begin(batch), StageDone];
    TornSafeExactly(s, steps + [Begin(batch), StageDone]);
  }

  lemma {:induction false} RunAppend(s: State, steps: seq<Action>, more: seq<Action>)
    requires IsRun(s, steps) && IsRun(Final(s, steps), more)
    ensures IsRun(s, steps + more) && Final(s, steps + more) == Final(Final(s, steps), more)
    decreases |steps|
  {
    if steps == [] {
      assert steps + more == more;
    } else {
      RunAppend(Do(s, steps[0]), steps[1..], more);
      assert (steps + more)[1..] == steps[1..] + more;
    }
  }

  /** So a write error that is not a sync error leaves its pages unprotected once the next flush
      stages other pages. */
  lemma WriteErrorExposes(s: State, p: PageId, q: PageId, b: Body, c: Body)
    requires Quiet(s) && p in s.place && q in s.place && p != q
    ensures var steps := [Begin([(p, b)])] + ([StageDone] + ([Issue] + ([WriteFail] + ([Finish] + []))));
            IsRun(s, steps + [Begin([(q, c)]), StageDone]) && !NoneTorn(Final(s, steps + [Begin([(q, c)]), StageDone]))
  {
    hide TornSafe, NoneTorn, CrashLeaves;
    assert [(p, b)][0..1] == [(p, b)];
    PagesOfAt([(p, b)]);
    PagesOfAt([(q, c)]);
    var s1 := Do(s, Begin([(p, b)]));
    var s2 := Do(s1, StageDone);
    var s3 := Do(s2, Issue);
    var s4 := Do(s3, WriteFail);
    var s5 := Do(s4, Finish);
    RunCons(s4, Finish, []);
    RunCons(s3, WriteFail, [Finish] + []);
    RunCons(s2, Issue, [WriteFail] + ([Finish] + []));
    RunCons(s1, StageDone, [Issue] + ([WriteFail] + ([Finish] + [])));
    RunCons(s, Begin([(p, b)]), [StageDone] + ([Issue] + ([WriteFail] + ([Finish] + []))));
    assert p in s5.unsynced;
    NextFlushCovers(s, [Begin([(p, b)])] + ([StageDone] + ([Issue] + ([WriteFail] + ([Finish] + [])))), [(q, c)]);
  }
}
