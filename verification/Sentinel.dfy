/** The `LOADING_SENTINEL` protocol of the page table (src/buffer/pool.rs): any number of threads,
    one shard-lock section at a time.  Frames are not claimed here and may be handed out twice;
    the statements are about page-table entries and the guards made from them. */
module Sentinel {
  import opened Frames

  type Thread = nat

  const INVALID_FRAME_ID: FrameId := 0xFFFF_FFFF
  const LOADING_SENTINEL: FrameId := INVALID_FRAME_ID - 1

  datatype Pc =
    | Idle
    /** In `fix_page`, before its first lock section. */
    | Starting(page: PageId)
    /** Missed; looking for a free frame. */
    | Searching(page: PageId)
    /** Has a frame; before the lock section that publishes the sentinel. */
    | Found(page: PageId, frame: FrameId)
    /** Published the sentinel; reading the page. */
    | LoadingPage(page: PageId, frame: FrameId)
    /** In `wait_for_loading`. */
    | WaitingFor(page: PageId)
    | Guarding(page: PageId, frame: FrameId)
    | Failing

  datatype State = State(frameCount: nat, table: map<PageId, FrameId>, threads: map<Thread, Pc>)

  datatype Action =
    | Call(page: PageId) | LookUp | Obtain(frame: FrameId) | Exhaust | Reserve | Finish(ok: bool) | Poll | Return
    /** Sections that other work runs: eviction, a prefetch publishing a page, a page freed. */
    | Evict(page: PageId, frame: FrameId) | Publish(page: PageId, frame: FrameId) | Invalidate(page: PageId)

  function At(s: State, t: Thread): Pc {
    if t in s.threads then s.threads[t] else Idle
  }

  function Go(s: State, t: Thread, pc: Pc): State {
    s.(threads := s.threads[t := pc])
  }

  predicate Enabled(s: State, t: Thread, a: Action) {
    var pc := At(s, t);
    match a
    case Call(p) => pc.Idle? && p != 0
    case LookUp => pc.Starting?
    case Obtain(f) => pc.Searching? && f < s.frameCount
    case Exhaust => pc.Searching?
    case Reserve => pc.Found?
    case Finish(_) => pc.LoadingPage?
    case Poll => pc.WaitingFor?
    case Return => pc.Guarding? || pc.Failing?
    case Evict(_, f) => f < s.frameCount
    case Publish(p, f) => p != 0 && f < s.frameCount
    case Invalidate(_) => true
  }

  /** What a thread does with the entry it finds for `p`, when it is not the one to load it. */
  function Follow(s: State, t: Thread, p: PageId): State
    requires p in s.table
  {
    if s.table[p] == LOADING_SENTINEL then Go(s, t, WaitingFor(p)) else Go(s, t, Guarding(p, s.table[p]))
  }

  function Do(s: State, t: Thread, a: Action): State
    requires Enabled(s, t, a)
  {
    var pc := At(s, t);
    match a
    case Call(p) => Go(s, t, Starting(p))
    case LookUp => if pc.page in s.table then Follow(s, t, pc.page) else Go(s, t, Searching(pc.page))
    case Obtain(f) => Go(s, t, Found(pc.page, f))
    case Exhaust => Go(s, t, Failing)
    case Reserve =>
      if pc.page in s.table then Follow(s, t, pc.page)
      else Go(s.(table := s.table[pc.page := LOADING_SENTINEL]), t, LoadingPage(pc.page, pc.frame))
    case Finish(ok) =>
      if ok then Go(s.(table := s.table[pc.page := pc.frame]), t, Guarding(pc.page, pc.frame))
      else Go(s.(table := s.table - {pc.page}), t, Failing)
    case Poll => if pc.page in s.table then Follow(s, t, pc.page) else Go(s, t, Starting(pc.page))
    case Return => Go(s, t, Idle)
    case Evict(p, f) => if p in s.table && s.table[p] == f then s.(table := s.table - {p}) else s
    case Publish(p, f) => if p in s.table then s else s.(table := s.table[p := f])
    case Invalidate(p) => if p in s.table && s.table[p] == LOADING_SENTINEL then s else s.(table := s.table - {p})
  }

  ghost predicate Initial(s: State) {
    s.table == map[] && s.threads == map[] && s.frameCount <= LOADING_SENTINEL
  }

  ghost predicate Loads(s: State, t: Thread, p: PageId) {
    At(s, t).LoadingPage? && At(s, t).page == p
  }

  ghost predicate HasSentinel(s: State, p: PageId) {
    p in s.table && s.table[p] == LOADING_SENTINEL
  }

  ghost predicate Inv(s: State) {
    && s.frameCount <= LOADING_SENTINEL
    && (forall p | p in s.table :: s.table[p] < s.frameCount || s.table[p] == LOADING_SENTINEL)
    && (forall t | At(s, t).Found? || At(s, t).LoadingPage? || At(s, t).Guarding? :: At(s, t).frame < s.frameCount)
    && (forall t, p | Loads(s, t, p) :: HasSentinel(s, p))
    && (forall t, t', p | Loads(s, t, p) && Loads(s, t', p) :: t == t')
    && (forall p | HasSentinel(s, p) :: exists t :: Loads(s, t, p))
  }

  lemma StepKeeps(s: State, t: Thread, a: Action)
    requires Inv(s) && Enabled(s, t, a)
    ensures Inv(Do(s, t, a))
  {
    LoadersKept(s, t, a);
    SentinelsKept(s, t, a);
    var s' := Do(s, t, a);
    assert forall u | u != t :: At(s', u) == At(s, u);
  }

  /** A thread that loads after the step loaded before, or is the one that steps and found no other. */
  lemma LoadersKept(s: State, t: Thread, a: Action)
    requires Inv(s) && Enabled(s, t, a)
    ensures var s' := Do(s, t, a);
            forall u, p | Loads(s', u, p) ::
              && HasSentinel(s', p) && (u != t ==> Loads(s, u, p))
              && (u == t ==> forall v | v != t :: !Loads(s, v, p))
  {
    var s' := Do(s, t, a);
    assert forall u | u != t :: At(s', u) == At(s, u);
    forall u, p | Loads(s', u, p)
      ensures HasSentinel(s', p)
      ensures u != t ==> Loads(s, u, p)
      ensures u == t ==> forall v | v != t :: !Loads(s, v, p)
    {
      if u == t {
        if !Loads(s, t, p) {
          assert p !in s.table;
        }
      } else {
        assert Loads(s, u, p) && HasSentinel(s, p);
        if a.Finish? {
          assert Loads(s, t, At(s, t).page);
        }
      }
    }
  }

  /** A sentinel still has its loader. */
  lemma SentinelsKept(s: State, t: Thread, a: Action)
    requires Inv(s) && Enabled(s, t, a)
    ensures var s' := Do(s, t, a); forall p | HasSentinel(s', p) :: exists u :: Loads(s', u, p)
  {
    var s' := Do(s, t, a);
    assert forall u | u != t :: At(s', u) == At(s, u);
    forall p | HasSentinel(s', p)
      ensures exists u :: Loads(s', u, p)
    {
      if a.Reserve? && p == At(s, t).page && p !in s.table {
        assert Loads(s', t, p);
      } else {
        assert HasSentinel(s, p);
        var u :| Loads(s, u, p);
        assert Loads(s', u, p);
      }
    }
  }

  // ---------------------------------------------------------------- whole runs

  ghost predicate IsRun(s: State, steps: seq<(Thread, Action)>)
    decreases |steps|
  {
    steps != [] ==> Enabled(s, steps[0].0, steps[0].1) && IsRun(Do(s, steps[0].0, steps[0].1), steps[1..])
  }

  ghost function Final(s: State, steps: seq<(Thread, Action)>): State
    requires IsRun(s, steps)
    decreases |steps|
  {
    if steps == [] then s else Final(Do(s, steps[0].0, steps[0].1), steps[1..])
  }

  lemma {:induction false} RunKeeps(s: State, steps: seq<(Thread, Action)>)
    requires Inv(s) && IsRun(s, steps)
    ensures Inv(Final(s, steps))
    decreases |steps|
  {
    if steps != [] {
      StepKeeps(s, steps[0].0, steps[0].1);
      RunKeeps(Do(s, steps[0].0, steps[0].1), steps[1..]);
    }
  }

  /** In every interleaving: at most one thread loads a page; the sentinel is there exactly while one
      does; and no guard carries the sentinel id. */
  lemma SingleLoader(s0: State, steps: seq<(Thread, Action)>)
    requires Initial(s0) && IsRun(s0, steps)
    ensures var s := Final(s0, steps);
            && (forall t, t', p | Loads(s, t, p) && Loads(s, t', p) :: t == t')
            && (forall p :: HasSentinel(s, p) <==> exists t :: Loads(s, t, p))
            && (forall t | At(s, t).Guarding? :: At(s, t).frame != LOADING_SENTINEL && At(s, t).frame < s.frameCount)
  {
    RunKeeps(s0, steps);
  }

  /** In every interleaving: only the thread that loads a page replaces or removes its sentinel. */
  lemma OnlyLoaderEndsSentinel(s0: State, steps: seq<(Thread, Action)>, t: Thread, a: Action, p: PageId)
    requires Initial(s0) && IsRun(s0, steps)
    requires var s := Final(s0, steps); Enabled(s, t, a) && HasSentinel(s, p) && !HasSentinel(Do(s, t, a), p)
    ensures a.Finish? && Loads(Final(s0, steps), t, p)
  {
    RunKeeps(s0, steps);
  }
}
