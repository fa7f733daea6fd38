/** The pin / `io_inflight` handshake on one resident frame (src/buffer/pool.rs,
    src/buffer/frame.rs, src/buffer/flusher.rs): any number of guard writers and flushers, one
    sequentially consistent step at a time.

    A flusher here takes and drops the frame's `io_mutex` between phases as it likes, which
    covers both the single-frame flush (held throughout) and the batch flush (taken per phase). */
module Handshake {
  import opened Frames

  type Thread = nat

  /** How far a flusher is after its pin check. */
  datatype Phase = Checked | Summed | Staged(copy: Page) | Wrote(copy: Page, inPlace: Page)

  datatype Pc =
    | Idle
    /** Holds a guard. */
    | Pinned
    /** In `wait_io_quiescent`, holding `io_mutex`. */
    | Waiting
    /** Holds the `&mut` bytes that `buf_mut` returned. */
    | Writing
    /** A flusher that has swapped `io_inflight` to true and not yet looked at the pins. */
    | Claimed
    /** A flusher past its pin check. */
    | FlushPast(phase: Phase, locked: bool)

  datatype State = State(
    pinCount: nat,
    ioInflight: bool,
    ioMutex: Option<Thread>,
    buf: Page,
    threads: map<Thread, Pc>)

  datatype Action =
    | Pin | Unpin | EnterWait | LeaveWait | Mutate(bytes: Page) | EndWrite
    | Claim | CheckPin | Lock | Unlock | Sum | Stage | Put | Release

  predicate HoldsPin(pc: Pc) {
    pc.Pinned? || pc.Waiting? || pc.Writing?
  }

  predicate HoldsMutex(pc: Pc) {
    pc.Waiting? || (pc.FlushPast? && pc.locked)
  }

  predicate IsClaimant(pc: Pc) {
    pc.Claimed? || pc.FlushPast?
  }

  function At(s: State, t: Thread): Pc {
    if t in s.threads then s.threads[t] else Idle
  }

  function Go(s: State, t: Thread, pc: Pc): State {
    s.(threads := s.threads[t := pc])
  }

  predicate Enabled(s: State, t: Thread, a: Action) {
    var pc := At(s, t);
    match a
    case Pin => pc.Idle? && s.pinCount < PIN_MODULUS - 1
    case Unpin => pc.Pinned?
    case EnterWait => pc.Pinned? && s.ioMutex.None?
    case LeaveWait => pc.Waiting?
    case Mutate(_) => pc.Writing?
    case EndWrite => pc.Writing?
    case Claim => pc.Idle?
    case CheckPin => pc.Claimed?
    case Lock => pc.FlushPast? && !pc.locked && s.ioMutex.None?
    case Unlock => pc.FlushPast? && pc.locked
    case Sum => pc.FlushPast? && pc.locked && !pc.phase.Wrote?
    case Stage => pc.FlushPast? && pc.locked && pc.phase.Summed?
    case Put => pc.FlushPast? && pc.locked && (pc.phase.Staged? || pc.phase.Summed?)
    case Release => pc.FlushPast? && !pc.locked
  }

  /** The step itself.  `Claim` is the atomic swap; `CheckPin` gives the claim up when it sees a pin;
      `LeaveWait` returns to the writer only when it sees no I/O in flight; `Release` may come at any
      phase, as on an error; `Put` without `Stage` is a pool with no double-write buffer. */
  function Do(crc: Body -> nat, s: State, t: Thread, a: Action): State
    requires Enabled(s, t, a)
  {
    var pc := At(s, t);
    match a
    case Pin => Go(s.(pinCount := s.pinCount + 1), t, Pinned)
    case Unpin => Go(s.(pinCount := if s.pinCount == 0 then 0 else s.pinCount - 1), t, Idle)
    case EnterWait => Go(s.(ioMutex := Some(t)), t, Waiting)
    case LeaveWait => Go(s.(ioMutex := None), t, if s.ioInflight then Pinned else Writing)
    case Mutate(bytes) => s.(buf := bytes)
    case EndWrite => Go(s, t, Pinned)
    case Claim => if s.ioInflight then s else Go(s.(ioInflight := true), t, Claimed)
    case CheckPin => if s.pinCount > 0 then Go(s.(ioInflight := false), t, Idle) else Go(s, t, FlushPast(Checked, false))
    case Lock => Go(s.(ioMutex := Some(t)), t, FlushPast(pc.phase, true))
    case Unlock => Go(s.(ioMutex := None), t, FlushPast(pc.phase, false))
    case Sum => Go(s.(buf := UpdateChecksum(crc, s.buf)), t, if pc.phase.Checked? then FlushPast(Summed, true) else pc)
    case Stage => Go(s, t, FlushPast(Staged(s.buf), true))
    case Put => Go(s, t, FlushPast(Wrote(if pc.phase.Staged? then pc.phase.copy else s.buf, s.buf), true))
    case Release => Go(s.(ioInflight := false), t, Idle)
  }

  ghost predicate Initial(s: State) {
    s.pinCount == 0 && !s.ioInflight && s.ioMutex.None? && s.threads == map[]
  }

  // ---------------------------------------------------------------- the claim

  /** No writer holds the bytes while a flusher is past its pin check. */
  ghost predicate Exclusive(s: State) {
    forall w, f :: !(At(s, w).Writing? && At(s, f).FlushPast?)
  }

  /** What a flush stages in the double-write buffer is what it writes in place, and its checksum
      is right. */
  ghost predicate CopiesAgree(crc: Body -> nat, s: State) {
    forall f | At(s, f).FlushPast? && At(s, f).phase.Wrote? ::
      var ph := At(s, f).phase; ph.inPlace == ph.copy && VerifyChecksum(crc, ph.copy)
  }

  // ---------------------------------------------------------------- the invariant

  ghost function Pinners(threads: map<Thread, Pc>): set<Thread> {
    set t | t in threads && HoldsPin(threads[t])
  }

  /** The checksum is fresh, and the copies taken are of the bytes now in the frame. */
  ghost predicate PhaseOk(crc: Body -> nat, buf: Page, ph: Phase) {
    match ph
    case Checked => true
    case Summed => VerifyChecksum(crc, buf)
    case Staged(copy) => VerifyChecksum(crc, buf) && copy == buf
    case Wrote(copy, inPlace) => VerifyChecksum(crc, buf) && copy == buf && inPlace == buf
  }

  ghost predicate Inv(crc: Body -> nat, s: State) {
    && s.pinCount == |Pinners(s.threads)|
    && (forall f | IsClaimant(At(s, f)) :: s.ioInflight)
    && (forall f, f' | IsClaimant(At(s, f)) && IsClaimant(At(s, f')) :: f == f')
    && Exclusive(s)
    && (forall t: Thread :: HoldsMutex(At(s, t)) <==> s.ioMutex == Some(t))
    && (forall f | At(s, f).FlushPast? :: PhaseOk(crc, s.buf, At(s, f).phase))
  }

  lemma PinnersGo(threads: map<Thread, Pc>, t: Thread, pc: Pc)
    ensures var before := t in threads && HoldsPin(threads[t]);
            |Pinners(threads[t := pc])| == |Pinners(threads)| + (if HoldsPin(pc) then 1 else 0) - (if before then 1 else 0)
  {
    var rest := Pinners(threads) - {t};
    if t in threads && HoldsPin(threads[t]) {
      assert Pinners(threads) == rest + {t};
    } else {
      assert Pinners(threads) == rest;
    }
    if HoldsPin(pc) {
      assert Pinners(threads[t := pc]) == rest + {t};
    } else {
      assert Pinners(threads[t := pc]) == rest;
    }
  }

  lemma NobodyPins(s: State)
    requires |Pinners(s.threads)| == 0
    ensures forall t :: !HoldsPin(At(s, t))
  {
    assert Pinners(s.threads) == {};
    assert forall t | t in s.threads && HoldsPin(s.threads[t]) :: t in Pinners(s.threads);
  }

  lemma StepKeeps(crc: Body -> nat, s: State, t: Thread, a: Action)
    requires Inv(crc, s) && Enabled(s, t, a)
    ensures Inv(crc, Do(crc, s, t, a))
  {
    var s' := Do(crc, s, t, a);
    PinnersGo(s.threads, t, At(s', t));
    assert forall u | u != t :: At(s', u) == At(s, u);
    if HoldsPin(At(s, t)) {
      assert t in Pinners(s.threads);
    }
    if a.CheckPin? && s.pinCount == 0 {
      NobodyPins(s);
    }
  }

  // ---------------------------------------------------------------- whole runs

  ghost predicate IsRun(crc: Body -> nat, s: State, steps: seq<(Thread, Action)>)
    decreases |steps|
  {
    steps != [] ==>
      && Enabled(s, steps[0].0, steps[0].1)
      && IsRun(crc, Do(crc, s, steps[0].0, steps[0].1), steps[1..])
  }

  ghost function Final(crc: Body -> nat, s: State, steps: seq<(Thread, Action)>): State
    requires IsRun(crc, s, steps)
    decreases |steps|
  {
    if steps == [] then s else Final(crc, Do(crc, s, steps[0].0, steps[0].1), steps[1..])
  }

  lemma {:induction false} RunKeeps(crc: Body -> nat, s: State, steps: seq<(Thread, Action)>)
    requires Inv(crc, s) && IsRun(crc, s, steps)
    ensures Inv(crc, Final(crc, s, steps))
    decreases |steps|
  {
    if steps != [] {
      StepKeeps(crc, s, steps[0].0, steps[0].1);
      RunKeeps(crc, Do(crc, s, steps[0].0, steps[0].1), steps[1..]);
    }
  }

  /** In every interleaving: writers and flushers exclude each other, and a flush writes in place
      exactly the bytes it staged. */
  lemma WritersExcludeFlushers(crc: Body -> nat, s: State, steps: seq<(Thread, Action)>)
    requires Initial(s) && IsRun(crc, s, steps)
    ensures Exclusive(Final(crc, s, steps)) && CopiesAgree(crc, Final(crc, s, steps))
  {
    assert Pinners(s.threads) == {};
    RunKeeps(crc, s, steps);
  }

  /** While a flusher is past its check, only its own checksum update can change the bytes. */
  lemma BytesStayPut(crc: Body -> nat, s: State, t: Thread, a: Action, f: Thread)
    requires Inv(crc, s) && Enabled(s, t, a) && At(s, f).FlushPast? && f != t
    ensures Do(crc, s, t, a).buf == s.buf && At(Do(crc, s, t, a), f) == At(s, f)
  {
    assert t != f && (IsClaimant(At(s, t)) ==> t == f);
  }
}
