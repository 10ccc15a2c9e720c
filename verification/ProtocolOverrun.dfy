/** The worker dequeues into a buffer whose size is an option: exactly which sizes are safe. */
module ProtocolOverrun {
  import opened Bits
  import opened Ring
  import opened Chunks
  import opened LogEntries
  import opened Protocol
  import opened ProtocolInv
  import opened ProtocolWord
  import opened ProtocolProgress
  import Spsc = SpscMachine

  /** A good schedule that makes the compiled logger overrun a buffer, from the 64-bit form of `s`. */
  ghost predicate Faults(cfg: Config, s: State, sched: seq<Action>)
    requires s.q.cap > 0
  {
    GoodSchedule(cfg, sched) && Run(Word64, cfg, WordOf(s), sched).fault
  }

  lemma FaultsLater(cfg: Config, s: State, h: History, a: Action, rest: seq<Action>)
    requires Inv(cfg, s, h) && GoodConfig(cfg) && GoodAction(cfg, a)
    requires Faults(cfg, Step(Unbounded, cfg, s, a), rest)
    ensures Faults(cfg, s, [a] + rest)
  {
    SameStep(cfg, s, h, a);
    assert ([a] + rest)[1..] == rest;
  }

  /** The next entry to be dequeued is longer than the dequeue buffer. */
  ghost predicate NextTooLong(cfg: Config, h: History) {
    h.taken < |h.frames| && |h.frames[h.taken]| > cfg.dequeueSize
  }

  lemma FaultsAtDequeue(cfg: Config, s: State, h: History)
    requires Inv(cfg, s, h) && s.w.WDequeue? && NextTooLong(cfg, h)
    ensures Faults(cfg, s, [StepWorker])
  {
    assert [StepWorker][1..] == [];
    assert WorkerStep(Word64, cfg, WordOf(s)).fault;
  }

  lemma PeekStep(cfg: Config, s: State, h: History)
    requires Inv(cfg, s, h) && s.w.WPeeking? && NextTooLong(cfg, h)
    ensures var t := Step(Unbounded, cfg, s, StepWorker);
            && Inv(cfg, t, h)
            && (t.w.WDequeue? || (t.w == s.w && OperationLeft(t.q.c) < OperationLeft(s.q.c)))
  {
    PeekingInv(cfg, s, h);
    PeekOutcome(cfg, s, h);
    OperationAdvances(s.q);
  }

  lemma {:induction false} FaultsWhilePeeking(cfg: Config, s: State, h: History) returns (sched: seq<Action>)
    requires Inv(cfg, s, h) && GoodConfig(cfg) && s.w.WPeeking? && NextTooLong(cfg, h)
    ensures Faults(cfg, s, sched)
    decreases OperationLeft(s.q.c)
  {
    var t := Step(Unbounded, cfg, s, StepWorker);
    PeekStep(cfg, s, h);
    if t.w.WDequeue? {
      FaultsAtDequeue(cfg, t, h);
      sched := [StepWorker];
    } else {
      sched := FaultsWhilePeeking(cfg, t, h);
    }
    FaultsLater(cfg, s, h, StepWorker, sched);
    sched := [StepWorker] + sched;
  }

  /** The worker goes from the top of its loop to the peek in four steps. */
  predicate OnTheWay(s: State) {
    || (s.w.WLoadStop? && !s.stop && s.requested == s.completed)
    || (s.w.WLoadRequested? && s.requested == s.completed)
    || (s.w.WLoadCompleted? && s.w.req == s.completed)
    || s.w == WPeek(Main)
  }

  function StepsToPeek(w: Worker): nat {
    match w
    case WLoadStop => 4
    case WLoadRequested => 3
    case WLoadCompleted(_) => 2
    case _ => 1
  }

  lemma WayStep(cfg: Config, s: State, h: History)
    requires s.q.cap > 0 && OnTheWay(s)
    ensures var t := Step(Unbounded, cfg, s, StepWorker);
            && Record(s, h, StepWorker) == h
            && (t.w.WPeeking? || (OnTheWay(t) && StepsToPeek(t.w) < StepsToPeek(s.w)))
  {
  }

  lemma {:induction false} FaultsOnTheWay(cfg: Config, s: State, h: History) returns (sched: seq<Action>)
    requires Inv(cfg, s, h) && GoodConfig(cfg) && OnTheWay(s) && NextTooLong(cfg, h)
    ensures Faults(cfg, s, sched)
    decreases StepsToPeek(s.w)
  {
    var t := Step(Unbounded, cfg, s, StepWorker);
    StepInv(cfg, s, h, StepWorker);
    WayStep(cfg, s, h);
    if t.w.WPeeking? {
      sched := FaultsWhilePeeking(cfg, t, h);
    } else {
      sched := FaultsOnTheWay(cfg, t, h);
    }
    FaultsLater(cfg, s, h, StepWorker, sched);
    sched := [StepWorker] + sched;
  }

  /** The first entry is being copied into an empty ring with room for it, and is too long. */
  ghost predicate Copying(cfg: Config, s: State, h: History) {
    && s.f.FEnqueue? && h.frames == [] && h.taken == 0 && OnTheWay(s)
    && (s.q.p.PCheck? || s.q.p.PCopy?) && cfg.dequeueSize < |s.q.p.data| <= s.q.cap
    && s.q.tail == s.q.headSnap
  }

  function CopyStepsLeft(p: Spsc.Producer): nat {
    match p
    case PCheck(data) => |data| + 2
    case PCopy(data, _, done) => if done < |data| then |data| - done + 1 else 1
    case _ => 0
  }

  lemma CopyStep(cfg: Config, s: State, h: History)
    requires s.q.cap > 0 && Copying(cfg, s, h)
    ensures var t, g := Step(Unbounded, cfg, s, StepFrontend), Record(s, h, StepFrontend);
            && OnTheWay(t)
            && if g == h then Copying(cfg, t, h) && CopyStepsLeft(t.q.p) < CopyStepsLeft(s.q.p)
               else NextTooLong(cfg, g)
  {
  }

  lemma {:induction false} FaultsWhileCopying(cfg: Config, s: State, h: History) returns (sched: seq<Action>)
    requires Inv(cfg, s, h) && GoodConfig(cfg) && Copying(cfg, s, h)
    ensures Faults(cfg, s, sched)
    decreases CopyStepsLeft(s.q.p)
  {
    var t, g := Step(Unbounded, cfg, s, StepFrontend), Record(s, h, StepFrontend);
    StepInv(cfg, s, h, StepFrontend);
    CopyStep(cfg, s, h);
    if g == h {
      sched := FaultsWhileCopying(cfg, t, h);
    } else {
      sched := FaultsOnTheWay(cfg, t, g);
    }
    FaultsLater(cfg, s, h, StepFrontend, sched);
    sched := [StepFrontend] + sched;
  }

  /** A literal whose entry has `n` bytes. */
  function LiteralOfSize(n: nat): (r: Request)
    requires ENTRY_SIZE <= n <= MAX_ENTRY_SIZE
    ensures FitsEntry(r) && |Payload(r)| == n - ENTRY_SIZE
  {
    Literal(0, seq(n - ENTRY_SIZE, _ => 0))
  }

  lemma LiteralOverruns(cfg: Config, cap: nat, buf: seq<byte>, sinks: nat, level: nat) returns (sched: seq<Action>)
    requires Capacity(cap) && |buf| == cap && GoodConfig(cfg) && !DequeueFits(cfg, cap)
    ensures Faults(cfg, Init(cap, buf, sinks, level), sched)
  {
    var n := if cap < MAX_ENTRY_SIZE then cap else MAX_ENTRY_SIZE;
    var r, padding := LiteralOfSize(n), seq(7, _ => 0 as byte);
    var s0 := Init(cap, buf, sinks, level);
    var a := Log(r, padding);
    InitInv(cfg, cap, buf, sinks, level);
    StepInv(cfg, s0, EMPTY_HISTORY, a);
    FrameParts(cfg, r, padding);
    sched := FaultsWhileCopying(cfg, Step(Unbounded, cfg, s0, a), Record(s0, EMPTY_HISTORY, a));
    FaultsLater(cfg, s0, EMPTY_HISTORY, a, sched);
    sched := [a] + sched;
  }

  /** No run of the compiled logger ever leaves a buffer exactly when the dequeue buffer holds every
      entry that fits both the ring and the payload filter, or the ring holds no entry at all. */
  lemma DequeueBufferBound(cfg: Config, cap: nat, buf: seq<byte>, sinks: nat, level: nat)
    requires Capacity(cap) && |buf| == cap && GoodConfig(cfg)
    ensures (forall sched :: GoodSchedule(cfg, sched) ==> !Run(Word64, cfg, Init(cap, buf, sinks, level), sched).fault)
       <==> DequeueFits(cfg, cap)
  {
    var s0 := Init(cap, buf, sinks, level);
    assert WordOf(s0) == s0;
    InitInv(cfg, cap, buf, sinks, level);
    if DequeueFits(cfg, cap) {
      forall sched | GoodSchedule(cfg, sched) ensures !Run(Word64, cfg, s0, sched).fault {
        SameRun(cfg, s0, EMPTY_HISTORY, sched);
        RunInv(cfg, s0, EMPTY_HISTORY, sched);
      }
    } else {
      var sched := LiteralOverruns(cfg, cap, buf, sinks, level);
      assert GoodSchedule(cfg, sched);
    }
  }
}
