/** flush() and stop() cannot hang: while the frontend waits, the worker's own steps end the wait. */
module ProtocolProgress {
  import opened Bits
  import opened Ring
  import opened Protocol
  import opened ProtocolInv
  import opened ProtocolWord
  import Spsc = SpscMachine

  /** The frontend waits for a flush request or for the worker thread to end. */
  predicate Waits(s: State) { s.f.FFlush? || s.f.FJoin? }

  /** The wait is over. */
  predicate Released(s: State) {
    (s.f.FFlush? && s.completed >= s.f.ticket) || (s.f.FJoin? && s.w.WExited?)
  }

  // ------------------------------------------------------------------ what is left to do

  function CopyLeft(n: nat, done: nat): nat {
    if done < n then n - done + 1 else 1
  }

  /** Steps left in the queue operation. */
  function OperationLeft(c: Spsc.Consumer): nat {
    match c
    case CCheck(n) => n + 3
    case CReload(n, _) => n + 2
    case CCopy(n, _, out) => CopyLeft(n, |out|)
    case CPeekHead(n) => n + 3
    case CPeekTail(n, _) => n + 2
    case CPeekCopy(n, _, out) => CopyLeft(n, |out|)
    case _ => 0
  }

  lemma OperationAdvances(q: Spsc.State)
    requires q.cap > 0 && (Spsc.InsidePeek(q.c) || Spsc.InsideDequeue(q.c))
    ensures OperationLeft(Spsc.Step(Unbounded, q, Spsc.StepConsumer).c) < OperationLeft(q.c)
  {
  }

  function Inner(s: State): nat {
    match s.w
    case WPeeking(_) => OperationLeft(s.q.c)
    case WDequeuing(_, _) => OperationLeft(s.q.c)
    case WDeliver(_, _, next) => Difference(|s.sinks|, next) + 1
    case _ => 0
  }

  /** Within the reading of one entry. */
  function Stage(w: Worker): nat {
    match w
    case WDeliver(_, _, _) => 6
    case WPeek(_) => 5
    case WPeeking(_) => 4
    case WDequeue(_, _) => 3
    case WDequeuing(_, _) => 2
    case WFinalLoad => 2
    case WFinalStore(_) => 1
    case _ => 0
  }

  /** How far the loop is from the drain that ends the wait. */
  function Phase(s: State): nat {
    if s.f.FFlush? then
      match s.w
      case WLoadStop => 3
      case WLoadRequested => 2
      case WLoadCompleted(req) => if req > s.completed then 1 else 5
      case _ => if ContextOf(s.w).Flushing? || s.w.WComplete? then 0 else 4
    else
      match s.w
      case WLoadRequested => 7
      case WLoadCompleted(_) => 6
      case WComplete(_) => 4
      case WLoadStop => 2
      case WFinalLoad => 0
      case WFinalStore(_) => 0
      case WExited => 0
      case _ => if ContextOf(s.w).Flushing? then 5 else if ContextOf(s.w).Main? then 3 else 1
  }

  datatype Left = Left(unanswered: nat, phase: nat, entries: nat, stage: nat, inner: nat)

  function Difference(a: int, b: int): nat { if a < b then 0 else a - b }

  function LeftOf(s: State, h: History): Left {
    Left(Difference(s.requested, s.completed), Phase(s), Difference(|h.frames|, h.taken), Stage(s.w), Inner(s))
  }

  /** The lexicographic order. */
  predicate Before(x: Left, y: Left) {
    || x.unanswered < y.unanswered
    || (x.unanswered == y.unanswered && x.phase < y.phase)
    || (x.unanswered == y.unanswered && x.phase == y.phase && x.entries < y.entries)
    || (x.unanswered == y.unanswered && x.phase == y.phase && x.entries == y.entries && x.stage < y.stage)
    || (x.unanswered == y.unanswered && x.phase == y.phase && x.entries == y.entries
        && x.stage == y.stage && x.inner < y.inner)
  }

  predicate Advances(s: State, h: History, t: State, g: History) {
    t.f == s.f && Before(LeftOf(t, g), LeftOf(s, h))
  }

  /** The queue operation made a step. */
  lemma OperationNearer(s: State, h: History, q: Spsc.State)
    requires (s.w.WPeeking? || s.w.WDequeuing?) && OperationLeft(q.c) < OperationLeft(s.q.c)
    ensures Before(LeftOf(s.(q := q), h), LeftOf(s, h))
  {
  }

  /** The peek ended. */
  lemma PeekNearer(s: State, h: History, q: Spsc.State, w: Worker)
    requires s.w.WPeeking? && Waits(s) && (ContextOf(s.w).Final? ==> s.f.FJoin?)
    requires (w.WDequeue? && w.ctx == s.w.ctx) || w == AfterNothing(s.w.ctx)
    ensures Before(LeftOf(s.(q := q, w := w), h), LeftOf(s, h))
  {
  }

  /** An entry left the queue. */
  lemma EntryNearer(s: State, h: History, q: Spsc.State, m: Message)
    requires s.w.WDequeuing? && h.taken < |h.frames|
    ensures Before(LeftOf(s.(q := q, w := WDeliver(s.w.ctx, m, 0)), h.(taken := h.taken + 1)), LeftOf(s, h))
  {
  }

  lemma PeekAdvances(cfg: Config, s: State, h: History)
    requires Inv(cfg, s, h) && Waits(s) && s.w.WPeeking?
    ensures Advances(s, h, Step(Unbounded, cfg, s, StepWorker), Record(s, h, StepWorker))
  {
    var t := WorkerStep(Unbounded, cfg, s);
    PeekOutcome(cfg, s, h);
    if t.w == s.w {
      OperationAdvances(s.q);
      OperationNearer(s, h, t.q);
    } else {
      PeekNearer(s, h, t.q, t.w);
    }
  }

  lemma TakingAdvances(cfg: Config, s: State, h: History)
    requires Inv(cfg, s, h) && s.w.WDequeuing? && s.q.c.CCopy? && |s.q.c.out| >= s.q.c.n
    ensures Advances(s, h, Step(Unbounded, cfg, s, StepWorker), Record(s, h, StepWorker))
  {
    var t := WorkerStep(Unbounded, cfg, s);
    TakenRecord(s, h);
    FrameTaken(cfg, s, h);
    EntryNearer(s, h, t.q, MessageOf(cfg, h.accepted[h.taken]));
  }

  lemma CopyingAdvances(cfg: Config, s: State, h: History)
    requires Inv(cfg, s, h) && s.w.WDequeuing? && !(s.q.c.CCopy? && |s.q.c.out| >= s.q.c.n)
    ensures Advances(s, h, Step(Unbounded, cfg, s, StepWorker), Record(s, h, StepWorker))
  {
    TakenRecord(s, h);
    NothingTaken(cfg, s, h);
    OperationAdvances(s.q);
    OperationNearer(s, h, WorkerStep(Unbounded, cfg, s).q);
  }

  /** The steps that neither read nor deliver. */
  predicate LoopStep(w: Worker) {
    w.WLoadStop? || w.WLoadRequested? || w.WLoadCompleted? || w.WComplete? || w.WFinalLoad? || w.WFinalStore?
  }

  lemma LoopAdvances(cfg: Config, s: State, h: History)
    requires s.q.cap > 0 && FlushOk(s, h) && StopOk(s, h) && Waits(s) && !Released(s) && LoopStep(s.w)
    ensures Advances(s, h, Step(Unbounded, cfg, s, StepWorker), Record(s, h, StepWorker))
  {
  }

  lemma EntryAdvances(cfg: Config, s: State, h: History)
    requires s.q.cap > 0 && Waits(s) && (s.w.WPeek? || s.w.WDequeue? || (s.w.WDeliver? && s.w.next <= |s.sinks|))
    requires ContextOf(s.w).Final? ==> s.f.FJoin?
    ensures Advances(s, h, Step(Unbounded, cfg, s, StepWorker), Record(s, h, StepWorker))
  {
    if s.w.WDeliver? && s.w.next < |s.sinks| {
      var t := WorkerStep(Unbounded, cfg, s);
      assert Inner(t) < Inner(s) && LeftOf(t, h) == LeftOf(s, h).(inner := Inner(t));
    }
  }

  /** Every step of the worker brings the end of the wait nearer. */
  lemma StepAdvances(cfg: Config, s: State, h: History)
    requires Inv(cfg, s, h) && Waits(s) && !Released(s)
    ensures Advances(s, h, Step(Unbounded, cfg, s, StepWorker), Record(s, h, StepWorker))
  {
    match s.w {
      case WPeeking(_) => PeekAdvances(cfg, s, h);
      case WDequeuing(_, _) =>
        if s.q.c.CCopy? && |s.q.c.out| >= s.q.c.n { TakingAdvances(cfg, s, h); } else { CopyingAdvances(cfg, s, h); }
      case WPeek(_) => EntryAdvances(cfg, s, h);
      case WDequeue(_, _) => EntryAdvances(cfg, s, h);
      case WDeliver(_, _, _) => EntryAdvances(cfg, s, h);
      case _ => LoopAdvances(cfg, s, h);
    }
  }

  lemma StepOnce(cfg: Config, s: State, h: History) returns (t: State, g: History)
    requires Inv(cfg, s, h) && GoodConfig(cfg) && DequeueFits(cfg, s.q.cap) && Waits(s) && !Released(s)
    ensures t == Step(Unbounded, cfg, s, StepWorker) && Inv(cfg, t, g) && Advances(s, h, t, g)
  {
    t, g := StepKeeps(cfg, s, h, StepWorker);
    StepAdvances(cfg, s, h);
  }

  /** `n` steps of the worker alone. */
  function Alone(n: nat): seq<Action> {
    if n == 0 then [] else [StepWorker] + Alone(n - 1)
  }

  lemma RunAlone(cfg: Config, s: State, n: nat)
    requires s.q.cap > 0
    ensures Run(Unbounded, cfg, s, Alone(n + 1)) == Run(Unbounded, cfg, Step(Unbounded, cfg, s, StepWorker), Alone(n))
  {
    assert Alone(n + 1)[1..] == Alone(n);
  }

  ghost predicate EndsIn(cfg: Config, s: State, f: Frontend, sched: seq<Action>)
    requires s.q.cap > 0
  {
    Run(Unbounded, cfg, s, sched).f == f && Released(Run(Unbounded, cfg, s, sched))
  }

  lemma EndsStep(cfg: Config, s: State, t: State, m: nat)
    requires s.q.cap > 0 && t == Step(Unbounded, cfg, s, StepWorker)
    requires EndsIn(cfg, t, s.f, Alone(m))
    ensures EndsIn(cfg, s, s.f, Alone(m + 1))
  {
    RunAlone(cfg, s, m);
  }

  /** The worker's own steps end the wait. */
  lemma {:induction false} WaitEnds(cfg: Config, s: State, h: History, left: Left) returns (n: nat, sched: seq<Action>)
    requires Inv(cfg, s, h) && GoodConfig(cfg) && DequeueFits(cfg, s.q.cap) && Waits(s) && left == LeftOf(s, h)
    ensures sched == Alone(n) && EndsIn(cfg, s, s.f, sched)
    decreases left.unanswered, left.phase, left.entries, left.stage, left.inner
  {
    if Released(s) {
      n, sched := 0, [];
    } else {
      var t, g := StepOnce(cfg, s, h);
      n, sched := WaitEnds(cfg, t, g, LeftOf(t, g));
      EndsStep(cfg, s, t, n);
      n, sched := n + 1, Alone(n + 1);
    }
  }

  lemma {:induction false} AloneIsGood(cfg: Config, n: nat)
    ensures GoodSchedule(cfg, Alone(n))
  {
    if n > 0 {
      AloneIsGood(cfg, n - 1);
    }
  }

  lemma ReleasedLeaves(w: Width, cfg: Config, s: State)
    requires s.q.cap > 0 && Released(s)
    ensures !Waits(Step(w, cfg, s, StepFrontend))
  {
  }

  /** In every run of the compiled logger: whenever flush() or stop() waits, some number of steps of
      the worker alone lets the frontend's next step leave the wait. */
  lemma NoHang(cfg: Config, cap: nat, buf: seq<byte>, sinks: nat, level: nat, sched: seq<Action>) returns (n: nat)
    requires Capacity(cap) && |buf| == cap && GoodConfig(cfg) && DequeueFits(cfg, cap) && GoodSchedule(cfg, sched)
    ensures var s := Run(Word64, cfg, Init(cap, buf, sinks, level), sched);
            var t := Run(Word64, cfg, s, Alone(n));
            Waits(s) ==> t.f == s.f && !Waits(Step(Word64, cfg, t, StepFrontend))
  {
    var s0 := Init(cap, buf, sinks, level);
    InitInv(cfg, cap, buf, sinks, level);
    assert WordOf(s0) == s0;
    SameRun(cfg, s0, EMPTY_HISTORY, sched);
    RunInv(cfg, s0, EMPTY_HISTORY, sched);
    var s, h := Run(Unbounded, cfg, s0, sched), RecordRun(Unbounded, cfg, s0, EMPTY_HISTORY, sched);
    n := 0;
    if Waits(s) {
      var alone: seq<Action>;
      n, alone := WaitEnds(cfg, s, h, LeftOf(s, h));
      AloneIsGood(cfg, n);
      SameRun(cfg, s, h, Alone(n));
      ReleasedLeaves(Word64, cfg, Run(Word64, cfg, WordOf(s), Alone(n)));
    }
  }
}
