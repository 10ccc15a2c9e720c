/** Every accepted entry is delivered, flush or no flush: the worker's own steps hand everything in the
    ring to every sink. */
module ProtocolDelivery {
  import opened Bits
  import opened Ring
  import opened Protocol
  import opened ProtocolInv
  import opened ProtocolWord
  import opened ProtocolRuns
  import opened ProtocolProgress
  import Spsc = SpscMachine

  /** Where the worker stands between one entry and the next. */
  function Place(w: Worker): nat {
    match w
    case WDeliver(_, _, _) => 9
    case WLoadStop => 8
    case WLoadRequested => 7
    case WLoadCompleted(_) => 6
    case WComplete(_) => 6
    case WPeek(_) => 5
    case WPeeking(_) => 4
    case WDequeue(_, _) => 3
    case WDequeuing(_, _) => 2
    case _ => 0
  }

  datatype Rest = Rest(entries: nat, place: nat, inner: nat)

  function RestOf(s: State, h: History): Rest {
    Rest(Difference(|h.frames|, h.taken), Place(s.w), Inner(s))
  }

  predicate Less(x: Rest, y: Rest) {
    || x.entries < y.entries
    || (x.entries == y.entries && x.place < y.place)
    || (x.entries == y.entries && x.place == y.place && x.inner < y.inner)
  }

  /** Some sink has not been handed some accepted entry. */
  predicate Undelivered(s: State, h: History) { Handed(s.w, h.taken) < |h.accepted| }

  predicate Closer(s: State, h: History, t: State, g: History) {
    t.f == s.f && g.accepted == h.accepted && Less(RestOf(t, g), RestOf(s, h))
  }

  lemma PeekCloser(cfg: Config, s: State, h: History)
    requires Inv(cfg, s, h) && s.w.WPeeking? && h.taken < |h.frames|
    ensures Closer(s, h, Step(Unbounded, cfg, s, StepWorker), Record(s, h, StepWorker))
  {
    PeekOutcome(cfg, s, h);
    OperationAdvances(s.q);
  }

  lemma EntryCloser(s: State, h: History, q: Spsc.State, m: Message)
    requires s.w.WDequeuing? && h.taken < |h.frames|
    ensures Closer(s, h, s.(q := q, w := WDeliver(s.w.ctx, m, 0)), h.(taken := h.taken + 1))
  {
  }

  lemma TakingCloser(cfg: Config, s: State, h: History)
    requires Inv(cfg, s, h) && s.w.WDequeuing? && s.q.c.CCopy? && |s.q.c.out| >= s.q.c.n
    ensures Closer(s, h, Step(Unbounded, cfg, s, StepWorker), Record(s, h, StepWorker))
  {
    TakenRecord(s, h);
    FrameTaken(cfg, s, h);
    EntryCloser(s, h, WorkerStep(Unbounded, cfg, s).q, MessageOf(cfg, h.accepted[h.taken]));
  }

  lemma CopyingCloser(cfg: Config, s: State, h: History)
    requires Inv(cfg, s, h) && s.w.WDequeuing? && !(s.q.c.CCopy? && |s.q.c.out| >= s.q.c.n)
    ensures Closer(s, h, Step(Unbounded, cfg, s, StepWorker), Record(s, h, StepWorker))
  {
    TakenRecord(s, h);
    NothingTaken(cfg, s, h);
    OperationAdvances(s.q);
  }

  lemma LoopCloser(cfg: Config, s: State, h: History)
    requires s.q.cap > 0 && !s.w.WPeeking? && !s.w.WDequeuing? && !Drained(s.w)
    requires s.w.WDeliver? ==> s.w.next <= |s.sinks|
    ensures Closer(s, h, Step(Unbounded, cfg, s, StepWorker), Record(s, h, StepWorker))
  {
    if s.w.WDeliver? && s.w.next < |s.sinks| {
      assert Inner(WorkerStep(Unbounded, cfg, s)) < Inner(s);
    }
  }

  lemma StepCloser(cfg: Config, s: State, h: History)
    requires Inv(cfg, s, h) && Undelivered(s, h)
    ensures Closer(s, h, Step(Unbounded, cfg, s, StepWorker), Record(s, h, StepWorker))
  {
    match s.w {
      case WPeeking(_) => PeekCloser(cfg, s, h);
      case WDequeuing(_, _) =>
        if s.q.c.CCopy? && |s.q.c.out| >= s.q.c.n { TakingCloser(cfg, s, h); } else { CopyingCloser(cfg, s, h); }
      case _ => LoopCloser(cfg, s, h);
    }
  }

  lemma StepOn(cfg: Config, s: State, h: History) returns (t: State, g: History)
    requires Inv(cfg, s, h) && GoodConfig(cfg) && DequeueFits(cfg, s.q.cap) && Undelivered(s, h)
    ensures t == Step(Unbounded, cfg, s, StepWorker) && Inv(cfg, t, g) && Closer(s, h, t, g)
  {
    t, g := StepKeeps(cfg, s, h, StepWorker);
    StepCloser(cfg, s, h);
  }

  /** The schedule delivers everything that was accepted before it, and the frontend stays put. */
  ghost predicate Delivers(cfg: Config, s: State, h: History, sched: seq<Action>)
    requires s.q.cap > 0
  {
    Run(Unbounded, cfg, s, sched).f == s.f && AllDelivered(cfg, Run(Unbounded, cfg, s, sched), h)
  }

  lemma DeliversLater(cfg: Config, s: State, h: History, t: State, g: History, m: nat)
    requires s.q.cap > 0 && t == Step(Unbounded, cfg, s, StepWorker) && t.f == s.f && g.accepted == h.accepted
    requires Delivers(cfg, t, g, Alone(m))
    ensures Delivers(cfg, s, h, Alone(m + 1))
  {
    RunAlone(cfg, s, m);
  }

  lemma {:induction false} WorkerDelivers(cfg: Config, s: State, h: History, left: Rest)
      returns (n: nat, sched: seq<Action>)
    requires Inv(cfg, s, h) && GoodConfig(cfg) && DequeueFits(cfg, s.q.cap) && left == RestOf(s, h)
    ensures sched == Alone(n) && Delivers(cfg, s, h, sched)
    decreases left.entries, left.place, left.inner
  {
    if Undelivered(s, h) {
      var t, g := StepOn(cfg, s, h);
      n, sched := WorkerDelivers(cfg, t, g, RestOf(t, g));
      DeliversLater(cfg, s, h, t, g, n);
      n, sched := n + 1, Alone(n + 1);
    } else {
      DrainedIsDelivered(cfg, s, h);
      n, sched := 0, [];
    }
  }

  /** In every run of the compiled logger, at every moment: some number of steps of the worker alone
      leaves every sink with exactly the messages of all requests accepted so far. */
  lemma EveryEntryDelivered(cfg: Config, cap: nat, buf: seq<byte>, sinks: nat, level: nat, sched: seq<Action>)
      returns (n: nat)
    requires Capacity(cap) && |buf| == cap && GoodConfig(cfg) && DequeueFits(cfg, cap) && GoodSchedule(cfg, sched)
    ensures var s0 := Init(cap, buf, sinks, level);
            var h := RecordRun(Word64, cfg, s0, EMPTY_HISTORY, sched);
            var t := Run(Word64, cfg, Run(Word64, cfg, s0, sched), Alone(n));
            forall j :: 0 <= j < |t.sinks| ==> t.sinks[j] == MessagesOf(cfg, h.accepted)
  {
    var s0 := Init(cap, buf, sinks, level);
    InitInv(cfg, cap, buf, sinks, level);
    assert WordOf(s0) == s0;
    SameRun(cfg, s0, EMPTY_HISTORY, sched);
    RunInv(cfg, s0, EMPTY_HISTORY, sched);
    var s, h := Run(Unbounded, cfg, s0, sched), RecordRun(Unbounded, cfg, s0, EMPTY_HISTORY, sched);
    var alone: seq<Action>;
    n, alone := WorkerDelivers(cfg, s, h, RestOf(s, h));
    AloneIsGood(cfg, n);
    SameRun(cfg, s, h, Alone(n));
  }
}
