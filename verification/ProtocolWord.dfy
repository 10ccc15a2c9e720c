/** Runs of the logger, and their lock step on wrapping 64-bit indices. */
module ProtocolWord {
  import opened Bits
  import opened Ring
  import opened LogEntries
  import opened Protocol
  import opened ProtocolInv
  import Spsc = SpscMachine
  import SW = SpscWord

  function Run(w: Width, cfg: Config, s: State, sched: seq<Action>): (t: State)
    requires s.q.cap > 0
    ensures t.q.cap == s.q.cap && |t.sinks| == |s.sinks|
    decreases |sched|
  {
    if sched == [] then s else Run(w, cfg, Step(w, cfg, s, sched[0]), sched[1..])
  }

  function RecordRun(w: Width, cfg: Config, s: State, h: History, sched: seq<Action>): History
    requires s.q.cap > 0
    decreases |sched|
  {
    if sched == [] then h
    else RecordRun(w, cfg, Step(w, cfg, s, sched[0]), Record(s, h, sched[0]), sched[1..])
  }

  lemma FitsMeansNoOverrun(cfg: Config, s: State, h: History, a: Action)
    requires Inv(cfg, s, h) && DequeueFits(cfg, s.q.cap)
    ensures !Overruns(cfg, s, a)
  {
    if s.w.WDequeue? {
      EntryFits(cfg, s, h);
    }
  }

  lemma StepKeeps(cfg: Config, s: State, h: History, a: Action) returns (t: State, g: History)
    requires Inv(cfg, s, h) && GoodConfig(cfg) && DequeueFits(cfg, s.q.cap) && GoodAction(cfg, a)
    ensures t == Step(Unbounded, cfg, s, a) && g == Record(s, h, a) && Inv(cfg, t, g)
  {
    t, g := Step(Unbounded, cfg, s, a), Record(s, h, a);
    FitsMeansNoOverrun(cfg, s, h, a);
    StepInv(cfg, s, h, a);
  }

  lemma {:induction false} RunInv(cfg: Config, s: State, h: History, sched: seq<Action>)
    requires Inv(cfg, s, h) && GoodConfig(cfg) && DequeueFits(cfg, s.q.cap) && GoodSchedule(cfg, sched)
    ensures Inv(cfg, Run(Unbounded, cfg, s, sched), RecordRun(Unbounded, cfg, s, h, sched))
    decreases |sched|
  {
    if sched != [] {
      var t, g := StepKeeps(cfg, s, h, sched[0]);
      RunInv(cfg, t, g, sched[1..]);
    }
  }

  // ------------------------------------------------------------------- 64-bit indices

  function WordOf(s: State): State {
    s.(q := SW.WordOf(s.q))
  }

  lemma FramesFit(cfg: Config, s: State, h: History)
    requires Inv(cfg, s, h)
    ensures SW.SizesFit(s.q)
  {
    if s.w.WDequeuing? {
      assert FrameFor(cfg, h.frames[h.taken], h.accepted[h.taken]);
    }
  }

  lemma SameEnqueue(cfg: Config, s: State)
    requires s.q.cap > 0 && s.f.FEnqueue?
    requires Spsc.ProducerStep(Word64, SW.WordOf(s.q)) == SW.WordOf(Spsc.ProducerStep(Unbounded, s.q))
    ensures FrontendStep(Word64, cfg, WordOf(s)) == WordOf(FrontendStep(Unbounded, cfg, s))
  {
    var p := Spsc.ProducerStep(Unbounded, s.q).p;
    assert SW.WordProducer(p).PDone? == p.PDone? && (p.PDone? ==> SW.WordProducer(p) == p);
  }

  lemma SameWait(cfg: Config, s: State)
    requires s.q.cap > 0 && !s.f.FEnqueue?
    ensures FrontendStep(Word64, cfg, WordOf(s)) == WordOf(FrontendStep(Unbounded, cfg, s))
  {
  }

  lemma SameFrontend(cfg: Config, s: State, h: History)
    requires Inv(cfg, s, h)
    ensures FrontendStep(Word64, cfg, WordOf(s)) == WordOf(FrontendStep(Unbounded, cfg, s))
  {
    if s.f.FEnqueue? {
      FramesFit(cfg, s, h);
      SW.WordStep(s.q, Spsc.StepProducer);
      SameEnqueue(cfg, s);
    } else {
      SameWait(cfg, s);
    }
  }

  /** The queue operation that the worker's next step performs. */
  function QueueAction(w: Worker): Spsc.Action {
    match w
    case WPeek(_) => Spsc.CallPeek(2)
    case WDequeue(_, n) => Spsc.CallDequeue(n)
    case _ => Spsc.StepConsumer
  }

  lemma SameRead(cfg: Config, s: State)
    requires s.q.cap > 0 && (s.w.WPeeking? || s.w.WDequeuing?)
    requires Spsc.ConsumerStep(Word64, SW.WordOf(s.q)) == SW.WordOf(Spsc.ConsumerStep(Unbounded, s.q))
    ensures WorkerStep(Word64, cfg, WordOf(s)) == WordOf(WorkerStep(Unbounded, cfg, s))
  {
    var q := Spsc.ConsumerStep(Unbounded, s.q);
    var v := SW.WordOf(q);
    assert v.c.CDone? == q.c.CDone?;
    assert q.c.CDone? ==> v.c == q.c;
  }

  lemma SameCall(cfg: Config, s: State)
    requires s.q.cap > 0 && (s.w.WPeek? || s.w.WDequeue?)
    requires var a := QueueAction(s.w);
             Spsc.Step(Word64, SW.WordOf(s.q), a) == SW.WordOf(Spsc.Step(Unbounded, s.q, a))
    ensures WorkerStep(Word64, cfg, WordOf(s)) == WordOf(WorkerStep(Unbounded, cfg, s))
  {
  }

  /** The other steps do not touch the queue. */
  lemma SameDeliver(cfg: Config, s: State)
    requires s.q.cap > 0 && s.w.WDeliver?
    ensures WorkerStep(Word64, cfg, WordOf(s)) == WordOf(WorkerStep(Unbounded, cfg, s))
  {
  }

  lemma SameTop(cfg: Config, s: State)
    requires s.q.cap > 0 && (s.w.WLoadStop? || s.w.WLoadRequested? || s.w.WLoadCompleted?)
    ensures WorkerStep(Word64, cfg, WordOf(s)) == WordOf(WorkerStep(Unbounded, cfg, s))
  {
  }

  lemma SameEnd(cfg: Config, s: State)
    requires s.q.cap > 0 && (s.w.WComplete? || s.w.WFinalLoad? || s.w.WFinalStore? || s.w.WExited?)
    ensures WorkerStep(Word64, cfg, WordOf(s)) == WordOf(WorkerStep(Unbounded, cfg, s))
  {
  }

  lemma SameWorker(cfg: Config, s: State, h: History)
    requires Inv(cfg, s, h)
    ensures WorkerStep(Word64, cfg, WordOf(s)) == WordOf(WorkerStep(Unbounded, cfg, s))
  {
    FramesFit(cfg, s, h);
    if s.w.WDequeue? {
      assert FrameFor(cfg, h.frames[h.taken], h.accepted[h.taken]);
    }
    SW.WordStep(s.q, QueueAction(s.w));
    match s.w {
      case WPeek(_) => SameCall(cfg, s);
      case WDequeue(_, _) => SameCall(cfg, s);
      case WPeeking(_) => SameRead(cfg, s);
      case WDequeuing(_, _) => SameRead(cfg, s);
      case WDeliver(_, _, _) => SameDeliver(cfg, s);
      case WLoadStop => SameTop(cfg, s);
      case WLoadRequested => SameTop(cfg, s);
      case WLoadCompleted(_) => SameTop(cfg, s);
      case _ => SameEnd(cfg, s);
    }
  }

  lemma SameLog(cfg: Config, s: State, h: History, req: Request, padding: seq<byte>)
    requires Inv(cfg, s, h) && GoodConfig(cfg) && GoodAction(cfg, Log(req, padding))
    ensures Step(Word64, cfg, WordOf(s), Log(req, padding)) == WordOf(Step(Unbounded, cfg, s, Log(req, padding)))
  {
    if FitsEntry(req) {
      FramesFit(cfg, s, h);
      FrameRoundTrip(cfg, req, padding);
      SW.WordStep(s.q, Spsc.CallEnqueue(FrameOf(cfg, req, padding)));
    }
  }

  lemma SameRecord(s: State, h: History, a: Action)
    requires s.q.cap > 0
    ensures Record(WordOf(s), h, a) == Record(s, h, a)
  {
  }

  lemma SameOther(cfg: Config, s: State, a: Action)
    requires s.q.cap > 0 && !a.Log? && !a.StepFrontend? && !a.StepWorker?
    ensures Step(Word64, cfg, WordOf(s), a) == WordOf(Step(Unbounded, cfg, s, a))
  {
  }

  lemma SameStep(cfg: Config, s: State, h: History, a: Action)
    requires Inv(cfg, s, h) && GoodConfig(cfg) && GoodAction(cfg, a)
    ensures Step(Word64, cfg, WordOf(s), a) == WordOf(Step(Unbounded, cfg, s, a))
    ensures Record(WordOf(s), h, a) == Record(s, h, a)
  {
    SameRecord(s, h, a);
    match a {
      case Log(req, padding) => SameLog(cfg, s, h, req, padding);
      case StepFrontend => SameFrontend(cfg, s, h);
      case StepWorker => SameWorker(cfg, s, h);
      case _ => SameOther(cfg, s, a);
    }
  }

  lemma {:induction false} SameRun(cfg: Config, s: State, h: History, sched: seq<Action>)
    requires Inv(cfg, s, h) && GoodConfig(cfg) && DequeueFits(cfg, s.q.cap) && GoodSchedule(cfg, sched)
    ensures Run(Word64, cfg, WordOf(s), sched) == WordOf(Run(Unbounded, cfg, s, sched))
    ensures RecordRun(Word64, cfg, WordOf(s), h, sched) == RecordRun(Unbounded, cfg, s, h, sched)
    decreases |sched|
  {
    if sched != [] {
      SameStep(cfg, s, h, sched[0]);
      var t, g := StepKeeps(cfg, s, h, sched[0]);
      SameRun(cfg, t, g, sched[1..]);
    }
  }
}
