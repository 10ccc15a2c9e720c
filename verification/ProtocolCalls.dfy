/** What a call of the logger does once it is made: a log call is queued or dropped by its size and the
    room, a fatal one ends the program, and flush() and stop() return only after a full delivery. */
module ProtocolCalls {
  import opened Bits
  import opened Ring
  import opened Chunks
  import opened Protocol
  import opened ProtocolInv
  import opened ProtocolWord
  import opened ProtocolRuns
  import opened ProtocolProgress
  import Spsc = SpscMachine
  import SpscCalls

  // ------------------------------------------------------------------------ a log call

  /** `n` steps of the frontend alone. */
  function Onward(n: nat): seq<Action> {
    if n == 0 then [] else [StepFrontend] + Onward(n - 1)
  }

  lemma RunFirst(w: Width, cfg: Config, s: State, h: History, a: Action, rest: seq<Action>)
    requires s.q.cap > 0
    ensures Run(w, cfg, s, [a] + rest) == Run(w, cfg, Step(w, cfg, s, a), rest)
    ensures RecordRun(w, cfg, s, h, [a] + rest) == RecordRun(w, cfg, Step(w, cfg, s, a), Record(s, h, a), rest)
  {
    assert ([a] + rest)[1..] == rest;
  }

  /** Level 1 is the fatal one. */
  function AfterLog(cfg: Config, r: Request): Frontend {
    if r.level == 1 && cfg.terminateOnFatal then FStop(true) else FReady
  }

  /** The call has returned, its request accepted or counted as dropped. */
  predicate Returned(cfg: Config, s: State, h: History, t: State, g: History, r: Request, queued: bool) {
    && t.f == AfterLog(cfg, r)
    && t.enqueued == s.enqueued + (if queued then 1 else 0)
    && t.dropped == s.dropped + (if queued then 0 else 1)
    && g.accepted == if queued then h.accepted + [r] else h.accepted
  }

  lemma StepOn(cfg: Config, s: State, h: History) returns (t: State, g: History)
    requires s.f.FEnqueue? && Spsc.Inv(s.q) && Spsc.InsideEnqueue(s.q.p)
    ensures t == Step(Unbounded, cfg, s, StepFrontend) && g == Record(s, h, StepFrontend)
    ensures if t.f.FEnqueue?
            then && t == s.(q := t.q) && g == h && Spsc.Inv(t.q) && Spsc.InsideEnqueue(t.q.p)
                 && SpscCalls.ProducerLeft(t.q.p) < SpscCalls.ProducerLeft(s.q.p)
                 && SpscCalls.WillFit(t.q) == SpscCalls.WillFit(s.q)
            else Returned(cfg, s, h, t, g, s.f.req, SpscCalls.WillFit(s.q))
  {
    SpscCalls.ProducerStepAlone(s.q);
    t, g := Step(Unbounded, cfg, s, StepFrontend), Record(s, h, StepFrontend);
  }

  lemma {:induction false} EnqueueReturns(cfg: Config, s: State, h: History, queued: bool)
      returns (n: nat, t: State, g: History)
    requires s.f.FEnqueue? && Spsc.Inv(s.q) && Spsc.InsideEnqueue(s.q.p) && queued == SpscCalls.WillFit(s.q)
    ensures n <= SpscCalls.ProducerLeft(s.q.p)
    ensures t == Run(Unbounded, cfg, s, Onward(n)) && g == RecordRun(Unbounded, cfg, s, h, Onward(n))
    ensures Returned(cfg, s, h, t, g, s.f.req, queued)
    decreases SpscCalls.ProducerLeft(s.q.p)
  {
    var u, f := StepOn(cfg, s, h);
    if u.f.FEnqueue? {
      n, t, g := EnqueueReturns(cfg, u, f, queued);
    } else {
      n, t, g := 0, u, f;
    }
    RunFirst(Unbounded, cfg, s, h, StepFrontend, Onward(n));
    n := n + 1;
  }

  lemma EntersQueue(cfg: Config, s: State, h: History, r: Request, padding: seq<byte>) returns (u: State, g: History)
    requires Inv(cfg, s, h) && GoodConfig(cfg) && GoodAction(cfg, Log(r, padding))
    requires s.f.FReady? && r.level <= s.level && SizeOf(r) < 1000
    ensures u == Step(Unbounded, cfg, s, Log(r, padding)) && g == Record(s, h, Log(r, padding))
    ensures u == s.(q := u.q, f := FEnqueue(r)) && g == h.(calls := h.calls + 1)
    ensures Spsc.Inv(u.q) && u.q.p.PCheck? && |u.q.p.data| == 24 + SizeOf(r)
    ensures SpscCalls.WillFit(u.q) <==> |Flatten(h.frames[h.taken..])| + 24 + SizeOf(r) <= s.q.cap
  {
    u, g := Step(Unbounded, cfg, s, Log(r, padding)), Record(s, h, Log(r, padding));
    FitsExactly(cfg, r);
    FrameRoundTrip(cfg, r, padding);
    CallEffect(s.q, Spsc.CallEnqueue(FrameOf(cfg, r, padding)));
  }

  /** A log call on a ready logger, wherever the worker is, returns after at most its size and 27 of
      its own steps. It is queued exactly when its level passes, it takes fewer than 1000 bytes, and the
      ring has room for them and a header at the call. */
  lemma LogReturns(cfg: Config, s: State, h: History, r: Request, padding: seq<byte>) returns (n: nat)
    requires Inv(cfg, s, h) && GoodConfig(cfg) && DequeueFits(cfg, s.q.cap) && GoodAction(cfg, Log(r, padding))
    requires s.f.FReady?
    ensures n <= SizeOf(r) + 27
    ensures var sched := [Log(r, padding)] + Onward(n);
            var t := Run(Word64, cfg, WordOf(s), sched);
            var g := RecordRun(Word64, cfg, WordOf(s), h, sched);
            if r.level > s.level then t == WordOf(s) && g == h
            else if SizeOf(r) >= 1000 then t == WordOf(s).(dropped := s.dropped + 1) && g.accepted == h.accepted
            else Returned(cfg, s, h, t, g, r, |Flatten(h.frames[h.taken..])| + 24 + SizeOf(r) <= s.q.cap)
  {
    n := 0;
    FitsExactly(cfg, r);
    if r.level <= s.level && SizeOf(r) < 1000 {
      var u, g := EntersQueue(cfg, s, h, r, padding);
      var t, f;
      n, t, f := EnqueueReturns(cfg, u, g, SpscCalls.WillFit(u.q));
    }
    RunFirst(Unbounded, cfg, s, h, Log(r, padding), Onward(n));
    OnwardIsGood(cfg, n);
    SameRun(cfg, s, h, [Log(r, padding)] + Onward(n));
  }

  /** After `level` is set, a call of a higher level does nothing at all. */
  lemma LevelFilters(cfg: Config, s: State, level: nat, r: Request, padding: seq<byte>)
    requires s.q.cap > 0 && s.f.FReady? && r.level > level
    ensures Run(Word64, cfg, s, [SetLevel(level), Log(r, padding)]) == s.(level := level)
  {
    var t := s.(level := level);
    assert Run(Word64, cfg, t, [Log(r, padding)]) == t by {
      assert [Log(r, padding)][1..] == [];
    }
    assert [SetLevel(level), Log(r, padding)][1..] == [Log(r, padding)];
  }

  lemma {:induction false} OnwardIsGood(cfg: Config, n: nat)
    ensures GoodSchedule(cfg, Onward(n))
  {
    if n > 0 {
      OnwardIsGood(cfg, n - 1);
    }
  }

  // ------------------------------------------------------------------ the end of the logger

  /** stop() has been entered, from a fatal log call or by the program. */
  predicate Ending(f: Frontend, fatal: bool) {
    f == FStop(fatal) || f == FJoin(fatal) || f == if fatal then FTerminated else FStopped
  }

  lemma EndingFrontend(w: Width, cfg: Config, s: State, h: History, fatal: bool)
    requires s.q.cap > 0 && Ending(s.f, fatal)
    ensures Ending(FrontendStep(w, cfg, s).f, fatal) && Record(s, h, StepFrontend).accepted == h.accepted
  {
  }

  lemma EndingWorker(w: Width, cfg: Config, s: State, h: History)
    requires s.q.cap > 0
    ensures WorkerStep(w, cfg, s).f == s.f && Record(s, h, StepWorker).accepted == h.accepted
  {
  }

  lemma EndingStep(w: Width, cfg: Config, s: State, h: History, a: Action, fatal: bool)
    requires s.q.cap > 0 && Ending(s.f, fatal)
    ensures Ending(Step(w, cfg, s, a).f, fatal) && Record(s, h, a).accepted == h.accepted
  {
    match a {
      case StepFrontend => EndingFrontend(w, cfg, s, h, fatal);
      case StepWorker => EndingWorker(w, cfg, s, h);
      case _ =>
    }
  }

  /** Nothing turns it back, and nothing is accepted any more. */
  lemma {:induction false} EndingStays(w: Width, cfg: Config, s: State, h: History, sched: seq<Action>, fatal: bool)
    requires s.q.cap > 0 && Ending(s.f, fatal)
    ensures Ending(Run(w, cfg, s, sched).f, fatal) && RecordRun(w, cfg, s, h, sched).accepted == h.accepted
    decreases |sched|
  {
    if sched != [] {
      EndingStep(w, cfg, s, h, sched[0], fatal);
      EndingStays(w, cfg, Step(w, cfg, s, sched[0]), Record(s, h, sched[0]), sched[1..], fatal);
    }
  }

  lemma {:induction false} RunLast(w: Width, cfg: Config, s: State, sched: seq<Action>, a: Action)
    requires s.q.cap > 0
    ensures Run(w, cfg, s, sched + [a]) == Step(w, cfg, Run(w, cfg, s, sched), a)
    decreases |sched|
  {
    if sched != [] {
      assert (sched + [a])[1..] == sched[1..] + [a];
      RunLast(w, cfg, Step(w, cfg, s, sched[0]), sched[1..], a);
    }
  }

  lemma JoinEnds(cfg: Config, s: State, h: History, fatal: bool) returns (sched: seq<Action>)
    requires Inv(cfg, s, h) && GoodConfig(cfg) && DequeueFits(cfg, s.q.cap) && s.f == FJoin(fatal)
    ensures GoodSchedule(cfg, sched)
    ensures Run(Unbounded, cfg, s, sched).f == if fatal then FTerminated else FStopped
  {
    var n, alone := WaitEnds(cfg, s, h, LeftOf(s, h));
    AloneIsGood(cfg, n);
    RunLast(Unbounded, cfg, s, alone, StepFrontend);
    sched := alone + [StepFrontend];
  }

  lemma EndingEnds(cfg: Config, s: State, h: History, fatal: bool) returns (sched: seq<Action>)
    requires Inv(cfg, s, h) && GoodConfig(cfg) && DequeueFits(cfg, s.q.cap) && Ending(s.f, fatal)
    ensures GoodSchedule(cfg, sched)
    ensures Run(Unbounded, cfg, s, sched).f == if fatal then FTerminated else FStopped
  {
    if s.f == FStop(fatal) {
      var t, g := Step(Unbounded, cfg, s, StepFrontend), Record(s, h, StepFrontend);
      StepInv(cfg, s, h, StepFrontend);
      sched := JoinEnds(cfg, t, g, fatal);
      RunFirst(Unbounded, cfg, s, h, StepFrontend, sched);
      sched := [StepFrontend] + sched;
    } else if s.f == FJoin(fatal) {
      sched := JoinEnds(cfg, s, h, fatal);
    } else {
      sched := [];
    }
  }

  /** Once a fatal call or stop() has begun to end the logger, in every schedule it stays so, and when
      the end is reached every sink has been handed everything ever accepted. */
  lemma EndDelivers(cfg: Config, s: State, h: History, sched: seq<Action>, fatal: bool)
    requires Inv(cfg, s, h) && GoodConfig(cfg) && DequeueFits(cfg, s.q.cap) && GoodSchedule(cfg, sched)
    requires Ending(s.f, fatal)
    ensures var t, g := Run(Word64, cfg, WordOf(s), sched), RecordRun(Word64, cfg, WordOf(s), h, sched);
            && Ending(t.f, fatal) && g.accepted == h.accepted
            && (t.f.FTerminated? || t.f.FStopped? ==> forall j :: 0 <= j < |t.sinks| ==>
                  t.sinks[j] == MessagesOf(cfg, h.accepted))
  {
    EndingStays(Word64, cfg, WordOf(s), h, sched, fatal);
    SameRun(cfg, s, h, sched);
    RunInv(cfg, s, h, sched);
    var t, g := Run(Unbounded, cfg, s, sched), RecordRun(Unbounded, cfg, s, h, sched);
    if t.f.FTerminated? || t.f.FStopped? {
      StopReturns(cfg, t, g);
    }
  }

  /** And some schedule reaches that end: a fatal call terminates the program. */
  lemma EndReached(cfg: Config, s: State, h: History, fatal: bool) returns (sched: seq<Action>)
    requires Inv(cfg, s, h) && GoodConfig(cfg) && DequeueFits(cfg, s.q.cap) && Ending(s.f, fatal)
    ensures GoodSchedule(cfg, sched)
    ensures Run(Word64, cfg, WordOf(s), sched).f == if fatal then FTerminated else FStopped
  {
    sched := EndingEnds(cfg, s, h, fatal);
    SameRun(cfg, s, h, sched);
  }

  // ---------------------------------------------------------------------------- flush

  ghost predicate AtLeast(cfg: Config, sinks: seq<seq<Message>>, accepted: seq<Request>) {
    forall j :: 0 <= j < |sinks| ==> MessagesOf(cfg, accepted) <= sinks[j]
  }

  /** flush() is still waiting, or everything accepted before it has been delivered. */
  ghost predicate Flushed(cfg: Config, s: State, h: History, ticket: nat, before: seq<Request>) {
    (s.f == FFlush(ticket) && h.accepted == before) || AtLeast(cfg, s.sinks, before)
  }

  lemma SinksOnlyGrow(cfg: Config, s: State, a: Action, before: seq<Request>)
    requires s.q.cap > 0 && AtLeast(cfg, s.sinks, before)
    ensures AtLeast(cfg, Step(Unbounded, cfg, s, a).sinks, before)
  {
  }

  lemma FlushedStep(cfg: Config, s: State, h: History, a: Action, ticket: nat, before: seq<Request>)
    requires Inv(cfg, s, h) && Flushed(cfg, s, h, ticket, before)
    ensures Flushed(cfg, Step(Unbounded, cfg, s, a), Record(s, h, a), ticket, before)
  {
    if AtLeast(cfg, s.sinks, before) {
      SinksOnlyGrow(cfg, s, a, before);
    } else if a == StepFrontend && s.completed >= s.f.ticket {
      FlushReturns(cfg, s, h);
    } else {
      StillFlushing(cfg, s, h, a);
    }
  }

  lemma StillFlushing(cfg: Config, s: State, h: History, a: Action)
    requires s.q.cap > 0 && s.f.FFlush? && !(a == StepFrontend && s.completed >= s.f.ticket)
    ensures Step(Unbounded, cfg, s, a).f == s.f && Record(s, h, a).accepted == h.accepted
  {
  }

  lemma {:induction false} FlushedRun(cfg: Config, s: State, h: History, sched: seq<Action>, ticket: nat,
                                      before: seq<Request>)
    requires Inv(cfg, s, h) && GoodConfig(cfg) && DequeueFits(cfg, s.q.cap) && GoodSchedule(cfg, sched)
    requires Flushed(cfg, s, h, ticket, before)
    ensures Flushed(cfg, Run(Unbounded, cfg, s, sched), RecordRun(Unbounded, cfg, s, h, sched), ticket, before)
    decreases |sched|
  {
    if sched != [] {
      var t, g := StepKeeps(cfg, s, h, sched[0]);
      FlushedStep(cfg, s, h, sched[0], ticket, before);
      FlushedRun(cfg, t, g, sched[1..], ticket, before);
    }
  }

  /** After a flush() call, at every later moment of every schedule: the call has not returned, or
      every sink holds at least what was accepted before it. */
  lemma FlushCovers(cfg: Config, s: State, h: History, sched: seq<Action>)
    requires Inv(cfg, s, h) && GoodConfig(cfg) && DequeueFits(cfg, s.q.cap) && GoodSchedule(cfg, sched) && s.f.FReady?
    ensures var t := Run(Word64, cfg, WordOf(s), [Flush] + sched);
            t.f != FFlush(s.requested + 1) ==>
              forall j :: 0 <= j < |t.sinks| ==> MessagesOf(cfg, h.accepted) <= t.sinks[j]
  {
    var u, g := Step(Unbounded, cfg, s, Flush), Record(s, h, Flush);
    StepInv(cfg, s, h, Flush);
    FlushedRun(cfg, u, g, sched, s.requested + 1, h.accepted);
    RunFirst(Unbounded, cfg, s, h, Flush, sched);
    SameRun(cfg, s, h, [Flush] + sched);
  }
}
