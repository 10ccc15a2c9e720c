/** End-to-end guarantees of the logger over whole runs, on the compiled 64-bit indices. */
module ProtocolRuns {
  import opened Bits
  import opened Ring
  import opened Chunks
  import opened LogEntries
  import opened Protocol
  import opened ProtocolInv
  import opened ProtocolWord
  import opened ProtocolOrder
  import Spsc = SpscMachine

  // --------------------------------------------------------------- what every state shows

  /** Every sink has been handed exactly the accepted requests' messages. */
  ghost predicate AllDelivered(cfg: Config, s: State, h: History) {
    forall j :: 0 <= j < |s.sinks| ==> s.sinks[j] == MessagesOf(cfg, h.accepted)
  }

  /** Each sink has seen a prefix of the accepted requests, in order and without duplicates. */
  lemma SinksSeePrefix(cfg: Config, s: State, h: History, j: nat)
    requires Inv(cfg, s, h) && j < |s.sinks|
    ensures s.sinks[j] <= MessagesOf(cfg, h.accepted)
  {
    var n := SeenBy(s.w, h.taken, j);
    assert s.sinks[j] == MessagesOf(cfg, h.accepted[..n]);
  }

  lemma DrainedIsDelivered(cfg: Config, s: State, h: History)
    requires Inv(cfg, s, h) && Handed(s.w, h.taken) == |h.accepted|
    ensures AllDelivered(cfg, s, h)
  {
    forall j | 0 <= j < |s.sinks| ensures s.sinks[j] == MessagesOf(cfg, h.accepted) {
      assert SeenBy(s.w, h.taken, j) == |h.accepted|;
      assert h.accepted[..|h.accepted|] == h.accepted;
    }
  }

  /** flush() returns only after every entry enqueued before it was handed to all sinks. */
  lemma FlushReturns(cfg: Config, s: State, h: History)
    requires Inv(cfg, s, h) && s.f.FFlush? && FrontendStep(Unbounded, cfg, s).f == FReady
    ensures AllDelivered(cfg, s, h)
  {
    assert h.marks[s.f.ticket - 1] == |h.accepted|;
    DrainedIsDelivered(cfg, s, h);
  }

  /** stop() returns only after every accepted entry was handed to all sinks. */
  lemma StopReturns(cfg: Config, s: State, h: History)
    requires Inv(cfg, s, h) && (s.f.FStopped? || s.f.FTerminated?)
    ensures AllDelivered(cfg, s, h)
  {
    DrainedIsDelivered(cfg, s, h);
  }

  /** The completed sequence number never runs ahead of the requests and never decreases. */
  lemma CompletedAdvances(cfg: Config, s: State, h: History, a: Action)
    requires s.q.cap > 0 && FlushOk(s, h) && StopOk(s, h)
    ensures s.completed <= Step(Unbounded, cfg, s, a).completed <= Step(Unbounded, cfg, s, a).requested
  {
  }

  /** A completed request number covers every entry accepted before that request was made. */
  lemma CompletedCovers(cfg: Config, s: State, h: History, ticket: nat, j: nat)
    requires Inv(cfg, s, h) && 0 < ticket <= s.completed && j < |s.sinks|
    ensures h.marks[ticket - 1] <= |h.accepted|
    ensures MessagesOf(cfg, h.accepted[..h.marks[ticket - 1]]) <= s.sinks[j] <= MessagesOf(cfg, h.accepted)
  {
    SinksSeePrefix(cfg, s, h, j);
    assert h.marks[ticket - 1] <= |h.accepted|;
    assert h.marks[ticket - 1] <= Handed(s.w, h.taken) <= SeenBy(s.w, h.taken, j);
    assert s.sinks[j] == MessagesOf(cfg, h.accepted[..SeenBy(s.w, h.taken, j)]);
  }

  // ------------------------------------------------------------------ when an entry is dropped

  lemma EnqueueFails(q: Spsc.State)
    requires Spsc.Inv(q) && Spsc.InsideEnqueue(q.p)
    requires Spsc.Step(Unbounded, q, Spsc.StepProducer).p == Spsc.PDone(Overflow)
    ensures |Queued(q)| + |q.p.data| > q.cap
  {
    Spsc.StepRefines(q, Spsc.StepProducer);
    Spsc.ReturnIsEffect(Unbounded, q, Spsc.StepProducer);
  }

  lemma DropStep(cfg: Config, s: State, a: Action)
    requires s.q.cap > 0 && Step(Unbounded, cfg, s, a).dropped > s.dropped
    ensures (a.Log? && !FitsEntry(a.req)) || (a == StepFrontend && s.f.FEnqueue?)
    ensures a == StepFrontend ==>
      var p := Spsc.Step(Unbounded, s.q, Spsc.StepProducer).p; p.PDone? && !p.status.Ok?
  {
  }

  /** A call whose request is too large is dropped at once, and no other call is. */
  lemma DroppedAtOnce(cfg: Config, s: State, h: History, req: Request, padding: seq<byte>)
    requires Inv(cfg, s, h) && GoodConfig(cfg) && GoodAction(cfg, Log(req, padding))
    ensures var t := Step(Word64, cfg, WordOf(s), Log(req, padding));
            t.dropped == s.dropped + if s.f.FReady? && req.level <= s.level && SizeOf(req) >= 1000 then 1 else 0
  {
    SameStep(cfg, s, h, Log(req, padding));
    FitsExactly(cfg, req);
  }

  /** The only drops: a request of 1000 bytes or more, or an entry for which the queued entries
      leave too little room at the moment the enqueue gives up. */
  lemma DropsExplained(cfg: Config, s: State, h: History, a: Action)
    requires Inv(cfg, s, h) && GoodConfig(cfg) && GoodAction(cfg, a)
    requires Step(Word64, cfg, WordOf(s), a).dropped > s.dropped
    ensures || (a.Log? && SizeOf(a.req) >= 1000)
            || (a == StepFrontend && s.f.FEnqueue? &&
                |Flatten(h.frames[h.taken..])| + 24 + SizeOf(s.f.req) > s.q.cap)
  {
    SameStep(cfg, s, h, a);
    DropStep(cfg, s, a);
    if a == StepFrontend {
      ProducerEffect(s.q);
      EnqueueFails(s.q);
    } else {
      FitsExactly(cfg, a.req);
    }
  }

  // --------------------------------------------------------------------- end to end

  /** In every run of the compiled logger, at every moment: each sink has seen, in order and
      without duplicates, a prefix of the messages of the requests whose enqueue succeeded, which
      are a subsequence of the log calls; the counters account for every log call; nothing leaves a
      buffer or is misread; and once stop() has returned every sink has seen all of them. */
  lemma EndToEnd(cfg: Config, cap: nat, buf: seq<byte>, sinks: nat, level: nat, sched: seq<Action>)
    requires Capacity(cap) && |buf| == cap && GoodConfig(cfg) && DequeueFits(cfg, cap) && GoodSchedule(cfg, sched)
    ensures var s0 := Init(cap, buf, sinks, level);
            var t, h := Run(Word64, cfg, s0, sched), RecordRun(Word64, cfg, s0, EMPTY_HISTORY, sched);
            && (forall j :: 0 <= j < |t.sinks| ==> t.sinks[j] <= MessagesOf(cfg, h.accepted))
            && (t.f.FStopped? || t.f.FTerminated? ==> AllDelivered(cfg, t, h))
            && Subsequence(h.accepted, Logged(Word64, cfg, s0, sched)) && t.enqueued == |h.accepted|
            && |Logged(Word64, cfg, s0, sched)| == t.enqueued + t.dropped + (if t.f.FEnqueue? then 1 else 0)
            && !t.fault
  {
    var s0 := Init(cap, buf, sinks, level);
    InitInv(cfg, cap, buf, sinks, level);
    AcceptedAreLogged(Word64, cfg, cap, buf, sinks, level, sched);
    assert WordOf(s0) == s0;
    SameRun(cfg, s0, EMPTY_HISTORY, sched);
    RunInv(cfg, s0, EMPTY_HISTORY, sched);
    var s, h := Run(Unbounded, cfg, s0, sched), RecordRun(Unbounded, cfg, s0, EMPTY_HISTORY, sched);
    forall j | 0 <= j < |s.sinks| ensures s.sinks[j] <= MessagesOf(cfg, h.accepted) {
      SinksSeePrefix(cfg, s, h, j);
    }
    if s.f.FStopped? || s.f.FTerminated? {
      StopReturns(cfg, s, h);
    }
  }

  lemma WordFlushReturns(cfg: Config, s: State, h: History)
    requires Inv(cfg, s, h) && s.f.FFlush? && FrontendStep(Word64, cfg, WordOf(s)).f == FReady
    ensures AllDelivered(cfg, WordOf(s), h)
  {
    FlushReturns(cfg, s, h);
  }

  /** Whenever the frontend's next step leaves flush(), every sink has seen everything accepted. */
  lemma FlushEndToEnd(cfg: Config, cap: nat, buf: seq<byte>, sinks: nat, level: nat, sched: seq<Action>)
    requires Capacity(cap) && |buf| == cap && GoodConfig(cfg) && DequeueFits(cfg, cap) && GoodSchedule(cfg, sched)
    ensures var s0 := Init(cap, buf, sinks, level);
            var t, h := Run(Word64, cfg, s0, sched), RecordRun(Word64, cfg, s0, EMPTY_HISTORY, sched);
            t.f.FFlush? && FrontendStep(Word64, cfg, t).f == FReady ==> AllDelivered(cfg, t, h)
  {
    var s0 := Init(cap, buf, sinks, level);
    InitInv(cfg, cap, buf, sinks, level);
    assert WordOf(s0) == s0;
    SameRun(cfg, s0, EMPTY_HISTORY, sched);
    RunInv(cfg, s0, EMPTY_HISTORY, sched);
    var s, h := Run(Unbounded, cfg, s0, sched), RecordRun(Unbounded, cfg, s0, EMPTY_HISTORY, sched);
    if s.f.FFlush? && FrontendStep(Word64, cfg, WordOf(s)).f == FReady {
      WordFlushReturns(cfg, s, h);
    }
  }
}
