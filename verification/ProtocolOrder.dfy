/** The requests accepted in a run are log calls of that run, in their order. */
module ProtocolOrder {
  import opened Ring
  import opened Protocol
  import opened ProtocolWord

  /** `a` is `b` with some elements left out. */
  predicate Subsequence(a: seq<Request>, b: seq<Request>)
    decreases |b|
  {
    a == [] ||
    (b != [] &&
     ((a[|a| - 1] == b[|b| - 1] && Subsequence(a[..|a| - 1], b[..|b| - 1])) || Subsequence(a, b[..|b| - 1])))
  }

  lemma SubsequenceAppend(a: seq<Request>, b: seq<Request>, x: Request)
    requires Subsequence(a, b)
    ensures Subsequence(a, b + [x]) && Subsequence(a + [x], b + [x])
  {
    assert (b + [x])[..|b|] == b && (a + [x])[..|a|] == a;
  }

  /** The request of a log call that passes the level filter. */
  function NewRequest(s: State, a: Action): seq<Request> {
    if a.Log? && s.f.FReady? && a.req.level <= s.level then [a.req] else []
  }

  /** The log calls of a run that pass the level filter, in order. */
  function Logged(w: Width, cfg: Config, s: State, sched: seq<Action>): seq<Request>
    requires s.q.cap > 0
    decreases |sched|
  {
    if sched == [] then [] else NewRequest(s, sched[0]) + Logged(w, cfg, Step(w, cfg, s, sched[0]), sched[1..])
  }

  /** The accepted requests are logged ones, in order; one that is being enqueued comes last. */
  predicate OrderOk(f: Frontend, accepted: seq<Request>, calls: nat, logged: seq<Request>) {
    && calls == |logged|
    && if f.FEnqueue?
       then logged != [] && logged[|logged| - 1] == f.req && Subsequence(accepted, logged[..|logged| - 1])
       else Subsequence(accepted, logged)
  }

  lemma OrderNew(f: Frontend, accepted: seq<Request>, logged: seq<Request>, r: Request)
    requires OrderOk(FReady, accepted, |logged|, logged) && (f == FReady || f == FEnqueue(r))
    ensures OrderOk(f, accepted, |logged + [r]|, logged + [r])
  {
    SubsequenceAppend(accepted, logged, r);
    assert (logged + [r])[..|logged|] == logged;
  }

  lemma OrderDone(f: Frontend, r: Request, accepted: seq<Request>, logged: seq<Request>)
    requires OrderOk(FEnqueue(r), accepted, |logged|, logged) && !f.FEnqueue?
    ensures OrderOk(f, accepted, |logged|, logged) && OrderOk(f, accepted + [r], |logged|, logged)
  {
    var before := logged[..|logged| - 1];
    assert before + [r] == logged;
    SubsequenceAppend(accepted, before, r);
  }

  lemma LogMoves(w: Width, cfg: Config, s: State, h: History, a: Action)
    requires s.q.cap > 0 && a.Log? && NewRequest(s, a) != []
    ensures var f := Step(w, cfg, s, a).f; f == FReady || f == FEnqueue(a.req)
    ensures Record(s, h, a) == h.(calls := h.calls + 1)
  {
  }

  lemma FrontendMoves(w: Width, cfg: Config, s: State, h: History)
    requires s.q.cap > 0
    ensures var f, accepted := FrontendStep(w, cfg, s).f, Record(s, h, StepFrontend).accepted;
            if s.f.FEnqueue? && f != s.f
            then !f.FEnqueue? && (accepted == h.accepted || accepted == h.accepted + [s.f.req])
            else accepted == h.accepted && (f == s.f || !f.FEnqueue?)
    ensures Record(s, h, StepFrontend).calls == h.calls
  {
  }

  lemma OtherMoves(w: Width, cfg: Config, s: State, h: History, a: Action)
    requires s.q.cap > 0 && a != StepFrontend && NewRequest(s, a) == []
    ensures Step(w, cfg, s, a).f == s.f || (!s.f.FEnqueue? && !Step(w, cfg, s, a).f.FEnqueue?)
    ensures Record(s, h, a).accepted == h.accepted && Record(s, h, a).calls == h.calls
  {
  }

  lemma OrderStep(w: Width, cfg: Config, s: State, h: History, a: Action, logged: seq<Request>)
    requires s.q.cap > 0 && OrderOk(s.f, h.accepted, h.calls, logged)
    ensures var g := Record(s, h, a);
            OrderOk(Step(w, cfg, s, a).f, g.accepted, g.calls, logged + NewRequest(s, a))
  {
    assert logged + [] == logged;
    if NewRequest(s, a) != [] {
      LogMoves(w, cfg, s, h, a);
      OrderNew(Step(w, cfg, s, a).f, h.accepted, logged, a.req);
    } else if a == StepFrontend {
      FrontendMoves(w, cfg, s, h);
      var f := Step(w, cfg, s, a).f;
      if s.f.FEnqueue? && f != s.f {
        OrderDone(f, s.f.req, h.accepted, logged);
      }
    } else {
      OtherMoves(w, cfg, s, h, a);
    }
  }

  lemma LoggedStep(w: Width, cfg: Config, s: State, sched: seq<Action>, logged: seq<Request>, all: seq<Request>)
    requires s.q.cap > 0 && sched != [] && all == logged + Logged(w, cfg, s, sched)
    ensures all == (logged + NewRequest(s, sched[0])) + Logged(w, cfg, Step(w, cfg, s, sched[0]), sched[1..])
  {
  }

  lemma {:induction false} OrderRun(w: Width, cfg: Config, s: State, h: History, sched: seq<Action>,
                                    logged: seq<Request>, all: seq<Request>)
    requires s.q.cap > 0 && OrderOk(s.f, h.accepted, h.calls, logged)
    requires all == logged + Logged(w, cfg, s, sched)
    ensures var g := RecordRun(w, cfg, s, h, sched);
            OrderOk(Run(w, cfg, s, sched).f, g.accepted, g.calls, all)
    decreases |sched|
  {
    if sched == [] {
      assert all == logged;
    } else {
      var t, g := Step(w, cfg, s, sched[0]), Record(s, h, sched[0]);
      OrderStep(w, cfg, s, h, sched[0], logged);
      LoggedStep(w, cfg, s, sched, logged, all);
      OrderRun(w, cfg, t, g, sched[1..], logged + NewRequest(s, sched[0]), all);
    }
  }

  /** In every run the accepted requests are a subsequence of the log calls that passed the level
      filter, and every such call is remembered. */
  lemma AcceptedAreLogged(w: Width, cfg: Config, cap: nat, buf: seq<byte>, sinks: nat, level: nat, sched: seq<Action>)
    requires cap > 0
    ensures var s0 := Init(cap, buf, sinks, level);
            var h, logged := RecordRun(w, cfg, s0, EMPTY_HISTORY, sched), Logged(w, cfg, s0, sched);
            Subsequence(h.accepted, logged) && h.calls == |logged|
  {
    var s0 := Init(cap, buf, sinks, level);
    var h, logged := RecordRun(w, cfg, s0, EMPTY_HISTORY, sched), Logged(w, cfg, s0, sched);
    assert [] + logged == logged;
    OrderRun(w, cfg, s0, EMPTY_HISTORY, sched, [], logged);
    var f := Run(w, cfg, s0, sched).f;
    if f.FEnqueue? {
      OrderDone(FReady, f.req, h.accepted, logged);
    }
  }
}
