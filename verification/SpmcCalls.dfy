/** What a call of the ticket queue does with its own arguments: alone, and in every disciplined run. */
module SpmcCalls {
  import opened Bits
  import opened Ring
  import opened SpmcMachine
  import opened SpmcRuns
  import opened SpmcWord

  // -------------------------------------------------------------------- a call on its own

  predicate Outside(c: Consumer) { c.CIdle? || c.CDone? }

  lemma SoloStart(id: nat, k: nat)
    requires k > 0
    ensures Solo(id, k) == [StepConsumer(id)] + Solo(id, k - 1) && Solo(id, k)[1..] == Solo(id, k - 1)
  {
  }

  lemma {:induction false} DoneStays(s: State, id: nat, k: nat)
    requires s.cap > 0 && id < |s.cs| && s.cs[id].CDone?
    ensures Run(Unbounded, s, Solo(id, k)) == s && DisciplinedRun(s, Solo(id, k))
  {
    if k > 0 {
      SoloStart(id, k);
      DoneStays(s, id, k - 1);
    } else {
      assert Solo(id, k) == [];
    }
  }

  lemma TicketMoves(u: State, h: History, id: nat) returns (t: State, g: History)
    requires u.cap > 0 && id < |u.cs| && u.cs[id].CTicket? && h.open == []
    ensures t == Step(Unbounded, u, StepConsumer(id)) && g == Record(u, h, StepConsumer(id))
    ensures t == u.(head := u.head + u.cs[id].n, cs := u.cs[id := CCheck(u.cs[id].n, u.head)])
    ensures g == h.(open := [id])
  {
    t, g := Step(Unbounded, u, StepConsumer(id)), Record(u, h, StepConsumer(id));
  }

  /** The state after the call and the ticket. */
  lemma TakesTicket(s: State, h: History, id: nat, n: nat) returns (t: State, g: History)
    requires Inv(s, h) && h.open == [] && id < |s.cs| && Outside(s.cs[id]) && n > 0
    ensures t == Step(Unbounded, Step(Unbounded, s, CallDequeue(id, n)), StepConsumer(id))
    ensures Disciplined(s, CallDequeue(id, n)) && Disciplined(Step(Unbounded, s, CallDequeue(id, n)), StepConsumer(id))
    ensures Inv(t, g) && g.open == [id] && g.stream == h.stream && t.tail == s.tail
    ensures t.cs == s.cs[id := CCheck(n, s.head)] && t.head == s.head + n
  {
    NoOpenTickets(s, h);
    var u := CallMoves(s, id, n);
    CallDequeueInv(s, h, id, n);
    t, g := TicketMoves(u, h, id);
    TakeTicket(u, h, id);
    assert t.cs == s.cs[id := CCheck(n, s.head)];
  }

  lemma CallMoves(s: State, id: nat, n: nat) returns (u: State)
    requires s.cap > 0 && id < |s.cs| && Outside(s.cs[id]) && n > 0
    requires forall i :: 0 <= i < |s.cs| ==> !IsOpen(s.cs[i])
    ensures u == Step(Unbounded, s, CallDequeue(id, n)) == s.(cs := s.cs[id := CTicket(n)]) && NoneRewinding(u)
  {
    u := Step(Unbounded, s, CallDequeue(id, n));
  }

  lemma NoOpenTickets(s: State, h: History)
    requires Inv(s, h) && h.open == []
    ensures s.head == s.commit <= s.tail && forall i :: 0 <= i < |s.cs| ==> !IsOpen(s.cs[i])
  {
    forall i | 0 <= i < |s.cs| ensures !IsOpen(s.cs[i]) {
      assert IsOpen(s.cs[i]) ==> i in h.open;
    }
  }

  /** Check, then copy and commit, or rewind. */
  lemma CheckedAlone(s: State, h: History, id: nat)
    requires Inv(s, h) && h.open == [id] && s.cs[id].CCheck?
    ensures var c := s.cs[id];
            var t := Run(Unbounded, s, Solo(id, c.n + 2));
            && DisciplinedRun(s, Solo(id, c.n + 2))
            && if End(c) <= |h.stream|
               then t.cs[id] == CDone(Ok, h.stream[c.ticket..End(c)]) && t.commit == t.head == End(c)
               else t.cs[id] == CDone(Underflow, []) && t.commit == t.head == c.ticket
  {
    var c := s.cs[id];
    TicketAfterCommit(s, h, id);
    if End(c) <= |h.stream| {
      SoloCommits(s, h);
      assert h.open[1..] == [];
    } else {
      RefusedAlone(s, id, c.n);
    }
  }

  lemma OneSolo(s: State, id: nat, k: nat, t: State)
    requires s.cap > 0 && k > 0 && t == Step(Unbounded, s, StepConsumer(id))
    requires Disciplined(s, StepConsumer(id)) && DisciplinedRun(t, Solo(id, k - 1))
    ensures Run(Unbounded, s, Solo(id, k)) == Run(Unbounded, t, Solo(id, k - 1)) && DisciplinedRun(s, Solo(id, k))
  {
    SoloStart(id, k);
  }

  lemma RefusedSteps(s: State, id: nat) returns (u: State, t: State)
    requires s.cap > 0 && id < |s.cs| && s.cs[id].CCheck? && s.head == End(s.cs[id])
    requires TooEmpty(Unbounded, s.tail, s.cs[id].ticket, s.cs[id].n)
    ensures u == Step(Unbounded, s, StepConsumer(id)) && t == Step(Unbounded, u, StepConsumer(id))
    ensures Disciplined(s, StepConsumer(id)) && Disciplined(u, StepConsumer(id))
    ensures t == s.(head := s.cs[id].ticket, cs := s.cs[id := CDone(Underflow, [])])
  {
    u := Step(Unbounded, s, StepConsumer(id));
    t := Step(Unbounded, u, StepConsumer(id));
    assert u.cs == s.cs[id := CRewind(s.cs[id].n, s.cs[id].ticket)];
    assert t.cs == s.cs[id := CDone(Underflow, [])];
  }

  lemma RefusedAlone(s: State, id: nat, n: nat)
    requires s.cap > 0 && id < |s.cs| && s.cs[id].CCheck? && s.head == End(s.cs[id])
    requires TooEmpty(Unbounded, s.tail, s.cs[id].ticket, s.cs[id].n)
    ensures var t := Run(Unbounded, s, Solo(id, n + 2));
            && DisciplinedRun(s, Solo(id, n + 2))
            && t == s.(head := s.cs[id].ticket, cs := s.cs[id := CDone(Underflow, [])])
  {
    var u, t := RefusedSteps(s, id);
    DoneStays(t, id, n);
    OneSolo(u, id, n + 1, t);
    OneSolo(s, id, n + 2, u);
  }

  /** The call, its ticket and `n + 2` more steps. */
  function DequeueSteps(id: nat, n: nat): seq<Action> {
    [CallDequeue(id, n)] + Solo(id, n + 3)
  }

  lemma DequeueRun(w: Width, s: State, id: nat, n: nat)
    requires s.cap > 0
    ensures var u := Step(w, Step(w, s, CallDequeue(id, n)), StepConsumer(id));
            Run(w, s, DequeueSteps(id, n)) == Run(w, u, Solo(id, n + 2))
  {
    SoloStart(id, n + 3);
    assert DequeueSteps(id, n)[1..] == Solo(id, n + 3);
  }

  lemma DequeueDisciplined(s: State, id: nat, n: nat)
    requires s.cap > 0 && Disciplined(s, CallDequeue(id, n))
    requires var u := Step(Unbounded, s, CallDequeue(id, n));
             Disciplined(u, StepConsumer(id)) && DisciplinedRun(Step(Unbounded, u, StepConsumer(id)), Solo(id, n + 2))
    ensures DisciplinedRun(s, DequeueSteps(id, n))
  {
    SoloStart(id, n + 3);
    assert DequeueSteps(id, n)[1..] == Solo(id, n + 3);
  }

  lemma DequeueAloneTrue(s: State, h: History, id: nat, n: nat, sched: seq<Action>) returns (t: State)
    requires Inv(s, h) && h.open == [] && id < |s.cs| && Outside(s.cs[id]) && n > 0 && sched == DequeueSteps(id, n)
    ensures DisciplinedRun(s, sched) && t == Run(Unbounded, s, sched)
    ensures if s.head + n <= |h.stream|
            then t.cs[id] == CDone(Ok, h.stream[s.head..s.head + n]) && t.commit == t.head == s.head + n
            else t.cs[id] == CDone(Underflow, []) && t.commit == t.head == s.head
  {
    var u, g := TakesTicket(s, h, id, n);
    CheckedAlone(u, g, id);
    DequeueRun(Unbounded, s, id, n);
    DequeueDisciplined(s, id, n);
    t := Run(Unbounded, u, Solo(id, n + 2));
  }

  /** On the compiled queue with no ticket open, a dequeue of `n` bytes that runs on its own hands out
      exactly the next `n` published bytes, or answers Underflow and restores the head. */
  lemma DequeueAlone(s: State, h: History, id: nat, n: nat)
    requires Inv(s, h) && h.open == [] && id < |s.cs| && Outside(s.cs[id]) && n > 0
    ensures var t := Run(Word64, WordOf(s), DequeueSteps(id, n));
            if s.head + n <= |h.stream|
            then t.cs[id] == CDone(Ok, h.stream[s.head..s.head + n]) && t.commit == t.head == (s.head + n) % WORD
            else t.cs[id] == CDone(Underflow, []) && t.commit == t.head == s.head % WORD
  {
    var sched := DequeueSteps(id, n);
    var t := DequeueAloneTrue(s, h, id, n, sched);
    WordRun(s, h, sched);
  }

  /** A dequeue of nothing. */
  lemma EmptyDequeue(w: Width, s: State, id: nat)
    requires s.cap > 0 && id < |s.cs| && Outside(s.cs[id])
    ensures Step(w, s, CallDequeue(id, 0)) == s.(cs := s.cs[id := CDone(SizeIsZero, [])])
  {
  }

  // ------------------------------------------------------------------------- the producer

  function ProducerLeft(p: Producer): nat {
    match p
    case PLoad(data) => |data| + 2
    case PCopy(data, _, done) => if done < |data| then |data| - done + 1 else 1
    case _ => 0
  }

  function Produces(n: nat): seq<Action> {
    if n == 0 then [] else [StepProducer] + Produces(n - 1)
  }

  /** The answer the enqueue in progress is heading for. */
  predicate WillFit(s: State) {
    s.p.PCopy? || (s.p.PLoad? && s.tail + |s.p.data| <= s.commit + s.cap)
  }

  lemma ProducerAnswer(s: State, h: History)
    requires RingOk(s, h.stream) && (s.p.PLoad? || s.p.PCopy?)
    ensures var t, g := Step(Unbounded, s, StepProducer), Record(s, h, StepProducer);
            && ProducerLeft(t.p) < ProducerLeft(s.p)
            && if t.p.PCopy? then t.p.data == s.p.data && g.stream == h.stream && WillFit(s)
               else if WillFit(s) then t.p == PDone(Ok) && g.stream == h.stream + s.p.data
               else t.p == PDone(Overflow) && g.stream == h.stream
  {
  }

  lemma ProducerStepAlone(s: State, h: History) returns (t: State, g: History)
    requires RingOk(s, h.stream) && (s.p.PLoad? || s.p.PCopy?)
    ensures t == Step(Unbounded, s, StepProducer) && g == Record(s, h, StepProducer) && RingOk(t, g.stream)
    ensures ProducerLeft(t.p) < ProducerLeft(s.p)
    ensures if t.p.PCopy? then t.p.data == s.p.data && g.stream == h.stream && WillFit(s)
            else if WillFit(s) then t.p == PDone(Ok) && g.stream == h.stream + s.p.data
            else t.p == PDone(Overflow) && g.stream == h.stream
  {
    ProducerAnswer(s, h);
    t, g := Step(Unbounded, s, StepProducer), Record(s, h, StepProducer);
    if s.p.PCopy? && s.p.done == |s.p.data| {
      PublishRing(s, h.stream);
    } else {
      ProducerRing(s, h.stream);
    }
  }

  lemma {:induction false} ProducedStays(s: State, h: History, k: nat)
    requires s.cap > 0 && s.p.PDone?
    ensures Run(Unbounded, s, Produces(k)) == s && RecordRun(s, h, Produces(k)) == h
    ensures DisciplinedRun(s, Produces(k))
  {
    if k > 0 {
      assert Produces(k)[1..] == Produces(k - 1);
      ProducedStays(s, h, k - 1);
    }
  }

  /** The schedule ends with the answer, and with the stream `stream` published. */
  ghost predicate Publishes(s: State, h: History, sched: seq<Action>, status: Status, stream: seq<byte>)
    requires s.cap > 0
  {
    && DisciplinedRun(s, sched) && Run(Unbounded, s, sched).p == PDone(status)
    && RecordRun(s, h, sched).stream == stream
  }

  lemma PublishesLater(s: State, h: History, t: State, g: History, k: nat, status: Status, stream: seq<byte>)
    requires s.cap > 0 && t == Step(Unbounded, s, StepProducer) && g == Record(s, h, StepProducer)
    requires Publishes(t, g, Produces(k), status, stream)
    ensures Publishes(s, h, Produces(k + 1), status, stream)
  {
    assert Produces(k + 1)[1..] == Produces(k);
  }

  function Answer(s: State): Status {
    if WillFit(s) then Ok else Overflow
  }

  lemma {:induction false} EnqueueFinishes(s: State, h: History, k: nat, status: Status, stream: seq<byte>)
      returns (sched: seq<Action>)
    requires RingOk(s, h.stream) && (s.p.PLoad? || s.p.PCopy?) && k >= ProducerLeft(s.p)
    requires status == Answer(s) && stream == if status.Ok? then h.stream + s.p.data else h.stream
    ensures sched == Produces(k) && Publishes(s, h, sched, status, stream)
    decreases k
  {
    var u, f := ProducerStepAlone(s, h);
    if u.p.PCopy? {
      sched := EnqueueFinishes(u, f, k - 1, status, stream);
    } else {
      sched := EnqueueFinished(u, f, k - 1, status, stream);
    }
    PublishesLater(s, h, u, f, k - 1, status, stream);
    sched := Produces(k);
  }

  lemma EnqueueFinished(s: State, h: History, k: nat, status: Status, stream: seq<byte>) returns (sched: seq<Action>)
    requires s.cap > 0 && s.p == PDone(status) && stream == h.stream
    ensures sched == Produces(k) && Publishes(s, h, sched, status, stream)
  {
    ProducedStays(s, h, k);
    sched := Produces(k);
  }

  function EnqueueSteps(data: seq<byte>): seq<Action> {
    [CallEnqueue(data)] + Produces(|data| + 2)
  }

  lemma EnqueueStart(s: State, h: History, data: seq<byte>, status: Status, stream: seq<byte>) returns (u: State)
    requires RingOk(s, h.stream) && (s.p.PIdle? || s.p.PDone?)
    ensures u == Step(Unbounded, s, CallEnqueue(data)) && RingOk(u, h.stream)
    ensures u == s.(p := if |data| == 0 then PDone(SizeIsZero) else PLoad(data))
    ensures Publishes(u, h, Produces(|data| + 2), status, stream) ==>
              Publishes(s, h, EnqueueSteps(data), status, stream)
  {
    u := Step(Unbounded, s, CallEnqueue(data));
    assert EnqueueSteps(data)[1..] == Produces(|data| + 2);
  }

  /** Ok if the bytes fit beside the uncommitted ones, Overflow if not; nothing to do for no bytes. */
  function EnqueueAnswer(s: State, data: seq<byte>): Status {
    if |data| == 0 then SizeIsZero else if s.tail + |data| <= s.commit + s.cap then Ok else Overflow
  }

  lemma EnqueueAloneTrue(s: State, h: History, data: seq<byte>, status: Status, stream: seq<byte>)
    requires RingOk(s, h.stream) && (s.p.PIdle? || s.p.PDone?)
    requires status == EnqueueAnswer(s, data) && stream == if status.Ok? then h.stream + data else h.stream
    ensures Publishes(s, h, EnqueueSteps(data), status, stream)
  {
    var u := EnqueueStart(s, h, data, status, stream);
    if |data| == 0 {
      var sched := EnqueueFinished(u, h, |data| + 2, status, stream);
    } else {
      var sched := EnqueueFinishes(u, h, |data| + 2, status, stream);
    }
  }

  /** On the compiled queue an enqueue that runs on its own publishes exactly its bytes if they fit
      beside the uncommitted ones, and otherwise answers Overflow and publishes nothing. */
  lemma EnqueueAlone(s: State, h: History, data: seq<byte>)
    requires Inv(s, h) && (s.p.PIdle? || s.p.PDone?)
    ensures Run(Word64, WordOf(s), EnqueueSteps(data)) == WordOf(Run(Unbounded, s, EnqueueSteps(data)))
    ensures var t, g := Run(Word64, WordOf(s), EnqueueSteps(data)), RecordRun(s, h, EnqueueSteps(data));
            if |data| == 0 then t.p == PDone(SizeIsZero) && g.stream == h.stream
            else if |h.stream[s.commit..]| + |data| <= s.cap then t.p == PDone(Ok) && g.stream == h.stream + data
            else t.p == PDone(Overflow) && g.stream == h.stream
  {
    var sched, status := EnqueueSteps(data), EnqueueAnswer(s, data);
    EnqueueAloneTrue(s, h, data, status, if status.Ok? then h.stream + data else h.stream);
    WordRun(s, h, sched);
  }

  // ------------------------------------------------------------------- every interleaving

  /** The size that each consumer last asked for, and the data of the last enqueue call. */
  datatype Calls = Calls(asked: seq<nat>, data: seq<byte>)

  function After(s: State, a: Action, calls: Calls): (c: Calls)
    ensures |c.asked| == |calls.asked|
  {
    match a
    case CallEnqueue(data) => if s.p.PIdle? || s.p.PDone? then calls.(data := data) else calls
    case CallDequeue(id, n) =>
      if id < |s.cs| && id < |calls.asked| && Outside(s.cs[id]) then calls.(asked := calls.asked[id := n]) else calls
    case _ => calls
  }

  ghost predicate InCall(s: State, calls: Calls) {
    && |calls.asked| == |s.cs|
    && (s.p.PLoad? || s.p.PCopy? ==> s.p.data == calls.data)
    && forall i :: 0 <= i < |s.cs| && (s.cs[i].CTicket? || IsOpen(s.cs[i])) ==> s.cs[i].n == calls.asked[i]
  }

  /** A dequeue that returns `kOk` hands out exactly as many bytes as its call asked for, and the
      published stream grows by exactly the data of the enqueue call that returns `kOk`. */
  ghost predicate StepAnswers(s: State, h: History, a: Action, calls: Calls)
    requires s.cap > 0 && |calls.asked| == |s.cs|
  {
    var t, g := Step(Word64, WordOf(s), a), Record(s, h, a);
    && (forall id :: 0 <= id < |s.cs| && IsOpen(s.cs[id]) && t.cs[id].CDone? && t.cs[id].status.Ok? ==>
          |t.cs[id].out| == calls.asked[id])
    && g.stream == if s.p.PCopy? && t.p == PDone(Ok) then h.stream + calls.data else h.stream
  }

  ghost predicate AllAnswer(s: State, h: History, sched: seq<Action>, calls: Calls)
    requires s.cap > 0 && |calls.asked| == |s.cs|
    decreases |sched|
  {
    sched == [] ||
    (&& StepAnswers(s, h, sched[0], calls)
     && AllAnswer(Step(Unbounded, s, sched[0]), Record(s, h, sched[0]), sched[1..], After(s, sched[0], calls)))
  }

  lemma ReturnedSize(s: State, h: History, a: Action, calls: Calls, id: nat)
    requires Inv(s, h) && InCall(s, calls) && id < |s.cs| && IsOpen(s.cs[id])
    requires var c := Step(Unbounded, s, a).cs[id]; c.CDone? && c.status.Ok?
    ensures |Step(Unbounded, s, a).cs[id].out| == calls.asked[id]
  {
    DoneMoves(s, a, id, Step(Unbounded, s, a).cs[id].out);
    TicketAfterCommit(s, h, id);
  }

  lemma StepAnswersCall(s: State, h: History, a: Action, calls: Calls)
    requires Inv(s, h) && InCall(s, calls)
    ensures StepAnswers(s, h, a, calls)
  {
    var t := Step(Unbounded, s, a);
    WordStep(s, h, a);
    PublishIsRecorded(s, h, a);
    forall id | 0 <= id < |s.cs| && IsOpen(s.cs[id]) && t.cs[id].CDone? && t.cs[id].status.Ok?
      ensures |t.cs[id].out| == calls.asked[id]
    {
      ReturnedSize(s, h, a, calls, id);
    }
  }

  lemma InCallStep(s: State, a: Action, calls: Calls)
    requires s.cap > 0 && InCall(s, calls)
    ensures InCall(Step(Unbounded, s, a), After(s, a, calls))
  {
  }

  lemma {:induction false} AnswersRun(s: State, h: History, sched: seq<Action>, calls: Calls)
    requires Inv(s, h) && InCall(s, calls) && DisciplinedRun(s, sched)
    ensures AllAnswer(s, h, sched, calls)
    decreases |sched|
  {
    if sched != [] {
      StepAnswersCall(s, h, sched[0], calls);
      InCallStep(s, sched[0], calls);
      StepInv(s, h, sched[0]);
      AnswersRun(Step(Unbounded, s, sched[0]), Record(s, h, sched[0]), sched[1..], After(s, sched[0], calls));
    }
  }

  /** So in every disciplined run from a fresh reserve. */
  lemma EffectsAnswerCalls(cap: nat, buf: seq<byte>, consumers: nat, sched: seq<Action>, none: Calls)
    requires Capacity(cap) && |buf| == cap && DisciplinedRun(Init(cap, buf, consumers), sched)
    requires |none.asked| == consumers
    ensures AllAnswer(Init(cap, buf, consumers), History([], [], []), sched, none)
  {
    InitInv(cap, buf, consumers);
    AnswersRun(Init(cap, buf, consumers), History([], [], []), sched, none);
  }
}
