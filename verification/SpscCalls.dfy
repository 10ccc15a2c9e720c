/** What a call of the byte ring does with its own arguments: alone, in any state that another thread
    may have left, and in every interleaving. */
module SpscCalls {
  import opened Bits
  import opened Ring
  import opened SpscMachine
  import opened SpscWord

  function Steps(a: Action, n: nat): (sched: seq<Action>)
    ensures |sched| == n && forall b :: b in sched ==> b == a
  {
    if n == 0 then [] else [a] + Steps(a, n - 1)
  }

  // -------------------------------------------------------------------- a call on its own

  /** The most steps the producer needs to finish its call. */
  function ProducerLeft(p: Producer): nat {
    match p
    case PCheck(data) => |data| + 3
    case PReload(data, _) => |data| + 2
    case PCopy(data, _, done) => if done < |data| then |data| - done + 1 else 1
    case _ => 0
  }

  function ConsumerLeft(c: Consumer): nat {
    match c
    case CCheck(n) => n + 3
    case CReload(n, _) => n + 2
    case CCopy(n, _, out) => if |out| < n then n - |out| + 1 else 1
    case CPeekHead(n) => n + 3
    case CPeekTail(n, _) => n + 2
    case CPeekCopy(n, _, out) => if |out| < n then n - |out| + 1 else 1
    case _ => 0
  }

  ghost function Queued(s: State): seq<byte>
    requires s.cap > 0
  {
    Contents(Unbounded, s)
  }

  /** The answer an enqueue in progress is heading for. */
  ghost predicate WillFit(s: State)
    requires s.cap > 0 && InsideEnqueue(s.p)
  {
    |Queued(s)| + |s.p.data| <= s.cap
  }

  lemma ProducerStepAlone(s: State)
    requires Inv(s) && InsideEnqueue(s.p)
    ensures var t := Step(Unbounded, s, StepProducer);
            && Inv(t) && t.c == s.c && t.cap == s.cap && ProducerLeft(t.p) < ProducerLeft(s.p)
            && if InsideEnqueue(t.p) then t.p.data == s.p.data && Queued(t) == Queued(s)
               else if WillFit(s) then t.p == PDone(Ok) && Queued(t) == Queued(s) + s.p.data
               else t.p == PDone(Overflow) && Queued(t) == Queued(s)
  {
    StepRefines(s, StepProducer);
  }

  lemma {:induction false} DoneStays(s: State, a: Action, k: nat)
    requires s.cap > 0 && ((a == StepProducer && s.p.PDone?) || (a == StepConsumer && s.c.CDone?))
    ensures Run(Unbounded, s, Steps(a, k)) == s
  {
    if k > 0 {
      assert Steps(a, k)[1..] == Steps(a, k - 1);
      DoneStays(s, a, k - 1);
    }
  }

  lemma RunSteps(s: State, a: Action, k: nat)
    requires s.cap > 0 && k > 0
    ensures Run(Unbounded, s, Steps(a, k)) == Run(Unbounded, Step(Unbounded, s, a), Steps(a, k - 1))
  {
    assert Steps(a, k)[1..] == Steps(a, k - 1);
  }

  lemma {:induction false} EnqueueFinishes(s: State, k: nat)
    requires Inv(s) && InsideEnqueue(s.p) && k >= ProducerLeft(s.p)
    ensures var t := Run(Unbounded, s, Steps(StepProducer, k));
            if WillFit(s) then t.p == PDone(Ok) && Queued(t) == Queued(s) + s.p.data
            else t.p == PDone(Overflow) && Queued(t) == Queued(s)
    decreases k
  {
    var t := Step(Unbounded, s, StepProducer);
    ProducerStepAlone(s);
    RunSteps(s, StepProducer, k);
    if InsideEnqueue(t.p) {
      EnqueueFinishes(t, k - 1);
    } else {
      DoneStays(t, StepProducer, k - 1);
    }
  }

  lemma ConsumerStepAlone(s: State)
    requires Inv(s) && (InsideDequeue(s.c) || InsidePeek(s.c))
    ensures var t := Step(Unbounded, s, StepConsumer);
            && Inv(t) && t.p == s.p && t.cap == s.cap && ConsumerLeft(t.c) < ConsumerLeft(s.c)
            && if InsideDequeue(t.c) || InsidePeek(t.c)
               then t.c.n == s.c.n && InsideDequeue(t.c) == InsideDequeue(s.c) && Queued(t) == Queued(s)
               else if s.c.n <= |Queued(s)|
               then && t.c == CDone(Ok, Queued(s)[..s.c.n])
                    && Queued(t) == if InsideDequeue(s.c) then Queued(s)[s.c.n..] else Queued(s)
               else t.c == CDone(Underflow, []) && Queued(t) == Queued(s)
  {
    StepRefines(s, StepConsumer);
  }

  lemma {:induction false} ReadFinishes(s: State, k: nat)
    requires Inv(s) && (InsideDequeue(s.c) || InsidePeek(s.c)) && k >= ConsumerLeft(s.c)
    ensures var t := Run(Unbounded, s, Steps(StepConsumer, k));
            if s.c.n <= |Queued(s)|
            then && t.c == CDone(Ok, Queued(s)[..s.c.n])
                 && Queued(t) == if InsideDequeue(s.c) then Queued(s)[s.c.n..] else Queued(s)
            else t.c == CDone(Underflow, []) && Queued(t) == Queued(s)
    decreases k
  {
    var t := Step(Unbounded, s, StepConsumer);
    ConsumerStepAlone(s);
    RunSteps(s, StepConsumer, k);
    if InsideDequeue(t.c) || InsidePeek(t.c) {
      ReadFinishes(t, k - 1);
    } else {
      DoneStays(t, StepConsumer, k - 1);
    }
  }

  function CallAlone(call: Action, a: Action, k: nat): seq<Action> {
    [call] + Steps(a, k)
  }

  /** The same run on 64-bit indices. */
  lemma CallThenSteps(s: State, call: Action, a: Action, k: nat, sched: seq<Action>) returns (u: State)
    requires Inv(s) && SizesFit(s) && Fits(call) && (a == StepProducer || a == StepConsumer)
    requires sched == CallAlone(call, a, k)
    ensures u == Run(Unbounded, Step(Unbounded, s, call), Steps(a, k))
    ensures Run(Word64, WordOf(s), sched) == WordOf(u)
    ensures Contents(Word64, WordOf(u)) == Queued(u) && Contents(Word64, WordOf(s)) == Queued(s)
  {
    u := Run(Unbounded, s, sched);
    assert sched[1..] == Steps(a, k);
    WordRun(s, sched);
    SameContents(s);
  }

  lemma CallKeeps(s: State, call: Action)
    requires Inv(s) && !call.StepProducer? && !call.StepConsumer?
    ensures Inv(Step(Unbounded, s, call)) && Queued(Step(Unbounded, s, call)) == Queued(s)
  {
    StepRefines(s, call);
  }

  lemma EnqueueRuns(s: State, data: seq<byte>, k: nat, t: State)
    requires Inv(s) && !InsideEnqueue(s.p) && k >= |data| + 3
    requires t == Run(Unbounded, Step(Unbounded, s, CallEnqueue(data)), Steps(StepProducer, k))
    ensures var q := Queued(s);
            if |data| == 0 then t.p == PDone(SizeIsZero) && Queued(t) == q
            else if |q| + |data| <= s.cap then t.p == PDone(Ok) && Queued(t) == q + data
            else t.p == PDone(Overflow) && Queued(t) == q
  {
    var u := Step(Unbounded, s, CallEnqueue(data));
    CallKeeps(s, CallEnqueue(data));
    if |data| == 0 {
      DoneStays(u, StepProducer, k);
    } else {
      EnqueueFinishes(u, k);
    }
  }

  /** From any reachable state with the producer outside a call, whatever the cached head is: an
      enqueue that runs on its own queues exactly its bytes if they fit, and otherwise answers
      Overflow and changes nothing. */
  lemma EnqueueAlone(s: State, data: seq<byte>)
    requires Inv(s) && SizesFit(s) && !InsideEnqueue(s.p) && |data| < WORD
    ensures var q := Contents(Word64, WordOf(s));
            var t := Run(Word64, WordOf(s), CallAlone(CallEnqueue(data), StepProducer, |data| + 3));
            if |data| == 0 then t.p == PDone(SizeIsZero) && Contents(Word64, t) == q
            else if |q| + |data| <= s.cap then t.p == PDone(Ok) && Contents(Word64, t) == q + data
            else t.p == PDone(Overflow) && Contents(Word64, t) == q
  {
    var sched := CallAlone(CallEnqueue(data), StepProducer, |data| + 3);
    var u := CallThenSteps(s, CallEnqueue(data), StepProducer, |data| + 3, sched);
    EnqueueRuns(s, data, |data| + 3, u);
  }

  lemma ReadRuns(s: State, call: Action, k: nat, t: State)
    requires Inv(s) && !InsideDequeue(s.c) && !InsidePeek(s.c) && (call.CallDequeue? || call.CallPeek?)
    requires k >= call.n + 3 && t == Run(Unbounded, Step(Unbounded, s, call), Steps(StepConsumer, k))
    ensures var q := Queued(s);
            if call.n == 0 then t.c == CDone(SizeIsZero, []) && Queued(t) == q
            else if call.n <= |q|
            then t.c == CDone(Ok, q[..call.n]) && Queued(t) == if call.CallDequeue? then q[call.n..] else q
            else t.c == CDone(Underflow, []) && Queued(t) == q
  {
    var u := Step(Unbounded, s, call);
    CallKeeps(s, call);
    if call.n == 0 {
      DoneStays(u, StepConsumer, k);
    } else {
      ReadFinishes(u, k);
    }
  }

  /** A dequeue on its own hands out exactly the oldest `n` bytes, or answers Underflow. */
  lemma DequeueAlone(s: State, n: nat)
    requires Inv(s) && SizesFit(s) && !InsideDequeue(s.c) && !InsidePeek(s.c) && n < WORD
    ensures var q := Contents(Word64, WordOf(s));
            var t := Run(Word64, WordOf(s), CallAlone(CallDequeue(n), StepConsumer, n + 3));
            if n == 0 then t.c == CDone(SizeIsZero, []) && Contents(Word64, t) == q
            else if n <= |q| then t.c == CDone(Ok, q[..n]) && Contents(Word64, t) == q[n..]
            else t.c == CDone(Underflow, []) && Contents(Word64, t) == q
  {
    var sched := CallAlone(CallDequeue(n), StepConsumer, n + 3);
    var u := CallThenSteps(s, CallDequeue(n), StepConsumer, n + 3, sched);
    ReadRuns(s, CallDequeue(n), n + 3, u);
  }

  /** A peek on its own returns the oldest `n` bytes and takes nothing. */
  lemma PeekAlone(s: State, n: nat)
    requires Inv(s) && SizesFit(s) && !InsideDequeue(s.c) && !InsidePeek(s.c) && n < WORD
    ensures var q := Contents(Word64, WordOf(s));
            var t := Run(Word64, WordOf(s), CallAlone(CallPeek(n), StepConsumer, n + 3));
            && Contents(Word64, t) == q
            && t.c == if n == 0 then CDone(SizeIsZero, [])
                      else if n <= |q| then CDone(Ok, q[..n]) else CDone(Underflow, [])
  {
    var sched := CallAlone(CallPeek(n), StepConsumer, n + 3);
    var u := CallThenSteps(s, CallPeek(n), StepConsumer, n + 3, sched);
    ReadRuns(s, CallPeek(n), n + 3, u);
  }

  // ------------------------------------------------------------------- every interleaving

  /** The last call that each thread has made. */
  datatype Calls = Calls(enqueue: seq<byte>, read: Action)

  function After(s: State, a: Action, calls: Calls): Calls {
    if a.CallEnqueue? && (s.p.PIdle? || s.p.PDone?) then calls.(enqueue := a.data)
    else if (a.CallDequeue? || a.CallPeek?) && (s.c.CIdle? || s.c.CDone?) then calls.(read := a)
    else calls
  }

  /** An effect is that of the last call: all of its bytes, or exactly as many as it asked for. */
  predicate Answers(e: Event, calls: Calls) {
    match e
    case Tau => true
    case Enq(data) => data == calls.enqueue
    case Full(data) => data == calls.enqueue
    case Deq(n, out) => calls.read == CallDequeue(n) && |out| == n
    case Peeked(n, out) => calls.read == CallPeek(n) && |out| == n
    case Short(n) => calls.read == CallDequeue(n) || calls.read == CallPeek(n)
  }

  predicate AllAnswer(w: Width, s: State, sched: seq<Action>, calls: Calls)
    requires s.cap > 0
    decreases |sched|
  {
    sched == [] ||
    (&& Answers(EventOf(w, s, sched[0]), calls)
     && AllAnswer(w, Step(w, s, sched[0]), sched[1..], After(s, sched[0], calls)))
  }

  predicate InCall(s: State, calls: Calls) {
    && (InsideEnqueue(s.p) ==> s.p.data == calls.enqueue)
    && (InsideDequeue(s.c) ==> calls.read == CallDequeue(s.c.n))
    && (InsidePeek(s.c) ==> calls.read == CallPeek(s.c.n))
  }

  lemma AnswerStep(s: State, a: Action, calls: Calls)
    requires Inv(s) && InCall(s, calls)
    ensures Answers(EventOf(Unbounded, s, a), calls)
    ensures InCall(Step(Unbounded, s, a), After(s, a, calls))
  {
  }

  lemma AfterWord(s: State, a: Action, calls: Calls)
    ensures After(WordOf(s), a, calls) == After(s, a, calls)
  {
  }

  lemma {:induction false} AnswersRun(s: State, sched: seq<Action>, calls: Calls)
    requires Inv(s) && SizesFit(s) && InCall(s, calls) && forall a :: a in sched ==> Fits(a)
    ensures AllAnswer(Word64, WordOf(s), sched, calls)
    decreases |sched|
  {
    if sched != [] {
      WordStep(s, sched[0]);
      StepRefines(s, sched[0]);
      AnswerStep(s, sched[0], calls);
      AfterWord(s, sched[0], calls);
      AnswersRun(Step(Unbounded, s, sched[0]), sched[1..], After(s, sched[0], calls));
    }
  }

  /** In every run of the compiled ring: each effect on the queue carries the whole data of the last
      enqueue call, or exactly the number of bytes that the last dequeue or peek call asked for. */
  lemma EffectsAnswerCalls(cap: nat, buf: seq<byte>, sched: seq<Action>, none: Calls)
    requires Capacity(cap) && |buf| == cap && forall a :: a in sched ==> Fits(a)
    ensures AllAnswer(Word64, Init(cap, buf), sched, none)
  {
    InitInv(cap, buf);
    assert WordOf(Init(cap, buf)) == Init(cap, buf);
    AnswersRun(Init(cap, buf), sched, none);
  }
}
