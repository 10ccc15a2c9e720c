/** src/logging/impl/spsc_queue.cc as a machine of two threads, one producer and one consumer,
    whose steps interleave freely. Each atomic access is one step and each copy moves one byte
    a step. */
module SpscMachine {
  import opened Bits
  import opened Ring

  /** Where the producer stands inside `enqueue_bytes`. */
  datatype Producer =
    | PIdle
    | PCheck(data: seq<byte>)                             // load own tail, test the cached head
    | PReload(data: seq<byte>, at: nat)                   // load head_idx_, test again
    | PCopy(data: seq<byte>, at: nat, done: nat)          // store one byte, or publish the tail
    | PDone(status: Status)

  /** Where the consumer stands inside `dequeue_bytes` or `peek_bytes`. */
  datatype Consumer =
    | CIdle
    | CCheck(n: nat)
    | CReload(n: nat, at: nat)
    | CCopy(n: nat, at: nat, out: seq<byte>)              // load one byte, or publish the head
    | CPeekHead(n: nat)
    | CPeekTail(n: nat, at: nat)
    | CPeekCopy(n: nat, at: nat, out: seq<byte>)
    | CDone(status: Status, out: seq<byte>)

  datatype State = State(
    cap: nat, buf: seq<byte>,
    head: nat, tail: nat,
    headSnap: nat, tailSnap: nat,
    p: Producer, c: Consumer)

  datatype Action =
    | CallEnqueue(data: seq<byte>)
    | CallDequeue(n: nat)
    | CallPeek(n: nat)
    | StepProducer
    | StepConsumer

  function Init(cap: nat, buf: seq<byte>): State {
    State(cap, buf, 0, 0, 0, 0, PIdle, CIdle)
  }

  function ProducerStep(w: Width, s: State): State
    requires s.cap > 0
  {
    match s.p
    case PCheck(data) =>
      if TooFull(w, s.cap, s.tail, s.headSnap, |data|) then s.(p := PReload(data, s.tail))
      else s.(p := PCopy(data, s.tail, 0))
    case PReload(data, at) =>
      var t := s.(headSnap := s.head);
      if TooFull(w, s.cap, at, s.head, |data|) then t.(p := PDone(Overflow))
      else t.(p := PCopy(data, at, 0))
    case PCopy(data, at, done) =>
      if done < |data| then
        s.(buf := Store(s.buf, CopySlot(w, at, done, s.cap), data[done]), p := PCopy(data, at, done + 1))
      else
        s.(tail := Add(w, at, |data|), p := PDone(Ok))
    case _ => s
  }

  function ConsumerStep(w: Width, s: State): State
    requires s.cap > 0
  {
    match s.c
    case CCheck(n) =>
      if TooEmpty(w, s.tailSnap, s.head, n) then s.(c := CReload(n, s.head))
      else s.(c := CCopy(n, s.head, []))
    case CReload(n, at) =>
      var t := s.(tailSnap := s.tail);
      if TooEmpty(w, s.tail, at, n) then t.(c := CDone(Underflow, []))
      else t.(c := CCopy(n, at, []))
    case CCopy(n, at, out) =>
      if |out| < n then
        s.(c := CCopy(n, at, out + [Load(s.buf, CopySlot(w, at, |out|, s.cap))]))
      else
        s.(head := Add(w, at, n), c := CDone(Ok, out))
    case CPeekHead(n) => s.(c := CPeekTail(n, s.head))
    case CPeekTail(n, at) =>
      if TooEmpty(w, s.tail, at, n) then s.(c := CDone(Underflow, []))
      else s.(c := CPeekCopy(n, at, []))
    case CPeekCopy(n, at, out) =>
      if |out| < n then
        s.(c := CPeekCopy(n, at, out + [Load(s.buf, CopySlot(w, at, |out|, s.cap))]))
      else
        s.(c := CDone(Ok, out))
    case _ => s
  }

  /** One scheduler choice. A call is taken only by a thread that is not inside another call. */
  function Step(w: Width, s: State, a: Action): (t: State)
    requires s.cap > 0
    ensures t.cap == s.cap
  {
    match a
    case CallEnqueue(data) =>
      if !s.p.PIdle? && !s.p.PDone? then s
      else s.(p := if |data| == 0 then PDone(SizeIsZero) else PCheck(data))
    case CallDequeue(n) =>
      if !s.c.CIdle? && !s.c.CDone? then s
      else s.(c := if n == 0 then CDone(SizeIsZero, []) else CCheck(n))
    case CallPeek(n) =>
      if !s.c.CIdle? && !s.c.CDone? then s
      else s.(c := if n == 0 then CDone(SizeIsZero, []) else CPeekHead(n))
    case StepProducer => ProducerStep(w, s)
    case StepConsumer => ConsumerStep(w, s)
  }

  /** The published bytes, oldest first. */
  function Contents(w: Width, s: State): seq<byte>
    requires s.cap > 0
  {
    var n := Sub(w, s.tail, s.head);
    if n < 0 then [] else seq(n, i requires 0 <= i < n => Load(s.buf, Pos(w, Add(w, s.head, i), s.cap)))
  }

  // ------------------------------------------------------- the atomic bounded queue

  /** What an operation does to the queue, at the one step where it takes effect. */
  datatype Event =
    | Tau
    | Enq(data: seq<byte>)
    | Full(data: seq<byte>)
    | Deq(n: nat, out: seq<byte>)
    | Peeked(n: nat, out: seq<byte>)
    | Short(n: nat)

  /** The specification: a first-in first-out queue of at most `cap` bytes whose operations
      are single steps and consult nothing but its contents. */
  predicate FifoAllows(cap: nat, q: seq<byte>, e: Event) {
    match e
    case Tau => true
    case Enq(data) => 0 < |data| && |q| + |data| <= cap
    case Full(data) => |q| + |data| > cap
    case Deq(n, out) => 0 < n <= |q| && out == q[..n]
    case Peeked(n, out) => 0 < n <= |q| && out == q[..n]
    case Short(n) => |q| < n
  }

  function FifoAfter(q: seq<byte>, e: Event): seq<byte> {
    match e
    case Enq(data) => q + data
    case Deq(n, _) => if n <= |q| then q[n..] else []
    case _ => q
  }

  predicate FifoNext(cap: nat, q: seq<byte>, e: Event, q': seq<byte>) {
    FifoAllows(cap, q, e) && q' == FifoAfter(q, e)
  }

  predicate FifoLegal(cap: nat, q: seq<byte>, es: seq<Event>)
    decreases |es|
  {
    es == [] || (FifoAllows(cap, q, es[0]) && FifoLegal(cap, FifoAfter(q, es[0]), es[1..]))
  }

  function FifoFinal(q: seq<byte>, es: seq<Event>): seq<byte>
    decreases |es|
  {
    if es == [] then q else FifoFinal(FifoAfter(q, es[0]), es[1..])
  }

  /** The bytes accepted, and the bytes handed out, by the operations of a history. */
  function Sent(es: seq<Event>): seq<byte> {
    if es == [] then []
    else Gain(es[0]) + Sent(es[1..])
  }

  function Received(es: seq<Event>): seq<byte> {
    if es == [] then []
    else Loss(es[0]) + Received(es[1..])
  }

  /** What one effect adds to the bytes sent and to the bytes received. */
  function Gain(e: Event): seq<byte> { if e.Enq? then e.data else [] }

  function Loss(e: Event): seq<byte> { if e.Deq? then e.out else [] }

  lemma FifoConservesStep(cap: nat, q: seq<byte>, e: Event)
    requires FifoAllows(cap, q, e)
    ensures q + Gain(e) == Loss(e) + FifoAfter(q, e)
  {
    if e.Deq? {
      assert q == q[..e.n] + q[e.n..];
    }
  }

  lemma Regroup(q: seq<byte>, g: seq<byte>, l: seq<byte>, q1: seq<byte>,
                sent: seq<byte>, received: seq<byte>, last: seq<byte>)
    requires q + g == l + q1 && q1 + sent == received + last
    ensures q + (g + sent) == (l + received) + last
  {
    assert q + (g + sent) == (l + q1) + sent;
    assert (l + q1) + sent == l + (received + last);
  }

  /** The atomic queue loses, repeats and reorders nothing. */
  lemma {:induction false} FifoConserves(cap: nat, q: seq<byte>, es: seq<Event>)
    requires FifoLegal(cap, q, es)
    ensures q + Sent(es) == Received(es) + FifoFinal(q, es)
    decreases |es|
  {
    if es != [] {
      var q1 := FifoAfter(q, es[0]);
      FifoConservesStep(cap, q, es[0]);
      FifoConserves(cap, q1, es[1..]);
      Regroup(q, Gain(es[0]), Loss(es[0]), q1, Sent(es[1..]), Received(es[1..]), FifoFinal(q1, es[1..]));
    }
  }

  /** A successful enqueue takes effect at the tail store, a failed one at the head reload;
      a successful dequeue at the head store, a failed one at the tail (re)load. */
  function EventOf(w: Width, s: State, a: Action): Event {
    match a
    case StepProducer => (
      match s.p
      case PReload(data, at) => if TooFull(w, s.cap, at, s.head, |data|) then Full(data) else Tau
      case PCopy(data, _, done) => if done < |data| then Tau else Enq(data)
      case _ => Tau)
    case StepConsumer => (
      match s.c
      case CReload(n, at) => if TooEmpty(w, s.tail, at, n) then Short(n) else Tau
      case CPeekTail(n, at) => if TooEmpty(w, s.tail, at, n) then Short(n) else Tau
      case CCopy(n, _, out) => if |out| < n then Tau else Deq(n, out)
      case CPeekCopy(n, _, out) => if |out| < n then Tau else Peeked(n, out)
      case _ => Tau)
    case _ => Tau
  }

  // ------------------------------------------------------------------- the invariant

  ghost predicate Indices(s: State) {
    && Capacity(s.cap) && |s.buf| == s.cap
    && s.headSnap <= s.head <= s.tailSnap <= s.tail <= s.headSnap + s.cap
  }

  ghost predicate ProducerInv(s: State)
    requires s.cap > 0
  {
    match s.p
    case PCheck(data) => |data| > 0
    case PReload(data, at) => |data| > 0 && at == s.tail
    case PCopy(data, at, done) =>
      && 0 < |data| && done <= |data| && at == s.tail
      && s.tail + |data| <= s.headSnap + s.cap
      && Holds(s.buf, s.cap, s.tail, data[..done])
    case _ => true
  }

  ghost predicate ConsumerInv(s: State)
    requires s.cap > 0
  {
    match s.c
    case CCheck(n) => n > 0
    case CReload(n, at) => n > 0 && at == s.head
    case CCopy(n, at, out) =>
      0 < n && |out| <= n && at == s.head && s.head + n <= s.tailSnap && Holds(s.buf, s.cap, s.head, out)
    case CPeekHead(n) => n > 0
    case CPeekTail(n, at) => n > 0 && at == s.head
    case CPeekCopy(n, at, out) =>
      0 < n && |out| <= n && at == s.head && s.head + n <= s.tail && Holds(s.buf, s.cap, s.head, out)
    case _ => true
  }

  ghost predicate Inv(s: State) {
    Indices(s) && ProducerInv(s) && ConsumerInv(s)
  }

  /** The slots still open to the producer never meet the slots the consumer may still read,
      whatever either thread is doing. */
  lemma SlotsDisjoint(s: State, i: nat, j: nat)
    requires Indices(s)
    requires s.tail <= i < s.headSnap + s.cap && s.head <= j < s.tail
    ensures Slot(i, s.cap) != Slot(j, s.cap)
  {
    SlotDistinct(j, i, s.cap);
  }

  // ----------------------------------------------------------------- step by step

  lemma InitInv(cap: nat, buf: seq<byte>)
    requires Capacity(cap) && |buf| == cap
    ensures Inv(Init(cap, buf)) && Contents(Unbounded, Init(cap, buf)) == []
  {
  }

  /** Storing a byte beyond the tail leaves everything the consumer may read unchanged. */
  lemma StoreKeeps(s: State, k: nat, b: byte)
    requires Indices(s) && s.tail + k < s.headSnap + s.cap
    ensures CopySlot(Unbounded, s.tail, k, s.cap) == Slot(s.tail + k, s.cap)
    ensures forall j {:trigger Slot(j, s.cap)} :: s.head <= j < s.tail + k ==>
              Load(Store(s.buf, Slot(s.tail + k, s.cap), b), Slot(j, s.cap)) == Load(s.buf, Slot(j, s.cap))
    ensures Load(Store(s.buf, Slot(s.tail + k, s.cap), b), Slot(s.tail + k, s.cap)) == b
  {
    SplitCopySlot(Unbounded, s.tail, k, s.cap);
    forall j {:trigger Slot(j, s.cap)} | s.head <= j < s.tail + k
      ensures Slot(s.tail + k, s.cap) != Slot(j, s.cap)
    {
      SlotDistinct(j, s.tail + k, s.cap);
    }
  }

  lemma ProducerStoreInv(s: State)
    requires Inv(s) && s.p.PCopy? && s.p.done < |s.p.data|
    ensures var t := ProducerStep(Unbounded, s);
            && Inv(t) && Contents(Unbounded, t) == Contents(Unbounded, s)
  {
    var t := ProducerStep(Unbounded, s);
    var PCopy(data, at, done) := s.p;
    StoreKeeps(s, done, data[done]);
    assert Holds(t.buf, t.cap, t.tail, data[..done]);
    HoldsAppend(t.buf, t.cap, t.tail, data[..done], data[done]);
    assert data[..done + 1] == data[..done] + [data[done]];
    assert Contents(Unbounded, t) == Contents(Unbounded, s);
  }

  /** Moving the tail past `data` appends exactly `data` to the contents. */
  lemma TailStore(s: State, data: seq<byte>, t: State)
    requires Indices(s) && t.cap == s.cap && t.buf == s.buf && t.head == s.head
    requires t.tail == s.tail + |data| && Holds(s.buf, s.cap, s.tail, data)
    ensures Contents(Unbounded, t) == Contents(Unbounded, s) + data
  {
    forall i | 0 <= i < |data|
      ensures Contents(Unbounded, t)[s.tail - s.head + i] == data[i]
    {
      assert s.head + (s.tail - s.head + i) == s.tail + i;
    }
    assert Contents(Unbounded, t) == Contents(Unbounded, s) + data;
  }

  lemma ProducerStepInv(s: State)
    requires Inv(s)
    ensures var t := ProducerStep(Unbounded, s);
            && Inv(t)
            && FifoNext(s.cap, Contents(Unbounded, s), EventOf(Unbounded, s, StepProducer), Contents(Unbounded, t))
  {
    var t := ProducerStep(Unbounded, s);
    if s.p.PCopy? && s.p.done < |s.p.data| {
      ProducerStoreInv(s);
    } else if s.p.PCopy? {
      assert s.p.data[..s.p.done] == s.p.data;
      TailStore(s, s.p.data, t);
    } else {
      assert Contents(Unbounded, t) == Contents(Unbounded, s);
    }
  }

  lemma ReadMatches(s: State, from: nat, out: seq<byte>, n: nat)
    requires Indices(s) && from == s.head && |out| < n && s.head + n <= s.tail
    requires Holds(s.buf, s.cap, s.head, out)
    ensures Holds(s.buf, s.cap, s.head, out + [Load(s.buf, CopySlot(Unbounded, from, |out|, s.cap))])
  {
    SplitCopySlot(Unbounded, from, |out|, s.cap);
  }

  lemma HeldIsContents(s: State, out: seq<byte>)
    requires Indices(s) && s.head + |out| <= s.tail && Holds(s.buf, s.cap, s.head, out)
    ensures out == Contents(Unbounded, s)[..|out|]
  {
    forall i | 0 <= i < |out| ensures out[i] == Contents(Unbounded, s)[i] {
      assert Load(s.buf, Slot(s.head + i, s.cap)) == out[i];
    }
  }

  /** Moving the head past `out` drops exactly `out` from the contents. */
  lemma HeadStore(s: State, out: seq<byte>, t: State)
    requires Indices(s) && Indices(t) && t.cap == s.cap && t.buf == s.buf && t.tail == s.tail
    requires t.head == s.head + |out| && Holds(s.buf, s.cap, s.head, out)
    ensures out == Contents(Unbounded, s)[..|out|]
    ensures Contents(Unbounded, t) == Contents(Unbounded, s)[|out|..]
  {
    HeldIsContents(s, out);
    var q := Contents(Unbounded, s);
    forall i | 0 <= i < |q| - |out| ensures Contents(Unbounded, t)[i] == q[|out| + i] {
      assert t.head + i == s.head + (|out| + i);
    }
    assert Contents(Unbounded, t) == q[|out|..];
  }

  lemma ConsumerCopyInv(s: State)
    requires Inv(s) && (s.c.CCopy? || s.c.CPeekCopy?)
    ensures var t := ConsumerStep(Unbounded, s);
            && Inv(t)
            && FifoNext(s.cap, Contents(Unbounded, s), EventOf(Unbounded, s, StepConsumer), Contents(Unbounded, t))
  {
    var t := ConsumerStep(Unbounded, s);
    var out := s.c.out;
    if |out| < s.c.n {
      ReadMatches(s, s.c.at, out, s.c.n);
      assert Contents(Unbounded, t) == Contents(Unbounded, s);
    } else if s.c.CCopy? {
      HeadStore(s, out, t);
    } else {
      HeldIsContents(s, out);
      assert Contents(Unbounded, t) == Contents(Unbounded, s);
    }
  }

  lemma ConsumerStepInv(s: State)
    requires Inv(s)
    ensures var t := ConsumerStep(Unbounded, s);
            && Inv(t)
            && FifoNext(s.cap, Contents(Unbounded, s), EventOf(Unbounded, s, StepConsumer), Contents(Unbounded, t))
  {
    if s.c.CCopy? || s.c.CPeekCopy? {
      ConsumerCopyInv(s);
    } else {
      assert Contents(Unbounded, ConsumerStep(Unbounded, s)) == Contents(Unbounded, s);
    }
  }

  /** One step of any interleaving keeps the invariant and acts on the contents as the atomic
      queue does: stale snapshots never change an answer. */
  lemma StepRefines(s: State, a: Action)
    requires Inv(s)
    ensures Inv(Step(Unbounded, s, a))
    ensures FifoNext(s.cap, Contents(Unbounded, s), EventOf(Unbounded, s, a),
                     Contents(Unbounded, Step(Unbounded, s, a)))
  {
    match a {
      case StepProducer => ProducerStepInv(s);
      case StepConsumer => ConsumerStepInv(s);
      case _ => assert Contents(Unbounded, Step(Unbounded, s, a)) == Contents(Unbounded, s);
    }
  }

  // ------------------------------------------------------------------- whole runs

  function Run(w: Width, s: State, sched: seq<Action>): (t: State)
    requires s.cap > 0
    ensures t.cap == s.cap
    decreases |sched|
  {
    if sched == [] then s else Run(w, Step(w, s, sched[0]), sched[1..])
  }

  function Trace(w: Width, s: State, sched: seq<Action>): seq<Event>
    requires s.cap > 0
    decreases |sched|
  {
    if sched == [] then []
    else [EventOf(w, s, sched[0])] + Trace(w, Step(w, s, sched[0]), sched[1..])
  }

  /** Every interleaving of the two threads is a run of the atomic bounded queue. */
  lemma {:induction false} RunRefines(s: State, sched: seq<Action>)
    requires Inv(s)
    ensures Inv(Run(Unbounded, s, sched))
    ensures FifoLegal(s.cap, Contents(Unbounded, s), Trace(Unbounded, s, sched))
    ensures FifoFinal(Contents(Unbounded, s), Trace(Unbounded, s, sched))
         == Contents(Unbounded, Run(Unbounded, s, sched))
    decreases |sched|
  {
    if sched != [] {
      StepRefines(s, sched[0]);
      RunRefines(Step(Unbounded, s, sched[0]), sched[1..]);
      assert Trace(Unbounded, s, sched)[1..] == Trace(Unbounded, Step(Unbounded, s, sched[0]), sched[1..]);
    }
  }

  predicate InsideEnqueue(p: Producer) { p.PCheck? || p.PReload? || p.PCopy? }

  predicate InsideDequeue(c: Consumer) { c.CCheck? || c.CReload? || c.CCopy? }

  predicate InsidePeek(c: Consumer) { c.CPeekHead? || c.CPeekTail? || c.CPeekCopy? }

  /** A call returns at exactly the step at which it takes effect, with the result of that effect. */
  lemma ReturnIsEffect(w: Width, s: State, a: Action)
    requires s.cap > 0
    ensures var e, t := EventOf(w, s, a), Step(w, s, a);
            && (InsideEnqueue(s.p) ==>
                  && (e == Enq(s.p.data) <==> t.p == PDone(Ok))
                  && (e == Full(s.p.data) <==> t.p == PDone(Overflow))
                  && (t.p.PDone? ==> t.p.status.Ok? || t.p.status.Overflow?)
                  && (InsideEnqueue(t.p) ==> t.p.data == s.p.data))
            && (InsideDequeue(s.c) || InsidePeek(s.c) ==>
                  && (e == Short(s.c.n) <==> t.c == CDone(Underflow, []))
                  && (t.c.CDone? ==> t.c.status.Ok? || t.c == CDone(Underflow, []))
                  && (InsideDequeue(t.c) || InsidePeek(t.c) ==> t.c.n == s.c.n))
            && (InsideDequeue(s.c) ==> forall out :: e == Deq(s.c.n, out) <==> t.c == CDone(Ok, out))
            && (InsidePeek(s.c) ==> forall out :: e == Peeked(s.c.n, out) <==> t.c == CDone(Ok, out))
            && (e.Enq? || e.Full? ==> InsideEnqueue(s.p))
            && (e.Deq? ==> InsideDequeue(s.c)) && (e.Peeked? ==> InsidePeek(s.c))
            && (e.Short? ==> InsideDequeue(s.c) || InsidePeek(s.c))
  {
  }
}
