/** The ring on wrapping 64-bit indices runs in lock step with the ring on unbounded indices,
    across any number of index overflows. */
module SpscWord {
  import opened Bits
  import opened Ring
  import opened SpscMachine

  function WordProducer(p: Producer): Producer {
    match p
    case PReload(data, at) => PReload(data, at % WORD)
    case PCopy(data, at, done) => PCopy(data, at % WORD, done)
    case _ => p
  }

  function WordConsumer(c: Consumer): Consumer {
    match c
    case CReload(n, at) => CReload(n, at % WORD)
    case CCopy(n, at, out) => CCopy(n, at % WORD, out)
    case CPeekTail(n, at) => CPeekTail(n, at % WORD)
    case CPeekCopy(n, at, out) => CPeekCopy(n, at % WORD, out)
    case _ => c
  }

  /** What the 64-bit code holds when the unbounded machine is in state `s`. */
  function WordOf(s: State): State {
    State(s.cap, s.buf, s.head % WORD, s.tail % WORD, s.headSnap % WORD, s.tailSnap % WORD,
          WordProducer(s.p), WordConsumer(s.c))
  }

  /** Sizes passed to the queue are `size_t` values. */
  predicate Fits(a: Action) {
    match a
    case CallEnqueue(data) => |data| < WORD
    case CallDequeue(n) => n < WORD
    case CallPeek(n) => n < WORD
    case _ => true
  }

  predicate SizesFit(s: State) {
    && (s.p.PCheck? || s.p.PReload? ==> |s.p.data| < WORD)
    && (s.c.CCheck? || s.c.CReload? || s.c.CPeekHead? || s.c.CPeekTail? ==> s.c.n < WORD)
  }

  lemma SameProducerCopy(s: State)
    requires Inv(s) && s.p.PCopy?
    ensures ProducerStep(Word64, WordOf(s)) == WordOf(ProducerStep(Unbounded, s))
    ensures EventOf(Word64, WordOf(s), StepProducer) == EventOf(Unbounded, s, StepProducer)
  {
    SameSlot(s.tail, s.p.done, s.cap);
    WordSum(s.tail, |s.p.data|);
  }

  lemma SameProducerStep(s: State)
    requires Inv(s) && SizesFit(s)
    ensures ProducerStep(Word64, WordOf(s)) == WordOf(ProducerStep(Unbounded, s))
    ensures EventOf(Word64, WordOf(s), StepProducer) == EventOf(Unbounded, s, StepProducer)
  {
    match s.p {
      case PCheck(data) => SameTests(s.cap, s.tail, s.headSnap, |data|);
      case PReload(data, _) => SameTests(s.cap, s.tail, s.head, |data|);
      case PCopy(_, _, _) => SameProducerCopy(s);
      case _ =>
    }
  }

  lemma SameConsumerTest(s: State)
    requires Inv(s) && SizesFit(s) && (s.c.CCheck? || s.c.CReload? || s.c.CPeekTail?)
    ensures ConsumerStep(Word64, WordOf(s)) == WordOf(ConsumerStep(Unbounded, s))
    ensures EventOf(Word64, WordOf(s), StepConsumer) == EventOf(Unbounded, s, StepConsumer)
  {
    if s.c.CCheck? {
      SameTests(s.cap, s.tailSnap, s.head, s.c.n);
    } else {
      SameTests(s.cap, s.tail, s.head, s.c.n);
    }
  }

  lemma SameConsumerCopy(s: State)
    requires Inv(s) && SizesFit(s) && (s.c.CCopy? || s.c.CPeekCopy?)
    ensures ConsumerStep(Word64, WordOf(s)) == WordOf(ConsumerStep(Unbounded, s))
    ensures EventOf(Word64, WordOf(s), StepConsumer) == EventOf(Unbounded, s, StepConsumer)
  {
    SameSlot(s.head, |s.c.out|, s.cap);
    WordSum(s.head, s.c.n);
  }

  lemma SameConsumerStep(s: State)
    requires Inv(s) && SizesFit(s)
    ensures ConsumerStep(Word64, WordOf(s)) == WordOf(ConsumerStep(Unbounded, s))
    ensures EventOf(Word64, WordOf(s), StepConsumer) == EventOf(Unbounded, s, StepConsumer)
  {
    if s.c.CCheck? || s.c.CReload? || s.c.CPeekTail? {
      SameConsumerTest(s);
    } else if s.c.CCopy? || s.c.CPeekCopy? {
      SameConsumerCopy(s);
    }
  }

  lemma SameByte(s: State, i: nat)
    requires Capacity(s.cap)
    ensures Pos(Word64, Add(Word64, s.head % WORD, i), s.cap) == Pos(Unbounded, s.head + i, s.cap)
  {
    WordSum(s.head, i);
    SameSlot(s.head + i, 0, s.cap);
  }

  lemma SameContents(s: State)
    requires Indices(s)
    ensures Contents(Word64, WordOf(s)) == Contents(Unbounded, s)
  {
    var q, r := Contents(Word64, WordOf(s)), Contents(Unbounded, s);
    assert |q| == |r| by { WordDifference(s.tail, s.head); }
    forall i: nat | i < |r| ensures q[i] == r[i] {
      SameByte(s, i);
    }
  }

  lemma SameCall(s: State, a: Action)
    requires s.cap > 0 && SizesFit(s) && Fits(a) && (a.CallEnqueue? || a.CallDequeue? || a.CallPeek?)
    ensures Step(Word64, WordOf(s), a) == WordOf(Step(Unbounded, s, a))
    ensures EventOf(Word64, WordOf(s), a) == EventOf(Unbounded, s, a)
    ensures SizesFit(Step(Unbounded, s, a))
  {
  }

  /** One step of the 64-bit code is one step of the unbounded machine. */
  lemma WordStep(s: State, a: Action)
    requires Inv(s) && SizesFit(s) && Fits(a)
    ensures Step(Word64, WordOf(s), a) == WordOf(Step(Unbounded, s, a))
    ensures EventOf(Word64, WordOf(s), a) == EventOf(Unbounded, s, a)
    ensures SizesFit(Step(Unbounded, s, a))
  {
    match a {
      case StepProducer => SameProducerStep(s);
      case StepConsumer => SameConsumerStep(s);
      case _ => SameCall(s, a);
    }
  }

  /** All statuses, bytes and effects agree for ever. */
  lemma {:induction false} WordRun(s: State, sched: seq<Action>)
    requires Inv(s) && SizesFit(s) && forall a :: a in sched ==> Fits(a)
    ensures Run(Word64, WordOf(s), sched) == WordOf(Run(Unbounded, s, sched))
    ensures Trace(Word64, WordOf(s), sched) == Trace(Unbounded, s, sched)
    ensures Contents(Word64, Run(Word64, WordOf(s), sched)) == Contents(Unbounded, Run(Unbounded, s, sched))
    decreases |sched|
  {
    if sched == [] {
      SameContents(s);
    } else {
      WordStep(s, sched[0]);
      StepRefines(s, sched[0]);
      WordRun(Step(Unbounded, s, sched[0]), sched[1..]);
    }
  }

  /** The queue as compiled, from a fresh `reserve`: every interleaving of one producer and one
      consumer is a history of the atomic bounded queue, and no byte is lost or reordered. */
  lemma SpscRefinesFifo(cap: nat, buf: seq<byte>, sched: seq<Action>)
    requires Capacity(cap) && |buf| == cap && forall a :: a in sched ==> Fits(a)
    ensures var es := Trace(Word64, Init(cap, buf), sched);
            var q := Contents(Word64, Run(Word64, Init(cap, buf), sched));
            && FifoLegal(cap, [], es) && q == FifoFinal([], es)
            && Sent(es) == Received(es) + q && |q| <= cap
  {
    var s := Init(cap, buf);
    assert WordOf(s) == s;
    InitInv(cap, buf);
    RunRefines(s, sched);
    WordRun(s, sched);
    FifoConserves(cap, [], Trace(Unbounded, s, sched));
    var q := Contents(Unbounded, Run(Unbounded, s, sched));
    assert [] + Sent(Trace(Unbounded, s, sched)) == Sent(Trace(Unbounded, s, sched));
  }

  /** In every reachable state of the compiled queue the true indices and snapshots are ordered and
      at most a capacity apart, and the words are those indices modulo 2^64. */
  lemma ReachableIndices(cap: nat, buf: seq<byte>, sched: seq<Action>)
    requires Capacity(cap) && |buf| == cap && forall a :: a in sched ==> Fits(a)
    ensures var u := Run(Unbounded, Init(cap, buf), sched);
            && Run(Word64, Init(cap, buf), sched) == WordOf(u) && Inv(u) && SizesFit(u)
            && u.headSnap <= u.head <= u.tailSnap <= u.tail <= u.headSnap + cap
  {
    var s := Init(cap, buf);
    assert WordOf(s) == s;
    InitInv(cap, buf);
    RunRefines(s, sched);
    WordRun(s, sched);
    WordSizes(s, sched);
  }

  lemma {:induction false} WordSizes(s: State, sched: seq<Action>)
    requires Inv(s) && SizesFit(s) && forall a :: a in sched ==> Fits(a)
    ensures SizesFit(Run(Unbounded, s, sched))
    decreases |sched|
  {
    if sched != [] {
      WordStep(s, sched[0]);
      StepRefines(s, sched[0]);
      WordSizes(Step(Unbounded, s, sched[0]), sched[1..]);
    }
  }

  /** The consumer's copy in progress, of a dequeue or of a peek. */
  predicate Reading(c: Consumer) {
    c.CCopy? || c.CPeekCopy?
  }

  lemma CopiesApart(s: State, i: nat, j: nat)
    requires Inv(s) && s.p.PCopy? && Reading(s.c) && i < |s.p.data| && j < s.c.n
    ensures CopySlot(Word64, WordOf(s).p.at, i, s.cap) != CopySlot(Word64, WordOf(s).c.at, j, s.cap)
  {
    SameSlot(s.tail, i, s.cap);
    SameSlot(s.head, j, s.cap);
    SplitCopySlot(Unbounded, s.tail, i, s.cap);
    SplitCopySlot(Unbounded, s.head, j, s.cap);
    SlotsDisjoint(s, s.tail + i, s.head + j);
  }

  /** While both threads of the compiled queue are copying, no slot that one of them writes is a slot
      that the other reads, whichever bytes they have reached. */
  lemma CopiesNeverMeet(cap: nat, buf: seq<byte>, sched: seq<Action>)
    requires Capacity(cap) && |buf| == cap && forall a :: a in sched ==> Fits(a)
    ensures var t := Run(Word64, Init(cap, buf), sched);
            t.p.PCopy? && Reading(t.c) ==>
              forall i, j :: 0 <= i < |t.p.data| && 0 <= j < t.c.n ==>
                CopySlot(Word64, t.p.at, i, cap) != CopySlot(Word64, t.c.at, j, cap)
  {
    ReachableIndices(cap, buf, sched);
    var u := Run(Unbounded, Init(cap, buf), sched);
    if u.p.PCopy? && Reading(u.c) {
      forall i, j | 0 <= i < |u.p.data| && 0 <= j < u.c.n
        ensures CopySlot(Word64, WordOf(u).p.at, i, cap) != CopySlot(Word64, WordOf(u).c.at, j, cap)
      {
        CopiesApart(u, i, j);
      }
    }
  }
}
