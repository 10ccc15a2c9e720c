/** The ticket queue on wrapping 64-bit indices runs in lock step with the unbounded one, as long
    as the ticket hypothesis holds. */
module SpmcWord {
  import opened Bits
  import opened Ring
  import opened SpmcMachine
  import opened SpmcRuns

  function WordProducer(p: Producer): Producer {
    if p.PCopy? then p.(at := p.at % WORD) else p
  }

  function WordConsumer(c: Consumer): Consumer {
    match c
    case CCheck(n, ticket) => CCheck(n, ticket % WORD)
    case CRewind(n, ticket) => CRewind(n, ticket % WORD)
    case CCopy(n, ticket, out) => CCopy(n, ticket % WORD, out)
    case _ => c
  }

  function WordConsumers(cs: seq<Consumer>): (ds: seq<Consumer>)
    ensures |ds| == |cs|
  {
    seq(|cs|, i requires 0 <= i < |cs| => WordConsumer(cs[i]))
  }

  function WordOf(s: State): State {
    State(s.cap, s.buf, s.head % WORD, s.tail % WORD, s.commit % WORD, WordProducer(s.p), WordConsumers(s.cs))
  }

  lemma WordUpdate(cs: seq<Consumer>, id: nat, c: Consumer)
    requires id < |cs|
    ensures WordConsumers(cs[id := c]) == WordConsumers(cs)[id := WordConsumer(c)]
  {
  }

  lemma SameProducer(s: State, h: History)
    requires Inv(s, h)
    ensures ProducerStep(Word64, WordOf(s)) == WordOf(ProducerStep(Unbounded, s))
  {
    if s.p.PLoad? {
      SameTests(s.cap, s.tail, s.commit, |s.p.data|);
    } else if s.p.PCopy? {
      SameSlot(s.tail, s.p.done, s.cap);
      WordSum(s.tail, |s.p.data|);
    }
  }

  /** The compare-and-swap sees equal words exactly when the true indices are equal. */
  lemma SameCommit(commit: nat, ticket: nat)
    requires commit <= ticket < commit + WORD
    ensures commit % WORD == ticket % WORD <==> commit == ticket
  {
    WordDifference(ticket, commit);
  }

  lemma WordBack(head: nat, n: nat)
    requires n <= head
    ensures Back(Word64, head % WORD, n) == Back(Unbounded, head, n) % WORD
  {
    ModCongruent(head % WORD, head, 0 - n, WORD);
  }

  lemma SameRewind(s: State, id: nat)
    requires s.cap > 0 && id < |s.cs| && s.cs[id].CRewind? && s.cs[id].n <= s.head
    ensures ConsumerStep(Word64, WordOf(s), id) == WordOf(ConsumerStep(Unbounded, s, id))
  {
    WordUpdate(s.cs, id, CDone(Underflow, []));
    WordBack(s.head, s.cs[id].n);
  }

  lemma SameByteCopy(s: State, id: nat)
    requires Capacity(s.cap) && id < |s.cs| && s.cs[id].CCopy? && |s.cs[id].out| < s.cs[id].n
    ensures ConsumerStep(Word64, WordOf(s), id) == WordOf(ConsumerStep(Unbounded, s, id))
  {
    var CCopy(n, ticket, out) := s.cs[id];
    SameSlot(ticket, |out|, s.cap);
    WordUpdate(s.cs, id, CCopy(n, ticket, out + [Load(s.buf, CopySlot(Unbounded, ticket, |out|, s.cap))]));
  }

  lemma SameCommitStep(s: State, id: nat)
    requires s.cap > 0 && id < |s.cs| && s.cs[id].CCopy? && |s.cs[id].out| >= s.cs[id].n
    requires s.commit <= s.cs[id].ticket < s.commit + WORD
    ensures ConsumerStep(Word64, WordOf(s), id) == WordOf(ConsumerStep(Unbounded, s, id))
  {
    var CCopy(n, ticket, out) := s.cs[id];
    SameCommit(s.commit, ticket);
    WordSum(ticket, n);
    WordUpdate(s.cs, id, CDone(Ok, out));
  }

  lemma SameConsumer(s: State, h: History, id: nat)
    requires Inv(s, h) && id < |s.cs|
    ensures ConsumerStep(Word64, WordOf(s), id) == WordOf(ConsumerStep(Unbounded, s, id))
  {
    var c, t := s.cs[id], ConsumerStep(Unbounded, s, id);
    WordUpdate(s.cs, id, t.cs[id]);
    if IsOpen(c) {
      TicketAfterCommit(s, h, id);
    }
    match c {
      case CTicket(n) => WordSum(s.head, n);
      case CCheck(n, ticket) => SameTests(s.cap, s.tail, ticket, n);
      case CRewind(n, ticket) =>
        Rewind(s, h, id);
        SameRewind(s, id);
      case CCopy(n, _, out) => if |out| < n { SameByteCopy(s, id); } else { SameCommitStep(s, id); }
      case _ =>
    }
  }

  lemma SameCallDequeue(s: State, id: nat, n: nat)
    requires s.cap > 0
    ensures Step(Word64, WordOf(s), CallDequeue(id, n)) == WordOf(Step(Unbounded, s, CallDequeue(id, n)))
  {
    if id < |s.cs| {
      WordUpdate(s.cs, id, if n == 0 then CDone(SizeIsZero, []) else CTicket(n));
    }
  }

  lemma SameCallEnqueue(s: State, data: seq<byte>)
    requires s.cap > 0
    ensures Step(Word64, WordOf(s), CallEnqueue(data)) == WordOf(Step(Unbounded, s, CallEnqueue(data)))
  {
  }

  lemma WordStep(s: State, h: History, a: Action)
    requires Inv(s, h)
    ensures Step(Word64, WordOf(s), a) == WordOf(Step(Unbounded, s, a))
  {
    match a {
      case StepProducer => SameProducer(s, h);
      case StepConsumer(id) => if id < |s.cs| { SameConsumer(s, h, id); }
      case CallDequeue(id, n) => SameCallDequeue(s, id, n);
      case CallEnqueue(data) => SameCallEnqueue(s, data);
    }
  }

  lemma {:induction false} WordRun(s: State, h: History, sched: seq<Action>)
    requires Inv(s, h) && DisciplinedRun(s, sched)
    ensures Run(Word64, WordOf(s), sched) == WordOf(Run(Unbounded, s, sched))
    decreases |sched|
  {
    if sched != [] {
      WordStep(s, h, sched[0]);
      StepInv(s, h, sched[0]);
      WordRun(Step(Unbounded, s, sched[0]), Record(s, h, sched[0]), sched[1..]);
    }
  }

  /** The compiled ticket queue, under the ticket hypothesis: its consumers' results are those of
      the unbounded machine, whose committed dequeues deliver every byte exactly once. */
  lemma SpmcExactlyOnce(cap: nat, buf: seq<byte>, consumers: nat, sched: seq<Action>)
    requires Capacity(cap) && |buf| == cap && DisciplinedRun(Init(cap, buf, consumers), sched)
    ensures var s := Run(Unbounded, Init(cap, buf, consumers), sched);
            var h := RecordRun(Init(cap, buf, consumers), History([], [], []), sched);
            && Run(Word64, Init(cap, buf, consumers), sched) == WordOf(s)
            && s.commit <= |h.stream| && Delivered(h.log) == h.stream[..s.commit]
            && (forall i :: 0 <= i < |h.log| ==> DeliveredOnce(s, h, i))
  {
    var s0 := Init(cap, buf, consumers);
    InitInv(cap, buf, consumers);
    assert WordConsumers(s0.cs) == s0.cs;
    WordRun(s0, History([], [], []), sched);
    ExactlyOnce(cap, buf, consumers, sched);
  }

  /** A dequeue is refused exactly when fewer than `n` bytes have been published from its ticket on. */
  lemma UnderflowExactly(s: State, h: History, id: nat)
    requires Inv(s, h) && id < |s.cs| && s.cs[id].CCheck?
    ensures var c, d := s.cs[id], Step(Word64, WordOf(s), StepConsumer(id)).cs[id];
            && (d.CRewind? <==> c.ticket + c.n > |h.stream|)
            && (d.CCopy? <==> c.ticket + c.n <= |h.stream|)
  {
    WordStep(s, h, StepConsumer(id));
    TicketAfterCommit(s, h, id);
  }

  /** An enqueue is refused exactly when the uncommitted bytes leave too little room. */
  lemma OverflowExactly(s: State, h: History)
    requires Inv(s, h) && s.p.PLoad?
    ensures var p := Step(Word64, WordOf(s), StepProducer).p;
            && (p == PDone(Overflow) <==> |h.stream[s.commit..]| + |s.p.data| > s.cap)
            && (p.PCopy? <==> |h.stream[s.commit..]| + |s.p.data| <= s.cap)
  {
    WordStep(s, h, StepProducer);
  }

  /** The commit spin of the compiled queue ends: ticket holders alone complete the dequeue. */
  lemma WordSpinEnds(s: State, h: History, id: nat) returns (sched: seq<Action>)
    requires Inv(s, h) && id < |s.cs| && s.cs[id].CCopy?
    ensures forall a :: a in sched ==> a.StepConsumer? && a.id in h.open
    ensures var t := Run(Word64, WordOf(s), sched);
            && t.commit == End(s.cs[id]) % WORD && End(s.cs[id]) <= |h.stream|
            && t.cs[id] == CDone(Ok, h.stream[s.cs[id].ticket..End(s.cs[id])])
  {
    sched := SpinEnds(s, h, id);
    WordRun(s, h, sched);
  }
}
