/** Why the ticket queue needs its hypothesis: a ticket is safe exactly when it is taken with the
    head not past the tail and with no consumer between a failed check and its rewind. */
module SpmcTickets {
  import opened Bits
  import opened Ring
  import opened SpmcMachine
  import opened SpmcRuns
  import opened SpmcWord

  // ------------------------------------------------------------------- past the tail

  /** The sizes passed to the queue are `size_t` values below `limit`. */
  ghost predicate SizesBelow(cs: seq<Consumer>, limit: nat) {
    forall i :: 0 <= i < |cs| && (IsOpen(cs[i]) || cs[i].CTicket?) ==> cs[i].n < limit
  }

  /** `tail - ticket` with the ticket past the tail is short of a whole word by the distance. */
  lemma WrappedDifference(tail: nat, head: nat)
    requires tail < head < tail + WORD
    ensures Sub(Word64, tail % WORD, head % WORD) == WORD - (head - tail)
  {
    var d := head - tail;
    WordDifference(head, tail);
    var x := (tail % WORD - head % WORD);
    assert (head % WORD - tail % WORD) % WORD == d;
    ModNegate(head % WORD - tail % WORD, d);
    assert x == -(head % WORD - tail % WORD);
  }

  lemma ModNegate(y: int, d: nat)
    requires 0 < d < WORD && y % WORD == d
    ensures (-y) % WORD == WORD - d
  {
    var q := y / WORD;
    assert -y == (-q - 1) * WORD + (WORD - d);
    DivModUnique(-y, WORD, -q - 1, WORD - d);
  }

  lemma HeadNotFarPastTail(s: State, h: History)
    requires Inv(s, h) && SizesBelow(s.cs, WORD)
    ensures s.head < s.tail + WORD
    ensures forall limit: nat :: SizesBelow(s.cs, limit) && h.open != [] ==> s.head < s.tail + limit
  {
    if h.open != [] {
      var last := h.open[|h.open| - 1];
      assert TicketOk(s.cs[last], s.tail, h.stream);
    }
  }

  function TwoSteps(a: nat, b: nat): seq<Action> {
    [StepConsumer(a), StepConsumer(b)]
  }

  lemma RunTwo(w: Width, s: State, a: nat, b: nat)
    requires s.cap > 0
    ensures Run(w, s, TwoSteps(a, b)) == Step(w, Step(w, s, StepConsumer(a)), StepConsumer(b))
  {
    var rest := TwoSteps(a, b)[1..];
    var t := Step(w, s, StepConsumer(a));
    assert rest == [StepConsumer(b)] && rest[1..] == [];
    assert Run(w, t, rest) == Run(w, Step(w, t, StepConsumer(b)), []);
  }

  /** Taken past the tail, a ticket passes its check with none of its bytes published, unless its
      size makes the sum exceed a word. */
  lemma TicketPastTail(s: State, h: History, id: nat)
    requires Inv(s, h) && SizesBelow(s.cs, WORD) && id < |s.cs| && s.cs[id].CTicket? && s.head > s.tail
    ensures var n := s.cs[id].n;
            Run(Word64, WordOf(s), TwoSteps(id, id)).cs[id] ==
              if s.head - s.tail + n <= WORD then CCopy(n, s.head % WORD, []) else CRewind(n, s.head % WORD)
  {
    RunTwo(Word64, WordOf(s), id, id);
    HeadNotFarPastTail(s, h);
    WrappedDifference(s.tail, s.head);
  }

  /** Taken at or before the tail, it passes exactly when its bytes are published. */
  lemma TicketUpToTail(s: State, h: History, id: nat)
    requires Inv(s, h) && id < |s.cs| && s.cs[id].CTicket? && s.head <= s.tail
    ensures var n, t := s.cs[id].n, Run(Word64, WordOf(s), TwoSteps(id, id));
            t.cs[id] == if s.head + n <= |h.stream| then CCopy(n, s.head % WORD, []) else CRewind(n, s.head % WORD)
  {
    RunTwo(Word64, WordOf(s), id, id);
    CommitUpToHead(s, h);
    SameTests(s.cap, s.tail, s.head, s.cs[id].n);
  }

  lemma CommitUpToHead(s: State, h: History)
    requires Inv(s, h)
    ensures s.commit <= s.head
  {
    if h.open != [] {
      TicketAfterCommit(s, h, h.open[|h.open| - 1]);
    }
  }

  // ----------------------------------------------------------------- before a rewind

  ghost predicate Covered(cs: seq<Consumer>, p: nat) {
    exists j :: 0 <= j < |cs| && IsOpen(cs[j]) && cs[j].ticket <= p < End(cs[j])
  }

  lemma RewindEndsAtHead(s: State, h: History, r: nat)
    requires Inv(s, h) && r < |s.cs| && s.cs[r].CRewind?
    ensures s.head == End(s.cs[r]) && 0 < s.cs[r].n
  {
    Rewind(s, h, r);
  }

  lemma TakeThenRewindMoves(s: State, id: nat, r: nat)
    requires s.cap > 0 && id < |s.cs| && r < |s.cs| && s.cs[id].CTicket? && s.cs[r].CRewind?
    requires s.head == End(s.cs[r])
    ensures var c, n := s.cs[r], s.cs[id].n;
            Step(Unbounded, Step(Unbounded, s, StepConsumer(id)), StepConsumer(r))
               == s.(head := c.ticket + n, cs := s.cs[id := CCheck(n, End(c))][r := CDone(Underflow, [])])
  {
  }

  /** The two steps touch the head and the two consumers only. */
  lemma TakeThenRewind(s: State, h: History, id: nat, r: nat)
    requires Inv(s, h) && id < |s.cs| && r < |s.cs| && s.cs[id].CTicket? && s.cs[r].CRewind?
    ensures var c, n := s.cs[r], s.cs[id].n;
            && s.head == End(c) && 0 < c.n
            && Run(Unbounded, s, TwoSteps(id, r))
               == s.(head := c.ticket + n, cs := s.cs[id := CCheck(n, End(c))][r := CDone(Underflow, [])])
  {
    RewindEndsAtHead(s, h, r);
    TakeThenRewindMoves(s, id, r);
    RunTwo(Unbounded, s, id, r);
  }

  lemma TakeThenRewindWord(s: State, h: History, id: nat, r: nat)
    requires Inv(s, h) && id < |s.cs| && r < |s.cs| && s.cs[id].CTicket? && s.cs[r].CRewind?
    ensures Run(Word64, WordOf(s), TwoSteps(id, r)) == WordOf(Run(Unbounded, s, TwoSteps(id, r)))
  {
    RunTwo(Unbounded, s, id, r);
    RunTwo(Word64, WordOf(s), id, r);
    RewindEndsAtHead(s, h, r);
    WordStep(s, h, StepConsumer(id));
    SameRewind(Step(Unbounded, s, StepConsumer(id)), r);
  }

  /** A ticket taken before another consumer's rewind: the rewind gives back the new ticket's end
      instead of the failed one's, so the head is left inside the open tickets and the bytes of the
      failed ticket belong to nobody. */
  lemma TicketBeforeRewind(s: State, h: History, id: nat, r: nat)
    requires Inv(s, h) && id < |s.cs| && r < |s.cs| && s.cs[id].CTicket? && s.cs[r].CRewind?
    ensures var u := Run(Unbounded, s, TwoSteps(id, r));
            && Run(Word64, WordOf(s), TwoSteps(id, r)) == WordOf(u)
            && u.head == s.cs[r].ticket + s.cs[id].n
            && u.cs[id] == CCheck(s.cs[id].n, End(s.cs[r]))
            && forall p :: s.cs[r].ticket <= p < End(s.cs[r]) ==> !Covered(u.cs, p)
  {
    TakeThenRewind(s, h, id, r);
    TakeThenRewindWord(s, h, id, r);
    var u := Run(Unbounded, s, TwoSteps(id, r));
    forall p | s.cs[r].ticket <= p < End(s.cs[r]) ensures !Covered(u.cs, p) {
      forall j | 0 <= j < |u.cs| && IsOpen(u.cs[j]) ensures !(u.cs[j].ticket <= p < End(u.cs[j])) {
        if j != id {
          EarlierEnds(s, h, j, r);
        }
      }
    }
  }

  lemma EarlierEnds(s: State, h: History, j: nat, r: nat)
    requires Inv(s, h) && j < |s.cs| && r < |s.cs| && j != r && IsOpen(s.cs[j]) && s.cs[r].CRewind?
    ensures End(s.cs[j]) <= s.cs[r].ticket
  {
    Rewind(s, h, r);
    var k := OpenIndex(s.cs, h.open, j);
    assert k < |h.open| - 1;
  }

  // ------------------------------------------------------------------ the exact condition

  /** The ticket that `id` is about to take passes its check only if its bytes are published. */
  ghost predicate ChecksItsBytes(s: State, h: History, id: nat)
    requires s.cap > 0 && id < |s.cs| && s.cs[id].CTicket?
  {
    Run(Word64, WordOf(s), TwoSteps(id, id)).cs[id].CCopy? ==> s.head + s.cs[id].n <= |h.stream|
  }

  /** No pending rewind moves the head back over it, so that no later ticket overlaps it. */
  ghost predicate StaysBelowHead(s: State, id: nat)
    requires s.cap > 0 && id < |s.cs| && s.cs[id].CTicket?
  {
    forall r :: 0 <= r < |s.cs| && s.cs[r].CRewind? ==>
      Run(Word64, WordOf(s), TwoSteps(id, r)).head == (s.head + s.cs[id].n) % WORD
  }

  lemma DifferentWords(a: nat, k: nat)
    requires 0 < k < WORD
    ensures (a + k) % WORD != a % WORD
  {
    WordDifference(a + k, a);
  }

  lemma RewindMovesHead(s: State, h: History, id: nat, r: nat)
    requires Inv(s, h) && SizesBelow(s.cs, WORD)
    requires id < |s.cs| && r < |s.cs| && s.cs[id].CTicket? && s.cs[r].CRewind?
    ensures Run(Word64, WordOf(s), TwoSteps(id, r)).head != (s.head + s.cs[id].n) % WORD
  {
    TakeThenRewind(s, h, id, r);
    TakeThenRewindWord(s, h, id, r);
    DifferentWords(s.cs[r].ticket + s.cs[id].n, s.cs[r].n);
  }

  /** In every reachable state the ticket hypothesis is exactly the condition under which taking a
      ticket is safe, for sizes up to half the address space. */
  lemma DisciplinedExactly(s: State, h: History, id: nat)
    requires Inv(s, h) && SizesBelow(s.cs, 0x8000_0000_0000_0001) && id < |s.cs| && s.cs[id].CTicket?
    ensures Disciplined(s, StepConsumer(id)) <==> ChecksItsBytes(s, h, id) && StaysBelowHead(s, id)
  {
    if s.head <= s.tail {
      TicketUpToTail(s, h, id);
    } else {
      TicketPastTail(s, h, id);
      assert h.open != [];
      HeadNotFarPastTail(s, h);
      assert s.head - s.tail + s.cs[id].n <= WORD;
      assert !ChecksItsBytes(s, h, id);
    }
    forall r | 0 <= r < |s.cs| && s.cs[r].CRewind?
      ensures Run(Word64, WordOf(s), TwoSteps(id, r)).head != (s.head + s.cs[id].n) % WORD
    {
      RewindMovesHead(s, h, id, r);
    }
  }

  /** So the first ticket of a run that breaks the hypothesis is unsafe, and no other is. */
  lemma FirstUnsafeTicket(cap: nat, buf: seq<byte>, consumers: nat, sched: seq<Action>, id: nat)
    requires Capacity(cap) && |buf| == cap && DisciplinedRun(Init(cap, buf, consumers), sched)
    requires var s := Run(Unbounded, Init(cap, buf, consumers), sched);
             id < |s.cs| && s.cs[id].CTicket? && SizesBelow(s.cs, 0x8000_0000_0000_0001)
    ensures var s := Run(Unbounded, Init(cap, buf, consumers), sched);
            var h := RecordRun(Init(cap, buf, consumers), History([], [], []), sched);
            && Run(Word64, Init(cap, buf, consumers), sched) == WordOf(s)
            && (Disciplined(s, StepConsumer(id)) <==> ChecksItsBytes(s, h, id) && StaysBelowHead(s, id))
  {
    var s0, h0 := Init(cap, buf, consumers), History([], [], []);
    InitInv(cap, buf, consumers);
    assert WordConsumers(s0.cs) == s0.cs;
    RunInv(s0, h0, sched);
    WordRun(s0, h0, sched);
    DisciplinedExactly(Run(Unbounded, s0, sched), RecordRun(s0, h0, sched), id);
  }

  // ------------------------------------------------------------- two runs that end stuck

  /** Consumer 1 waits to commit at 2 while the commit index stands at 0 and consumer 0 can only
      ever take tickets at 1. */
  predicate Stuck(t: State) {
    && t.cap > 0 && t.commit == 0 && |t.cs| == 2
    && t.cs[1].CCopy? && t.cs[1].ticket == 2 && |t.cs[1].out| >= t.cs[1].n
    && match t.cs[0]
       case CCheck(n, ticket) => ticket == 1 && t.head == (1 + n) % WORD
       case CRewind(n, ticket) => ticket == 1 && t.head == (1 + n) % WORD
       case CCopy(_, ticket, _) => ticket == 1
       case _ => t.head == 1
  }

  lemma StuckStep(t: State, a: Action)
    requires Stuck(t)
    ensures Stuck(Step(Word64, t, a)) && Step(Word64, t, a).cs[1] == t.cs[1]
  {
    if a == StepConsumer(0) && t.cs[0].CRewind? {
      WordBack(1 + t.cs[0].n, t.cs[0].n);
    }
  }

  lemma {:induction false} StuckForEver(t: State, sched: seq<Action>)
    requires Stuck(t)
    ensures Run(Word64, t, sched).commit == 0 && Run(Word64, t, sched).cs[1] == t.cs[1]
    decreases |sched|
  {
    if sched != [] {
      StuckStep(t, sched[0]);
      StuckForEver(Step(Word64, t, sched[0]), sched[1..]);
    }
  }

  /** One byte is published and the tail is 1. */
  lemma BrokenRunEnqueue()
    ensures Run(Word64, Init(4, [0, 0, 0, 0], 2), [CallEnqueue([7]), StepProducer, StepProducer, StepProducer])
         == State(4, [7, 0, 0, 0], 0, 1, 0, PDone(Ok), [CIdle, CIdle])
  {
    var s := Init(4, [0, 0, 0, 0], 2);
    assert s.cs == [CIdle, CIdle];
    assert BitAnd(0, 3) == 0;
    var s2 := s.(p := PCopy([7], 0, 0));
    assert Step(Word64, Step(Word64, s, CallEnqueue([7])), StepProducer) == s2;
    assert Step(Word64, s2, StepProducer).buf == [7, 0, 0, 0];
    RunConcat(Word64, s, [CallEnqueue([7]), StepProducer], [StepProducer, StepProducer]);
    assert [CallEnqueue([7]), StepProducer, StepProducer, StepProducer]
        == [CallEnqueue([7]), StepProducer] + [StepProducer, StepProducer];
  }

  /** Two consumers take the tickets 0..2 and 2..3; the second is taken with the head past the tail. */
  lemma BrokenRunTickets()
    ensures Run(Word64, State(4, [7, 0, 0, 0], 0, 1, 0, PDone(Ok), [CIdle, CIdle]),
                [CallDequeue(0, 2), StepConsumer(0), CallDequeue(1, 1), StepConsumer(1)])
         == State(4, [7, 0, 0, 0], 3, 1, 0, PDone(Ok), [CCheck(2, 0), CCheck(1, 2)])
  {
    var s := State(4, [7, 0, 0, 0], 0, 1, 0, PDone(Ok), [CIdle, CIdle]);
    var s2 := State(4, [7, 0, 0, 0], 2, 1, 0, PDone(Ok), [CCheck(2, 0), CIdle]);
    var s4 := State(4, [7, 0, 0, 0], 3, 1, 0, PDone(Ok), [CCheck(2, 0), CCheck(1, 2)]);
    assert Step(Word64, Step(Word64, s, CallDequeue(0, 2)), StepConsumer(0)) == s2;
    assert Step(Word64, Step(Word64, s2, CallDequeue(1, 1)), StepConsumer(1)) == s4;
    RunConcat(Word64, s, [CallDequeue(0, 2), StepConsumer(0)], [CallDequeue(1, 1), StepConsumer(1)]);
    assert [CallDequeue(0, 2), StepConsumer(0), CallDequeue(1, 1), StepConsumer(1)]
        == [CallDequeue(0, 2), StepConsumer(0)] + [CallDequeue(1, 1), StepConsumer(1)];
  }

  lemma BrokenRunChecks()
    ensures Run(Word64, State(4, [7, 0, 0, 0], 3, 1, 0, PDone(Ok), [CCheck(2, 0), CCheck(1, 2)]),
                [StepConsumer(1), StepConsumer(1), StepConsumer(0), StepConsumer(0)])
         == State(4, [7, 0, 0, 0], 1, 1, 0, PDone(Ok), [CDone(Underflow, []), CCopy(1, 2, [0])])
  {
    var s := State(4, [7, 0, 0, 0], 3, 1, 0, PDone(Ok), [CCheck(2, 0), CCheck(1, 2)]);
    var s1 := State(4, [7, 0, 0, 0], 3, 1, 0, PDone(Ok), [CCheck(2, 0), CCopy(1, 2, [])]);
    var s2 := State(4, [7, 0, 0, 0], 3, 1, 0, PDone(Ok), [CCheck(2, 0), CCopy(1, 2, [0])]);
    var s4 := State(4, [7, 0, 0, 0], 1, 1, 0, PDone(Ok), [CDone(Underflow, []), CCopy(1, 2, [0])]);
    assert Step(Word64, s, StepConsumer(1)) == s1;
    assert CopySlot(Word64, 2, 0, 4) == 2 by { assert BitAnd(2, 3) == 2; }
    assert Load(s1.buf, 2) == 0 && [] + [0 as byte] == [0];
    assert s1.cs[1 := CCopy(1, 2, [0])] == s2.cs;
    assert Step(Word64, s1, StepConsumer(1)) == s2;
    assert Step(Word64, Step(Word64, s2, StepConsumer(0)), StepConsumer(0)) == s4;
    RunConcat(Word64, s, [StepConsumer(1), StepConsumer(1)], [StepConsumer(0), StepConsumer(0)]);
    assert [StepConsumer(1), StepConsumer(1), StepConsumer(0), StepConsumer(0)]
        == [StepConsumer(1), StepConsumer(1)] + [StepConsumer(0), StepConsumer(0)];
  }

  /** A run in which a ticket is taken with the head already past the tail: the second consumer passes
      its check without data, reads a byte that was never published, and in no continuation does
      anybody ever commit again; the published byte is never delivered. */
  lemma TicketPastTailBreaks() returns (sched: seq<Action>)
    ensures var t := Run(Word64, Init(4, [0, 0, 0, 0], 2), sched);
            && t.tail == 1 && t.commit == 0 && t.cs[1] == CCopy(1, 2, [0])
            && forall later :: Run(Word64, t, later).commit == 0 && Run(Word64, t, later).cs[1] == t.cs[1]
  {
    var s0 := Init(4, [0, 0, 0, 0], 2);
    var enq := [CallEnqueue([7]), StepProducer, StepProducer, StepProducer];
    var take := [CallDequeue(0, 2), StepConsumer(0), CallDequeue(1, 1), StepConsumer(1)];
    var last := [StepConsumer(1), StepConsumer(1), StepConsumer(0), StepConsumer(0)];
    sched := enq + (take + last);
    BrokenRunEnqueue();
    BrokenRunTickets();
    BrokenRunChecks();
    RunConcat(Word64, s0, enq, take + last);
    RunConcat(Word64, Run(Word64, s0, enq), take, last);
    var t := Run(Word64, s0, sched);
    forall later ensures Run(Word64, t, later).commit == 0 && Run(Word64, t, later).cs[1] == t.cs[1] {
      StuckForEver(t, later);
    }
  }

  /** Consumer 0's check for two bytes fails; two more bytes are published before its rewind. */
  lemma RewindRunFails()
    ensures Run(Word64, State(4, [7, 0, 0, 0], 0, 1, 0, PDone(Ok), [CIdle, CIdle]),
                [CallDequeue(0, 2), StepConsumer(0), StepConsumer(0), CallEnqueue([8, 9])])
         == State(4, [7, 0, 0, 0], 2, 1, 0, PLoad([8, 9]), [CRewind(2, 0), CIdle])
  {
    var s := State(4, [7, 0, 0, 0], 0, 1, 0, PDone(Ok), [CIdle, CIdle]);
    var s2 := State(4, [7, 0, 0, 0], 2, 1, 0, PDone(Ok), [CCheck(2, 0), CIdle]);
    var s4 := State(4, [7, 0, 0, 0], 2, 1, 0, PLoad([8, 9]), [CRewind(2, 0), CIdle]);
    assert Step(Word64, Step(Word64, s, CallDequeue(0, 2)), StepConsumer(0)) == s2;
    assert Step(Word64, Step(Word64, s2, StepConsumer(0)), CallEnqueue([8, 9])) == s4;
    RunConcat(Word64, s, [CallDequeue(0, 2), StepConsumer(0)], [StepConsumer(0), CallEnqueue([8, 9])]);
    assert [CallDequeue(0, 2), StepConsumer(0), StepConsumer(0), CallEnqueue([8, 9])]
        == [CallDequeue(0, 2), StepConsumer(0)] + [StepConsumer(0), CallEnqueue([8, 9])];
  }

  lemma RewindRunPublishes()
    ensures Run(Word64, State(4, [7, 0, 0, 0], 2, 1, 0, PLoad([8, 9]), [CRewind(2, 0), CIdle]),
                [StepProducer, StepProducer, StepProducer, StepProducer])
         == State(4, [7, 8, 9, 0], 2, 3, 0, PDone(Ok), [CRewind(2, 0), CIdle])
  {
    var s := State(4, [7, 0, 0, 0], 2, 1, 0, PLoad([8, 9]), [CRewind(2, 0), CIdle]);
    var s2 := State(4, [7, 8, 0, 0], 2, 1, 0, PCopy([8, 9], 1, 1), [CRewind(2, 0), CIdle]);
    var s4 := State(4, [7, 8, 9, 0], 2, 3, 0, PDone(Ok), [CRewind(2, 0), CIdle]);
    assert BitAnd(1, 3) == 1;
    assert [7 as byte, 0, 0, 0][1 := 8] == [7, 8, 0, 0] && [7 as byte, 8, 0, 0][2 := 9] == [7, 8, 9, 0];
    assert Step(Word64, Step(Word64, s, StepProducer), StepProducer) == s2;
    assert Step(Word64, Step(Word64, s2, StepProducer), StepProducer) == s4;
    RunConcat(Word64, s, [StepProducer, StepProducer], [StepProducer, StepProducer]);
    assert [StepProducer, StepProducer, StepProducer, StepProducer]
        == [StepProducer, StepProducer] + [StepProducer, StepProducer];
  }

  /** Consumer 1 takes the ticket 2..3, whose byte is published, before consumer 0's rewind. */
  lemma RewindRunTakes()
    ensures Run(Word64, State(4, [7, 8, 9, 0], 2, 3, 0, PDone(Ok), [CRewind(2, 0), CIdle]),
                [CallDequeue(1, 1), StepConsumer(1), StepConsumer(1), StepConsumer(1), StepConsumer(0)])
         == State(4, [7, 8, 9, 0], 1, 3, 0, PDone(Ok), [CDone(Underflow, []), CCopy(1, 2, [9])])
  {
    var s := State(4, [7, 8, 9, 0], 2, 3, 0, PDone(Ok), [CRewind(2, 0), CIdle]);
    var s2 := State(4, [7, 8, 9, 0], 3, 3, 0, PDone(Ok), [CRewind(2, 0), CCheck(1, 2)]);
    var s3 := State(4, [7, 8, 9, 0], 3, 3, 0, PDone(Ok), [CRewind(2, 0), CCopy(1, 2, [])]);
    var s4 := State(4, [7, 8, 9, 0], 3, 3, 0, PDone(Ok), [CRewind(2, 0), CCopy(1, 2, [9])]);
    var s5 := State(4, [7, 8, 9, 0], 1, 3, 0, PDone(Ok), [CDone(Underflow, []), CCopy(1, 2, [9])]);
    assert Step(Word64, Step(Word64, s, CallDequeue(1, 1)), StepConsumer(1)) == s2;
    assert Step(Word64, s2, StepConsumer(1)) == s3;
    assert CopySlot(Word64, 2, 0, 4) == 2 by { assert BitAnd(2, 3) == 2; }
    assert Load(s3.buf, 2) == 9 && [] + [9 as byte] == [9];
    assert s3.cs[1 := CCopy(1, 2, [9])] == s4.cs;
    assert Step(Word64, s3, StepConsumer(1)) == s4;
    assert Step(Word64, s4, StepConsumer(0)) == s5;
    var first, last := [CallDequeue(1, 1), StepConsumer(1), StepConsumer(1)], [StepConsumer(1), StepConsumer(0)];
    RunConcat(Word64, s, [CallDequeue(1, 1), StepConsumer(1)], [StepConsumer(1)]);
    assert first == [CallDequeue(1, 1), StepConsumer(1)] + [StepConsumer(1)];
    RunConcat(Word64, s, first, last);
    assert first + last == [CallDequeue(1, 1), StepConsumer(1), StepConsumer(1), StepConsumer(1), StepConsumer(0)];
  }

  /** A run in which every ticket is taken at or before the tail, but one of them before another
      consumer's rewind: it reads its own published byte, and in no continuation does anybody ever
      commit; no published byte is ever delivered. */
  lemma TicketBeforeRewindBreaks() returns (sched: seq<Action>)
    ensures var t := Run(Word64, Init(4, [0, 0, 0, 0], 2), sched);
            && t.tail == 3 && t.commit == 0 && t.cs[1] == CCopy(1, 2, [9])
            && forall later :: Run(Word64, t, later).commit == 0 && Run(Word64, t, later).cs[1] == t.cs[1]
  {
    var s0 := Init(4, [0, 0, 0, 0], 2);
    var enq := [CallEnqueue([7]), StepProducer, StepProducer, StepProducer];
    var fail := [CallDequeue(0, 2), StepConsumer(0), StepConsumer(0), CallEnqueue([8, 9])];
    var publish := [StepProducer, StepProducer, StepProducer, StepProducer];
    var take := [CallDequeue(1, 1), StepConsumer(1), StepConsumer(1), StepConsumer(1), StepConsumer(0)];
    sched := enq + (fail + (publish + take));
    BrokenRunEnqueue();
    RewindRunFails();
    RewindRunPublishes();
    RewindRunTakes();
    RunConcat(Word64, s0, enq, fail + (publish + take));
    RunConcat(Word64, Run(Word64, s0, enq), fail, publish + take);
    RunConcat(Word64, Run(Word64, Run(Word64, s0, enq), fail), publish, take);
    var t := Run(Word64, s0, sched);
    forall later ensures Run(Word64, t, later).commit == 0 && Run(Word64, t, later).cs[1] == t.cs[1] {
      StuckForEver(t, later);
    }
  }
}
