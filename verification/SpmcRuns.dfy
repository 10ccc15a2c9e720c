/** Whole runs of the ticket queue: exactly-once delivery and progress of the commit spin. */
module SpmcRuns {
  import opened Bits
  import opened Ring
  import opened SpmcMachine

  function Run(w: Width, s: State, sched: seq<Action>): (t: State)
    requires s.cap > 0
    ensures t.cap == s.cap && |t.cs| == |s.cs|
    decreases |sched|
  {
    if sched == [] then s else Run(w, Step(w, s, sched[0]), sched[1..])
  }

  function RecordRun(s: State, h: History, sched: seq<Action>): History
    requires s.cap > 0
    decreases |sched|
  {
    if sched == [] then h else RecordRun(Step(Unbounded, s, sched[0]), Record(s, h, sched[0]), sched[1..])
  }

  predicate DisciplinedRun(s: State, sched: seq<Action>)
    requires s.cap > 0
    decreases |sched|
  {
    sched == [] || (Disciplined(s, sched[0]) && DisciplinedRun(Step(Unbounded, s, sched[0]), sched[1..]))
  }

  lemma {:induction false} RunInv(s: State, h: History, sched: seq<Action>)
    requires Inv(s, h) && DisciplinedRun(s, sched)
    ensures Inv(Run(Unbounded, s, sched), RecordRun(s, h, sched))
    decreases |sched|
  {
    if sched != [] {
      StepInv(s, h, sched[0]);
      RunInv(Step(Unbounded, s, sched[0]), Record(s, h, sched[0]), sched[1..]);
    }
  }

  lemma {:induction false} RunConcat(w: Width, s: State, a: seq<Action>, b: seq<Action>)
    requires s.cap > 0
    ensures Run(w, s, a + b) == Run(w, Run(w, s, a), b)
    decreases |a|
  {
    if a == [] {
      assert a + b == b;
    } else {
      assert (a + b)[0] == a[0] && (a + b)[1..] == a[1..] + b;
      RunConcat(w, Step(w, s, a[0]), a[1..], b);
    }
  }

  lemma {:induction false} DisciplinedConcat(s: State, a: seq<Action>, b: seq<Action>)
    requires s.cap > 0 && DisciplinedRun(s, a) && DisciplinedRun(Run(Unbounded, s, a), b)
    ensures DisciplinedRun(s, a + b)
    decreases |a|
  {
    if a == [] {
      assert a + b == b;
    } else {
      assert (a + b)[0] == a[0] && (a + b)[1..] == a[1..] + b;
      DisciplinedConcat(Step(Unbounded, s, a[0]), a[1..], b);
    }
  }

  // ------------------------------------------------------------ exactly-once delivery

  /** In a log that follows the tickets, each delivery is the stream from its ticket on, and the
      next one starts where it ends. */
  lemma {:induction false} LogPartition(log: seq<Delivery>, i: nat)
    requires InTicketOrder(log) && i < |log|
    ensures 0 < |log[i].bytes| && log[i].ticket + |log[i].bytes| <= |Delivered(log)|
    ensures Delivered(log)[log[i].ticket..log[i].ticket + |log[i].bytes|] == log[i].bytes
    ensures i + 1 < |log| ==> log[i + 1].ticket == log[i].ticket + |log[i].bytes|
    ensures i == 0 ==> log[i].ticket == 0
    ensures i + 1 == |log| ==> log[i].ticket + |log[i].bytes| == |Delivered(log)|
    decreases |log|
  {
    var front := log[..|log| - 1];
    if i + 1 < |log| {
      LogPartition(front, i);
      assert front[i] == log[i];
      assert Delivered(log)[..|Delivered(front)|] == Delivered(front);
    } else if i > 0 {
      assert front != [];
    }
  }

  /** The `i`-th delivery is the published bytes from its ticket up to the next ticket, or up to
      the commit index if it is the last; the first one starts the stream. */
  ghost predicate DeliveredOnce(s: State, h: History, i: nat)
    requires i < |h.log|
  {
    var d := h.log[i];
    && 0 < |d.bytes| && d.ticket + |d.bytes| <= s.commit <= |h.stream|
    && d.bytes == h.stream[d.ticket..d.ticket + |d.bytes|]
    && (i == 0 ==> d.ticket == 0)
    && (if i + 1 < |h.log| then h.log[i + 1].ticket else s.commit) == d.ticket + |d.bytes|
  }

  lemma InvDeliversOnce(s: State, h: History, i: nat)
    requires Inv(s, h) && i < |h.log|
    ensures DeliveredOnce(s, h, i)
  {
    LogPartition(h.log, i);
    var d := h.log[i];
    assert Delivered(h.log)[d.ticket..d.ticket + |d.bytes|] == h.stream[d.ticket..d.ticket + |d.bytes|];
  }

  /** Exactly-once delivery in every disciplined run: the committed dequeues tile the published
      stream from its start to the commit index, and published bytes not yet committed are still
      in the ring. */
  lemma ExactlyOnce(cap: nat, buf: seq<byte>, consumers: nat, sched: seq<Action>)
    requires Capacity(cap) && |buf| == cap && DisciplinedRun(Init(cap, buf, consumers), sched)
    ensures var s := Run(Unbounded, Init(cap, buf, consumers), sched);
            var h := RecordRun(Init(cap, buf, consumers), History([], [], []), sched);
            && Inv(s, h)
            && Delivered(h.log) == h.stream[..s.commit]
            && (forall i :: 0 <= i < |h.log| ==> DeliveredOnce(s, h, i))
            && s.commit <= s.tail == |h.stream| <= s.commit + cap
            && Holds(s.buf, cap, s.commit, h.stream[s.commit..])
  {
    var s0, h0 := Init(cap, buf, consumers), History([], [], []);
    InitInv(cap, buf, consumers);
    RunInv(s0, h0, sched);
    var s, h := Run(Unbounded, s0, sched), RecordRun(s0, h0, sched);
    forall i | 0 <= i < |h.log| ensures DeliveredOnce(s, h, i) {
      InvDeliversOnce(s, h, i);
    }
    UncommittedKept(s, h);
  }

  lemma UncommittedKept(s: State, h: History)
    requires Inv(s, h)
    ensures s.tail <= s.commit + s.cap && Holds(s.buf, s.cap, s.commit, h.stream[s.commit..])
  {
    var held := h.stream[s.commit..] + Pending(s.p);
    forall i | 0 <= i < |h.stream[s.commit..]|
      ensures Load(s.buf, Slot(s.commit + i, s.cap)) == h.stream[s.commit..][i]
    {
      assert held[i] == h.stream[s.commit..][i];
    }
  }

  /** The step is the successful compare-and-swap of consumer `id`. */
  predicate Commits(s: State, a: Action, id: nat) {
    && a == StepConsumer(id) && id < |s.cs| && s.cs[id].CCopy?
    && |s.cs[id].out| >= s.cs[id].n && s.commit == s.cs[id].ticket
  }

  lemma DoneMoves(s: State, a: Action, id: nat, out: seq<byte>)
    requires s.cap > 0 && id < |s.cs| && IsOpen(s.cs[id])
    ensures Step(Unbounded, s, a).cs[id] == CDone(Ok, out) <==> Commits(s, a, id) && s.cs[id].out == out
  {
  }

  lemma LogMoves(s: State, h: History, a: Action)
    requires s.cap > 0 && h.open != []
    ensures Record(s, h, a).log ==
      if a.StepConsumer? && Commits(s, a, a.id)
      then h.log + [Delivery(a.id, s.cs[a.id].ticket, s.cs[a.id].out)] else h.log
  {
  }

  lemma SameAppended<T>(xs: seq<T>, a: T, b: T)
    ensures xs + [a] == xs + [b] <==> a == b
    ensures xs + [a] != xs
  {
    assert (xs + [a])[|xs|] == a && (xs + [b])[|xs|] == b;
    assert |xs + [a]| != |xs|;
  }

  /** A dequeue call returns `kOk` with `out` at exactly the step that logs `out` for it. */
  lemma ReturnIsLogged(s: State, h: History, a: Action, id: nat, out: seq<byte>)
    requires Inv(s, h) && id < |s.cs| && IsOpen(s.cs[id])
    ensures var t, g := Step(Unbounded, s, a), Record(s, h, a);
            t.cs[id] == CDone(Ok, out) <==> g.log == h.log + [Delivery(id, s.cs[id].ticket, out)]
  {
    TicketAfterCommit(s, h, id);
    DoneMoves(s, a, id, out);
    LogMoves(s, h, a);
    var d := Delivery(id, s.cs[id].ticket, out);
    if a.StepConsumer? && Commits(s, a, a.id) {
      SameAppended(h.log, d, Delivery(a.id, s.cs[a.id].ticket, s.cs[a.id].out));
    } else {
      SameAppended(h.log, d, d);
    }
  }

  /** The stream grows by exactly the data of an enqueue at exactly the step it returns `kOk`. */
  lemma PublishIsRecorded(s: State, h: History, a: Action)
    requires RingOk(s, h.stream)
    ensures var t, g := Step(Unbounded, s, a), Record(s, h, a);
            g.stream == if s.p.PCopy? && t.p == PDone(Ok) then h.stream + s.p.data else h.stream
  {
  }

  // ----------------------------------------------------------------- commit progress

  /** How many of its own steps the consumer needs to commit once its turn has come. */
  function Remaining(c: Consumer): nat
    requires IsOpen(c)
  {
    match c
    case CCheck(n, _) => n + 2
    case CCopy(n, _, out) => if |out| < n then n - |out| + 1 else 1
    case CRewind(_, _) => 0
  }

  function Solo(id: nat, k: nat): seq<Action> {
    seq(k, _ => StepConsumer(id))
  }

  /** The oldest ticket belongs to a consumer that has data to copy. */
  ghost predicate OldestReady(s: State, h: History) {
    && Inv(s, h) && h.open != []
    && (var c := s.cs[h.open[0]]; c.CCopy? || (c.CCheck? && End(c) <= s.tail))
  }

  /** While any consumer is past its check, the holder of ticket == commit exists and is ready. */
  lemma PassedMeansReady(s: State, h: History, id: nat)
    requires Inv(s, h) && id < |s.cs| && s.cs[id].CCopy?
    ensures OldestReady(s, h) && s.cs[h.open[0]].ticket == s.commit
  {
    var k := OpenIndex(s.cs, h.open, id);
    assert TicketOk(s.cs[h.open[0]], s.tail, h.stream);
  }

  /** Once its copy has ended, the oldest ticket's compare-and-swap is enabled. */
  lemma CommitEnabled(s: State, h: History)
    requires OldestReady(s, h) && s.cs[h.open[0]].CCopy? && |s.cs[h.open[0]].out| == s.cs[h.open[0]].n
    ensures var id := h.open[0];
            var t := Step(Unbounded, s, StepConsumer(id));
            t.commit == End(s.cs[id]) > s.commit && t.cs[id] == CDone(Ok, s.cs[id].out)
  {
  }

  lemma CopyOrCheckStep(s: State, h: History, id: nat)
    requires s.cap > 0 && id < |s.cs|
    requires (s.cs[id].CCheck? && End(s.cs[id]) <= s.tail) || (s.cs[id].CCopy? && |s.cs[id].out| < s.cs[id].n)
    ensures var t := Step(Unbounded, s, StepConsumer(id));
            && Record(s, h, StepConsumer(id)) == h && t.cs[id].CCopy?
            && Remaining(t.cs[id]) == Remaining(s.cs[id]) - 1 && End(t.cs[id]) == End(s.cs[id])
            && (forall j :: 0 <= j < |s.cs| && j != id ==> t.cs[j] == s.cs[j])
  {
  }

  /** A step of the oldest ticket's consumer brings it one step closer to its commit. */
  lemma SoloStep(s: State, h: History)
    requires OldestReady(s, h) && Remaining(s.cs[h.open[0]]) > 1
    ensures var id := h.open[0];
            var t := Step(Unbounded, s, StepConsumer(id));
            && Record(s, h, StepConsumer(id)) == h && OldestReady(t, h)
            && Remaining(t.cs[id]) == Remaining(s.cs[id]) - 1 && End(t.cs[id]) == End(s.cs[id])
            && (forall j :: 0 <= j < |s.cs| && j != id ==> t.cs[j] == s.cs[j])
  {
    var id := h.open[0];
    TicketAfterCommit(s, h, id);
    CopyOrCheckStep(s, h, id);
    ConsumerInv(s, h, id);
  }

  lemma SoloLast(s: State, h: History)
    requires OldestReady(s, h) && Remaining(s.cs[h.open[0]]) == 1
    ensures var id := h.open[0];
            var t, g := Step(Unbounded, s, StepConsumer(id)), Record(s, h, StepConsumer(id));
            && Inv(t, g) && g.open == h.open[1..] && g.stream == h.stream
            && t.commit == End(s.cs[id]) && End(s.cs[id]) <= |h.stream|
            && t.cs[id] == CDone(Ok, h.stream[s.cs[id].ticket..End(s.cs[id])])
            && (forall j :: 0 <= j < |s.cs| && j != id ==> t.cs[j] == s.cs[j])
  {
    var id := h.open[0];
    TicketAfterCommit(s, h, id);
    ConsumerInv(s, h, id);
  }

  lemma {:induction false} SoloCommits(s: State, h: History)
    requires OldestReady(s, h)
    ensures DisciplinedRun(s, Solo(h.open[0], Remaining(s.cs[h.open[0]])))
    ensures var id := h.open[0];
            var sched := Solo(id, Remaining(s.cs[id]));
            var t, g := Run(Unbounded, s, sched), RecordRun(s, h, sched);
            && Inv(t, g) && g.open == h.open[1..] && g.stream == h.stream
            && t.commit == End(s.cs[id]) && End(s.cs[id]) <= |h.stream|
            && t.cs[id] == CDone(Ok, h.stream[s.cs[id].ticket..End(s.cs[id])])
            && (forall j :: 0 <= j < |s.cs| && j != id ==> t.cs[j] == s.cs[j])
    decreases Remaining(s.cs[h.open[0]])
  {
    var id := h.open[0];
    var r := Remaining(s.cs[id]);
    assert Solo(id, r)[0] == StepConsumer(id) && Solo(id, r)[1..] == Solo(id, r - 1);
    if r == 1 {
      SoloLast(s, h);
      assert Solo(id, 0) == [];
    } else {
      SoloStep(s, h);
      SoloCommits(Step(Unbounded, s, StepConsumer(id)), h);
    }
  }

  /** The spin cannot deadlock: from every state with a consumer past its check, some steps of
      ticket holders alone complete that consumer's dequeue, with exactly its bytes. */
  lemma {:induction false} SpinEnds(s: State, h: History, id: nat) returns (sched: seq<Action>)
    requires Inv(s, h) && id < |s.cs| && s.cs[id].CCopy?
    ensures DisciplinedRun(s, sched) && forall a :: a in sched ==> a.StepConsumer? && a.id in h.open
    ensures var t := Run(Unbounded, s, sched);
            && t.commit == End(s.cs[id]) && End(s.cs[id]) <= |h.stream|
            && t.cs[id] == CDone(Ok, h.stream[s.cs[id].ticket..End(s.cs[id])])
    decreases |h.open|
  {
    PassedMeansReady(s, h, id);
    SoloCommits(s, h);
    var first := h.open[0];
    var solo := Solo(first, Remaining(s.cs[first]));
    if first == id {
      sched := solo;
    } else {
      var t, g := Run(Unbounded, s, solo), RecordRun(s, h, solo);
      var rest := SpinEnds(t, g, id);
      sched := solo + rest;
      RunConcat(Unbounded, s, solo, rest);
      DisciplinedConcat(s, solo, rest);
    }
  }
}
