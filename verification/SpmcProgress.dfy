/** The commit spin ends under every schedule: a measure of the work of the ticket holders that no
    step increases and that every step of the oldest one decreases. */
module SpmcProgress {
  import opened Bits
  import opened Ring
  import opened SpmcMachine
  import opened SpmcRuns
  import opened SpmcWord

  // ------------------------------------------------------------------------ the measure

  /** The open tickets up to and including that of `id`. */
  function UpTo(open: seq<nat>, id: nat): seq<nat> {
    if open == [] then []
    else if open[0] == id then [id]
    else [open[0]] + UpTo(open[1..], id)
  }

  ghost predicate AllOpen(cs: seq<Consumer>, ids: seq<nat>) {
    forall k :: 0 <= k < |ids| ==> ids[k] < |cs| && IsOpen(cs[ids[k]])
  }

  /** The steps these consumers still have to make. */
  ghost function Work(cs: seq<Consumer>, ids: seq<nat>): nat
    requires AllOpen(cs, ids)
  {
    if ids == [] then 0 else Remaining(cs[ids[0]]) + Work(cs, ids[1..])
  }

  lemma {:induction false} UpToMembers(open: seq<nat>, id: nat, k: nat)
    requires k < |UpTo(open, id)|
    ensures UpTo(open, id)[k] in open
  {
    if open[0] != id && k > 0 {
      UpToMembers(open[1..], id, k - 1);
    }
  }

  lemma UpToOpen(cs: seq<Consumer>, open: seq<nat>, id: nat)
    requires OpenIds(cs, open)
    ensures AllOpen(cs, UpTo(open, id))
  {
    forall k | 0 <= k < |UpTo(open, id)| ensures UpTo(open, id)[k] < |cs| && IsOpen(cs[UpTo(open, id)[k]]) {
      UpToMembers(open, id, k);
    }
  }

  /** Tickets taken later do not matter. */
  lemma {:induction false} UpToAppend(open: seq<nat>, id: nat, later: nat)
    requires id in open
    ensures UpTo(open + [later], id) == UpTo(open, id)
  {
    if open[0] != id {
      assert (open + [later])[1..] == open[1..] + [later];
      UpToAppend(open[1..], id, later);
    }
  }

  ghost function Measure(s: State, h: History, id: nat): nat
    requires OpenIds(s.cs, h.open)
  {
    UpToOpen(s.cs, h.open, id);
    Work(s.cs, UpTo(h.open, id))
  }

  lemma {:induction false} WorkFrame(cs: seq<Consumer>, ids: seq<nat>, j: nat, c: Consumer)
    requires AllOpen(cs, ids) && j < |cs| && j !in ids
    ensures AllOpen(cs[j := c], ids) && Work(cs[j := c], ids) == Work(cs, ids)
  {
    if ids != [] {
      WorkFrame(cs, ids[1..], j, c);
    }
  }

  lemma {:induction false} WorkDecreases(cs: seq<Consumer>, ids: seq<nat>, j: nat, c: Consumer)
    requires AllOpen(cs, ids) && j < |cs| && IsOpen(cs[j]) && IsOpen(c) && Remaining(c) < Remaining(cs[j])
    ensures AllOpen(cs[j := c], ids) && Work(cs[j := c], ids) <= Work(cs, ids)
    ensures ids != [] && ids[0] == j ==> Work(cs[j := c], ids) < Work(cs, ids)
  {
    if ids != [] {
      WorkDecreases(cs, ids[1..], j, c);
    }
  }

  // ----------------------------------------------------------------------- every step

  /** The step commits `id`, or brings its commit nearer if the oldest ticket's holder makes it, and
      never puts it off. */
  ghost predicate Nearer(s: State, h: History, a: Action, id: nat)
    requires s.cap > 0 && id < |s.cs| && s.cs[id].CCopy? && OpenIds(s.cs, h.open)
  {
    var t, g := Step(Unbounded, s, a), Record(s, h, a);
    || t.cs[id] == CDone(Ok, s.cs[id].out)
    || (&& t.cs[id].CCopy? && OpenIds(t.cs, g.open) && Measure(t, g, id) <= Measure(s, h, id)
        && (h.open != [] && a == StepConsumer(h.open[0]) ==> Measure(t, g, id) < Measure(s, h, id)))
  }

  lemma IdIsOpen(s: State, h: History, id: nat)
    requires Inv(s, h) && id < |s.cs| && s.cs[id].CCopy?
    ensures h.open != [] && id in h.open && !s.cs[h.open[0]].CRewind?
  {
    var k := OpenIndex(s.cs, h.open, id);
    assert h.open[0] != id ==> 0 < |h.open| - 1;
  }

  /** A consumer outside these tickets changes state. */
  lemma OutsideWork(cs: seq<Consumer>, open: seq<nat>, id: nat, j: nat, c: Consumer)
    requires AllOpen(cs, UpTo(open, id)) && j < |cs| && j !in open
    ensures AllOpen(cs[j := c], UpTo(open, id))
    ensures Work(cs[j := c], UpTo(open, id)) == Work(cs, UpTo(open, id))
  {
    var ids := UpTo(open, id);
    forall k | 0 <= k < |ids| ensures ids[k] != j {
      UpToMembers(open, id, k);
    }
    assert j !in ids;
    WorkFrame(cs, ids, j, c);
  }

  lemma TicketNearer(s: State, h: History, id: nat, j: nat)
    requires Inv(s, h) && id < |s.cs| && s.cs[id].CCopy? && j < |s.cs| && s.cs[j].CTicket?
    requires Disciplined(s, StepConsumer(j))
    ensures Nearer(s, h, StepConsumer(j), id)
  {
    var c := CCheck(s.cs[j].n, s.head);
    IdIsOpen(s, h, id);
    TakeTicketIds(s.cs, h.open, j, c);
    UpToAppend(h.open, id, j);
    UpToOpen(s.cs, h.open, id);
    OutsideWork(s.cs, h.open, id, j, c);
  }

  lemma RewindNearer(s: State, h: History, id: nat, j: nat)
    requires Inv(s, h) && id < |s.cs| && s.cs[id].CCopy? && j < |s.cs| && s.cs[j].CRewind?
    ensures Nearer(s, h, StepConsumer(j), id)
  {
    IdIsOpen(s, h, id);
    Rewind(s, h, j);
    RewindMoves(s, h, j);
    var front := h.open[..|h.open| - 1];
    DropLast(h.open, id);
    UpToAppend(front, id, j);
    UpToOpen(s.cs, h.open, id);
    OutsideWork(s.cs, front, id, j, CDone(Underflow, []));
  }

  lemma RewindMoves(s: State, h: History, j: nat)
    requires s.cap > 0 && j < |s.cs| && s.cs[j].CRewind? && h.open != []
    ensures Step(Unbounded, s, StepConsumer(j)).cs == s.cs[j := CDone(Underflow, [])]
    ensures Record(s, h, StepConsumer(j)).open == h.open[..|h.open| - 1]
  {
  }

  lemma DropLast(open: seq<nat>, id: nat)
    requires open != [] && id in open && open[|open| - 1] != id
    requires forall j, k :: 0 <= j < k < |open| ==> open[j] != open[k]
    ensures var front, last := open[..|open| - 1], open[|open| - 1];
            open == front + [last] && id in front && last !in front
  {
  }

  /** A check or the copy of a byte. */
  lemma CopyNearer(s: State, h: History, id: nat, j: nat, c: Consumer)
    requires Inv(s, h) && id < |s.cs| && s.cs[id].CCopy? && j < |s.cs| && IsOpen(s.cs[j]) && IsOpen(c)
    requires Remaining(c) < Remaining(s.cs[j]) && (j == id ==> c.CCopy?)
    requires ConsumerStep(Unbounded, s, j) == s.(cs := s.cs[j := c]) && Record(s, h, StepConsumer(j)) == h
    ensures Nearer(s, h, StepConsumer(j), id)
  {
    IdIsOpen(s, h, id);
    UpToOpen(s.cs, h.open, id);
    ConsumerInvOpen(s.cs, h.open, j, c);
    WorkDecreases(s.cs, UpTo(h.open, id), j, c);
  }

  lemma ConsumerInvOpen(cs: seq<Consumer>, open: seq<nat>, j: nat, c: Consumer)
    requires OpenIds(cs, open) && j < |cs| && IsOpen(cs[j]) && IsOpen(c)
    ensures OpenIds(cs[j := c], open)
  {
    forall i | 0 <= i < |cs| && IsOpen(cs[j := c][i]) ensures i in open {
      assert IsOpen(cs[i]);
    }
  }

  lemma CommitNearer(s: State, h: History, id: nat, j: nat)
    requires Inv(s, h) && id < |s.cs| && s.cs[id].CCopy? && j < |s.cs| && s.cs[j].CCopy?
    requires |s.cs[j].out| >= s.cs[j].n && s.commit == s.cs[j].ticket
    ensures Nearer(s, h, StepConsumer(j), id)
  {
    IdIsOpen(s, h, id);
    TicketAfterCommit(s, h, j);
    if j != id {
      DropFirst(h.open, id);
      UpToOpen(s.cs, h.open, id);
      OutsideWork(s.cs, h.open[1..], id, j, CDone(Ok, s.cs[j].out));
      ConsumerInv(s, h, j);
      CommitMoves(s, h, j);
    }
  }

  /** What the commit of the oldest ticket changes. */
  lemma CommitMoves(s: State, h: History, j: nat)
    requires s.cap > 0 && Commits(s, StepConsumer(j), j) && h.open != []
    ensures Step(Unbounded, s, StepConsumer(j)).cs == s.cs[j := CDone(Ok, s.cs[j].out)]
    ensures Record(s, h, StepConsumer(j)).open == h.open[1..]
  {
  }

  lemma DropFirst(open: seq<nat>, id: nat)
    requires open != [] && open[0] != id
    requires forall j, k :: 0 <= j < k < |open| ==> open[j] != open[k]
    ensures UpTo(open, id) == [open[0]] + UpTo(open[1..], id) && UpTo(open, id)[1..] == UpTo(open[1..], id)
    ensures open[0] !in open[1..]
  {
  }

  lemma ConsumerNearer(s: State, h: History, id: nat, j: nat)
    requires Inv(s, h) && id < |s.cs| && s.cs[id].CCopy? && j < |s.cs| && Disciplined(s, StepConsumer(j))
    ensures Nearer(s, h, StepConsumer(j), id)
  {
    IdIsOpen(s, h, id);
    match s.cs[j] {
      case CTicket(_) => TicketNearer(s, h, id, j);
      case CRewind(_, _) => RewindNearer(s, h, id, j);
      case CCheck(n, ticket) => CopyNearer(s, h, id, j, ConsumerStep(Unbounded, s, j).cs[j]);
      case CCopy(n, ticket, out) =>
        if |out| < n {
          CopyNearer(s, h, id, j, ConsumerStep(Unbounded, s, j).cs[j]);
        } else if s.commit == ticket {
          CommitNearer(s, h, id, j);
        } else {
          TicketAfterCommit(s, h, j);
        }
      case _ =>
    }
  }

  lemma CallNearer(s: State, h: History, id: nat, j: nat, n: nat)
    requires Inv(s, h) && id < |s.cs| && s.cs[id].CCopy?
    ensures Nearer(s, h, CallDequeue(j, n), id)
  {
    if j < |s.cs| && (s.cs[j].CIdle? || s.cs[j].CDone?) {
      var c := if n == 0 then CDone(SizeIsZero, []) else CTicket(n);
      UpToOpen(s.cs, h.open, id);
      CallDequeueInv(s, h, j, n);
      OutsideWork(s.cs, h.open, id, j, c);
      assert Step(Unbounded, s, CallDequeue(j, n)).cs == s.cs[j := c];
    }
  }

  lemma ProducerNearer(s: State, h: History, id: nat, a: Action)
    requires Inv(s, h) && id < |s.cs| && s.cs[id].CCopy? && (a.StepProducer? || a.CallEnqueue?)
    ensures Nearer(s, h, a, id)
  {
    assert Step(Unbounded, s, a).cs == s.cs && Record(s, h, a).open == h.open;
  }

  lemma StepNearer(s: State, h: History, id: nat, a: Action)
    requires Inv(s, h) && id < |s.cs| && s.cs[id].CCopy? && Disciplined(s, a)
    ensures Nearer(s, h, a, id)
  {
    match a {
      case StepConsumer(j) => if j < |s.cs| { ConsumerNearer(s, h, id, j); } else { IdIsOpen(s, h, id); }
      case CallDequeue(j, n) => CallNearer(s, h, id, j, n);
      case _ => ProducerNearer(s, h, id, a);
    }
  }

  // ------------------------------------------------------------------- every schedule

  /** How many steps of the schedule are made by whoever holds the oldest ticket at that moment. */
  function Turns(s: State, h: History, sched: seq<Action>): nat
    requires s.cap > 0
    decreases |sched|
  {
    if sched == [] then 0
    else (if h.open != [] && sched[0] == StepConsumer(h.open[0]) then 1 else 0)
         + Turns(Step(Unbounded, s, sched[0]), Record(s, h, sched[0]), sched[1..])
  }

  lemma {:induction false} MeasurePositive(cs: seq<Consumer>, open: seq<nat>, id: nat)
    requires OpenIds(cs, open) && id in open && cs[id].CCopy?
    ensures AllOpen(cs, UpTo(open, id)) && Work(cs, UpTo(open, id)) > 0
  {
    UpToOpen(cs, open, id);
    WorkPositive(cs, open, id);
  }

  lemma {:induction false} WorkPositive(cs: seq<Consumer>, open: seq<nat>, id: nat)
    requires id in open && id < |cs| && cs[id].CCopy? && AllOpen(cs, UpTo(open, id))
    ensures Work(cs, UpTo(open, id)) > 0
    decreases |open|
  {
    if open[0] != id {
      assert UpTo(open, id)[1..] == UpTo(open[1..], id);
      WorkPositive(cs, open[1..], id);
    }
  }

  lemma FirstStep(s: State, a: Action, rest: seq<Action>)
    requires s.cap > 0 && Disciplined(s, a) && DisciplinedRun(Step(Unbounded, s, a), rest)
    ensures DisciplinedRun(s, [a] + rest)
    ensures Run(Unbounded, s, [a] + rest) == Run(Unbounded, Step(Unbounded, s, a), rest)
  {
    assert ([a] + rest)[1..] == rest;
  }

  lemma PrefixGrows(sched: seq<Action>, rest: seq<Action>)
    requires sched != [] && rest <= sched[1..]
    ensures [sched[0]] + rest <= sched
  {
  }

  /** The consumer is past its check, and `bytes` is the part of the stream that its ticket names. */
  ghost predicate Fetches(s: State, h: History, id: nat, bytes: seq<byte>) {
    && id < |s.cs| && s.cs[id].CCopy? && End(s.cs[id]) <= |h.stream|
    && bytes == h.stream[s.cs[id].ticket..End(s.cs[id])]
  }

  lemma StillFetches(s: State, h: History, id: nat, a: Action, bytes: seq<byte>)
    requires s.cap > 0 && Fetches(s, h, id, bytes) && Step(Unbounded, s, a).cs[id].CCopy?
    ensures Fetches(Step(Unbounded, s, a), Record(s, h, a), id, bytes)
  {
    var g := Record(s, h, a);
    assert g.stream[..|h.stream|] == h.stream;
  }

  lemma Fetched(s: State, h: History, id: nat, a: Action, bytes: seq<byte>)
    requires Inv(s, h) && Fetches(s, h, id, bytes) && Step(Unbounded, s, a).cs[id] == CDone(Ok, s.cs[id].out)
    ensures s.cs[id].out == bytes
  {
    TicketAfterCommit(s, h, id);
    DoneMoves(s, a, id, s.cs[id].out);
  }

  /** Under every disciplined schedule that gives the oldest ticket's holder enough turns, whoever
      the scheduler favours otherwise, a consumer past its check has returned its bytes after some prefix. */
  lemma {:induction false} EveryScheduleCommits(s: State, h: History, id: nat, sched: seq<Action>, bytes: seq<byte>)
      returns (prefix: seq<Action>)
    requires Inv(s, h) && Fetches(s, h, id, bytes) && DisciplinedRun(s, sched)
    requires Turns(s, h, sched) >= Measure(s, h, id)
    ensures prefix <= sched && DisciplinedRun(s, prefix)
    ensures Run(Unbounded, s, prefix).cs[id] == CDone(Ok, bytes)
    decreases |sched|
  {
    IdIsOpen(s, h, id);
    MeasurePositive(s.cs, h.open, id);
    var t, g := Step(Unbounded, s, sched[0]), Record(s, h, sched[0]);
    StepNearer(s, h, id, sched[0]);
    StepInv(s, h, sched[0]);
    if t.cs[id].CCopy? {
      StillFetches(s, h, id, sched[0], bytes);
      prefix := EveryScheduleCommits(t, g, id, sched[1..], bytes);
    } else {
      Fetched(s, h, id, sched[0], bytes);
      prefix := [];
    }
    FirstStep(s, sched[0], prefix);
    PrefixGrows(sched, prefix);
    prefix := [sched[0]] + prefix;
  }

  /** The same for the compiled queue. */
  lemma EveryScheduleCommitsWord(s: State, h: History, id: nat, sched: seq<Action>) returns (prefix: seq<Action>)
    requires Inv(s, h) && id < |s.cs| && s.cs[id].CCopy? && DisciplinedRun(s, sched)
    requires Turns(s, h, sched) >= Measure(s, h, id)
    ensures prefix <= sched && End(s.cs[id]) <= |h.stream|
    ensures Run(Word64, WordOf(s), prefix).cs[id] == CDone(Ok, h.stream[s.cs[id].ticket..End(s.cs[id])])
  {
    TicketAfterCommit(s, h, id);
    prefix := EveryScheduleCommits(s, h, id, sched, h.stream[s.cs[id].ticket..End(s.cs[id])]);
    WordRun(s, h, prefix);
  }
}
