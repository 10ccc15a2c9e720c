/** src/logging/impl/spmc_queue.cc as a machine of one producer and any number of consumers.
    A consumer takes a ticket by advancing the head, copies, and commits in ticket order. */
module SpmcMachine {
  import opened Bits
  import opened Ring

  datatype Producer =
    | PIdle
    | PLoad(data: seq<byte>)                             // load commit_idx_, test the space
    | PCopy(data: seq<byte>, at: nat, done: nat)         // store one byte, or publish the tail
    | PDone(status: Status)

  datatype Consumer =
    | CIdle
    | CTicket(n: nat)                                    // fetch_add on head_idx_
    | CCheck(n: nat, ticket: nat)                        // load tail_idx_, test the data
    | CRewind(n: nat, ticket: nat)                       // fetch_sub on head_idx_
    | CCopy(n: nat, ticket: nat, out: seq<byte>)         // load one byte, or try the commit CAS
    | CDone(status: Status, out: seq<byte>)

  datatype State = State(
    cap: nat, buf: seq<byte>,
    head: nat, tail: nat, commit: nat,
    p: Producer, cs: seq<Consumer>)

  datatype Action =
    | CallEnqueue(data: seq<byte>)
    | CallDequeue(id: nat, n: nat)
    | StepProducer
    | StepConsumer(id: nat)

  function Init(cap: nat, buf: seq<byte>, consumers: nat): State {
    State(cap, buf, 0, 0, 0, PIdle, seq(consumers, _ => CIdle))
  }

  /** `fetch_sub`; the unbounded reading stops at zero. */
  function Back(w: Width, idx: nat, n: nat): nat {
    if w.Word64? then (idx - n) % WORD else if n <= idx then idx - n else 0
  }

  function ProducerStep(w: Width, s: State): State
    requires s.cap > 0
  {
    match s.p
    case PLoad(data) =>
      s.(p := if TooFull(w, s.cap, s.tail, s.commit, |data|) then PDone(Overflow) else PCopy(data, s.tail, 0))
    case PCopy(data, at, done) =>
      if done < |data| then
        s.(buf := Store(s.buf, CopySlot(w, at, done, s.cap), data[done]), p := PCopy(data, at, done + 1))
      else
        s.(tail := Add(w, at, |data|), p := PDone(Ok))
    case _ => s
  }

  function ConsumerStep(w: Width, s: State, id: nat): State
    requires s.cap > 0 && id < |s.cs|
  {
    match s.cs[id]
    case CTicket(n) => s.(head := Add(w, s.head, n), cs := s.cs[id := CCheck(n, s.head)])
    case CCheck(n, ticket) =>
      s.(cs := s.cs[id := if TooEmpty(w, s.tail, ticket, n) then CRewind(n, ticket) else CCopy(n, ticket, [])])
    case CRewind(n, ticket) => s.(head := Back(w, s.head, n), cs := s.cs[id := CDone(Underflow, [])])
    case CCopy(n, ticket, out) =>
      if |out| < n then
        s.(cs := s.cs[id := CCopy(n, ticket, out + [Load(s.buf, CopySlot(w, ticket, |out|, s.cap))])])
      else if s.commit == ticket then
        s.(commit := Add(w, ticket, n), cs := s.cs[id := CDone(Ok, out)])
      else s
    case _ => s
  }

  function Step(w: Width, s: State, a: Action): (t: State)
    requires s.cap > 0
    ensures t.cap == s.cap && |t.cs| == |s.cs|
  {
    match a
    case CallEnqueue(data) =>
      if !s.p.PIdle? && !s.p.PDone? then s
      else s.(p := if |data| == 0 then PDone(SizeIsZero) else PLoad(data))
    case CallDequeue(id, n) =>
      if id >= |s.cs| || (!s.cs[id].CIdle? && !s.cs[id].CDone?) then s
      else s.(cs := s.cs[id := if n == 0 then CDone(SizeIsZero, []) else CTicket(n)])
    case StepProducer => ProducerStep(w, s)
    case StepConsumer(id) => if id < |s.cs| then ConsumerStep(w, s, id) else s
  }

  // ------------------------------------------------------------ the ticket hypothesis

  /** No consumer stands between a failed check and its rewind. */
  predicate NoneRewinding(s: State) {
    forall i :: 0 <= i < |s.cs| ==> !s.cs[i].CRewind?
  }

  /** A ticket is taken only when the head has not run past the tail and nobody is rewinding. */
  predicate Disciplined(s: State, a: Action) {
    a.StepConsumer? && a.id < |s.cs| && s.cs[a.id].CTicket? ==> s.head <= s.tail && NoneRewinding(s)
  }

  // ------------------------------------------------------------------------ history

  datatype Delivery = Delivery(consumer: nat, ticket: nat, bytes: seq<byte>)

  /** What the proof remembers: the consumers holding tickets, in ticket order, every byte
      ever published, and the committed deliveries. */
  datatype History = History(open: seq<nat>, stream: seq<byte>, log: seq<Delivery>)

  predicate IsOpen(c: Consumer) {
    c.CCheck? || c.CRewind? || c.CCopy?
  }

  function Record(s: State, h: History, a: Action): History {
    match a
    case StepProducer =>
      if s.p.PCopy? && s.p.done >= |s.p.data| then h.(stream := h.stream + s.p.data) else h
    case StepConsumer(id) =>
      if id >= |s.cs| then h
      else (
        match s.cs[id]
        case CTicket(_) => h.(open := h.open + [id])
        case CRewind(_, _) => if h.open == [] then h else h.(open := h.open[..|h.open| - 1])
        case CCopy(n, ticket, out) =>
          if |out| < n || s.commit != ticket || h.open == [] then h
          else h.(open := h.open[1..], log := h.log + [Delivery(id, ticket, out)])
        case _ => h)
    case _ => h
  }

  /** The delivered bytes in the order of their commits. */
  function Delivered(log: seq<Delivery>): seq<byte> {
    if log == [] then [] else Delivered(log[..|log| - 1]) + log[|log| - 1].bytes
  }

  // ---------------------------------------------------------------------- invariant

  function End(c: Consumer): nat
    requires IsOpen(c)
  {
    c.ticket + c.n
  }

  /** The bytes stored beyond the tail by an unfinished enqueue. */
  function Pending(p: Producer): seq<byte> {
    if p.PCopy? && p.done <= |p.data| then p.data[..p.done] else []
  }

  ghost predicate OpenIds(cs: seq<Consumer>, open: seq<nat>) {
    && (forall k :: 0 <= k < |open| ==> open[k] < |cs| && IsOpen(cs[open[k]]))
    && (forall j, k :: 0 <= j < k < |open| ==> open[j] != open[k])
    && (forall id {:trigger id in open} :: 0 <= id < |cs| && IsOpen(cs[id]) ==> id in open)
  }

  /** The open tickets tile [commit, head) in order, without gap or overlap. */
  ghost predicate Tiled(cs: seq<Consumer>, open: seq<nat>, commit: nat, head: nat)
    requires OpenIds(cs, open)
  {
    && (forall k :: 0 <= k < |open| ==> cs[open[k]].n > 0)
    && (forall j, k :: 0 <= j < k < |open| ==>
          && End(cs[open[j]]) <= cs[open[k]].ticket
          && (k == j + 1 ==> End(cs[open[j]]) == cs[open[k]].ticket))
    && (open != [] ==> cs[open[0]].ticket == commit)
    && head == if open == [] then commit else End(cs[open[|open| - 1]])
  }

  /** A ticket starts inside the published bytes; a copy holds exactly its part of them. */
  ghost predicate TicketOk(c: Consumer, tail: nat, stream: seq<byte>)
    requires IsOpen(c)
  {
    && c.ticket <= tail
    && (c.CCopy? ==>
          && End(c) <= tail <= |stream| && |c.out| <= c.n
          && c.out == stream[c.ticket..c.ticket + |c.out|])
  }

  /** Only the last ticket may lie beyond the tail or be rewinding. */
  ghost predicate TicketsOk(cs: seq<Consumer>, open: seq<nat>, tail: nat, stream: seq<byte>)
    requires OpenIds(cs, open)
  {
    && (forall k :: 0 <= k < |open| ==> TicketOk(cs[open[k]], tail, stream))
    && (forall k :: 0 <= k < |open| - 1 ==> End(cs[open[k]]) <= tail && !cs[open[k]].CRewind?)
  }

  ghost predicate RingOk(s: State, stream: seq<byte>) {
    && Capacity(s.cap) && |s.buf| == s.cap && |stream| == s.tail
    && s.commit <= s.tail && s.tail + |Pending(s.p)| <= s.commit + s.cap
    && Holds(s.buf, s.cap, s.commit, stream[s.commit..] + Pending(s.p))
    && (s.p.PLoad? ==> |s.p.data| > 0)
    && (s.p.PCopy? ==>
          0 < |s.p.data| && s.p.done <= |s.p.data| && s.p.at == s.tail && s.tail + |s.p.data| <= s.commit + s.cap)
  }

  ghost predicate LogOk(commit: nat, stream: seq<byte>, log: seq<Delivery>) {
    commit <= |stream| && Delivered(log) == stream[..commit] && InTicketOrder(log)
  }

  /** Each delivery starts at the stream position where the ones before it end. */
  ghost predicate InTicketOrder(log: seq<Delivery>) {
    log == [] ||
    var front, d := log[..|log| - 1], log[|log| - 1];
    InTicketOrder(front) && d.ticket == |Delivered(front)| && |d.bytes| > 0
  }

  ghost predicate CallsOk(cs: seq<Consumer>) {
    forall id :: 0 <= id < |cs| && cs[id].CTicket? ==> cs[id].n > 0
  }

  ghost predicate Inv(s: State, h: History) {
    && RingOk(s, h.stream) && LogOk(s.commit, h.stream, h.log)
    && OpenIds(s.cs, h.open) && Tiled(s.cs, h.open, s.commit, s.head)
    && TicketsOk(s.cs, h.open, s.tail, h.stream) && CallsOk(s.cs)
  }

  lemma InitInv(cap: nat, buf: seq<byte>, consumers: nat)
    requires Capacity(cap) && |buf| == cap
    ensures Inv(Init(cap, buf, consumers), History([], [], []))
  {
  }

  lemma OpenIndex(cs: seq<Consumer>, open: seq<nat>, id: nat) returns (k: nat)
    requires OpenIds(cs, open) && id < |cs| && IsOpen(cs[id])
    ensures k < |open| && open[k] == id
  {
    assert id in open;
    k :| 0 <= k < |open| && open[k] == id;
  }

  lemma TicketAfterCommit(s: State, h: History, id: nat)
    requires Inv(s, h) && id < |s.cs| && IsOpen(s.cs[id])
    ensures TicketOk(s.cs[id], s.tail, h.stream)
    ensures h.open != [] && s.commit <= s.cs[id].ticket
    ensures s.commit == s.cs[id].ticket <==> h.open[0] == id
  {
    var k := OpenIndex(s.cs, h.open, id);
    assert k > 0 ==> End(s.cs[h.open[0]]) <= s.cs[h.open[k]].ticket;
  }

  // ----------------------------------------------------------------------- producer

  lemma ProducerStore(s: State, stream: seq<byte>)
    requires RingOk(s, stream) && s.p.PCopy? && s.p.done < |s.p.data|
    ensures RingOk(ProducerStep(Unbounded, s), stream)
  {
    var data, done := s.p.data, s.p.done;
    var held := stream[s.commit..] + data[..done];
    SplitCopySlot(Unbounded, s.tail, done, s.cap);
    StoreExtends(s.buf, s.cap, s.commit, held, data[done]);
    assert held + [data[done]] == stream[s.commit..] + data[..done + 1];
  }

  lemma PublishRing(s: State, stream: seq<byte>)
    requires RingOk(s, stream) && s.p.PCopy? && s.p.done == |s.p.data|
    ensures RingOk(ProducerStep(Unbounded, s), stream + s.p.data)
  {
    var data := s.p.data;
    assert data[..s.p.done] == data;
    assert (stream + data)[s.commit..] + [] == stream[s.commit..] + data;
  }

  lemma PublishTickets(cs: seq<Consumer>, open: seq<nat>, tail: nat, stream: seq<byte>, data: seq<byte>)
    requires OpenIds(cs, open) && TicketsOk(cs, open, tail, stream) && |stream| == tail
    ensures TicketsOk(cs, open, tail + |data|, stream + data)
  {
    forall k | 0 <= k < |open| ensures TicketOk(cs[open[k]], tail + |data|, stream + data) {
      var c := cs[open[k]];
      assert TicketOk(c, tail, stream);
      assert c.CCopy? ==> (stream + data)[c.ticket..c.ticket + |c.out|] == stream[c.ticket..c.ticket + |c.out|];
    }
  }

  lemma PublishLog(commit: nat, stream: seq<byte>, log: seq<Delivery>, data: seq<byte>)
    requires LogOk(commit, stream, log)
    ensures LogOk(commit, stream + data, log)
  {
    assert (stream + data)[..commit] == stream[..commit];
  }

  /** What one producer step changes. */
  lemma ProducerMoves(s: State, h: History)
    requires RingOk(s, h.stream)
    ensures var t, g := Step(Unbounded, s, StepProducer), Record(s, h, StepProducer);
            if s.p.PCopy? && s.p.done == |s.p.data|
            then t == s.(tail := s.tail + |s.p.data|, p := PDone(Ok)) && g == h.(stream := h.stream + s.p.data)
            else t == s.(buf := t.buf, p := t.p) && g == h
  {
  }

  lemma ProducerRing(s: State, stream: seq<byte>)
    requires RingOk(s, stream) && !(s.p.PCopy? && s.p.done == |s.p.data|)
    ensures RingOk(ProducerStep(Unbounded, s), stream)
  {
    if s.p.PCopy? {
      ProducerStore(s, stream);
    } else {
      assert Pending(ProducerStep(Unbounded, s).p) == Pending(s.p) == [];
    }
  }

  lemma ProducerInv(s: State, h: History)
    requires Inv(s, h)
    ensures Inv(Step(Unbounded, s, StepProducer), Record(s, h, StepProducer))
  {
    ProducerMoves(s, h);
    if s.p.PCopy? && s.p.done == |s.p.data| {
      PublishRing(s, h.stream);
      PublishTickets(s.cs, h.open, s.tail, h.stream, s.p.data);
      PublishLog(s.commit, h.stream, h.log, s.p.data);
    } else {
      ProducerRing(s, h.stream);
    }
  }

  // ---------------------------------------------------------------------- consumers

  /** `ds` has the same open consumers with the same tickets as `cs`. */
  ghost predicate SameOpen(cs: seq<Consumer>, ds: seq<Consumer>) {
    && |ds| == |cs|
    && forall i :: 0 <= i < |cs| ==>
         && IsOpen(ds[i]) == IsOpen(cs[i])
         && (IsOpen(cs[i]) ==> ds[i].n == cs[i].n && ds[i].ticket == cs[i].ticket)
  }

  lemma SameOpenTiled(cs: seq<Consumer>, ds: seq<Consumer>, open: seq<nat>, commit: nat, head: nat)
    requires OpenIds(cs, open) && SameOpen(cs, ds) && Tiled(cs, open, commit, head)
    ensures OpenIds(ds, open) && Tiled(ds, open, commit, head)
  {
    assert forall j, k :: 0 <= j < k < |open| ==> End(cs[open[j]]) <= cs[open[k]].ticket;
  }

  lemma SameOpenTickets(cs: seq<Consumer>, open: seq<nat>, tail: nat, stream: seq<byte>, id: nat, c: Consumer)
    requires OpenIds(cs, open) && id < |cs| && IsOpen(cs[id]) && IsOpen(c) && OpenIds(cs[id := c], open)
    requires c.n == cs[id].n && c.ticket == cs[id].ticket
    requires TicketsOk(cs, open, tail, stream) && TicketOk(c, tail, stream) && (c.CRewind? ==> End(c) > tail)
    ensures TicketsOk(cs[id := c], open, tail, stream)
  {
    var ds := cs[id := c];
    forall k | 0 <= k < |open|
      ensures TicketOk(ds[open[k]], tail, stream)
      ensures k < |open| - 1 ==> End(ds[open[k]]) <= tail && !ds[open[k]].CRewind?
    {
      assert TicketOk(cs[open[k]], tail, stream);
    }
  }

  /** A consumer that changes state while keeping its ticket leaves the tiling alone. */
  lemma SameTicket(s: State, h: History, id: nat, c: Consumer)
    requires Inv(s, h) && id < |s.cs| && IsOpen(s.cs[id]) && IsOpen(c)
    requires c.n == s.cs[id].n && c.ticket == s.cs[id].ticket
    requires TicketOk(c, s.tail, h.stream) && (c.CRewind? ==> End(c) > s.tail)
    ensures Inv(s.(cs := s.cs[id := c]), h)
  {
    SameOpenTiled(s.cs, s.cs[id := c], h.open, s.commit, s.head);
    SameOpenTickets(s.cs, h.open, s.tail, h.stream, id, c);
  }

  lemma TakeTicketIds(cs: seq<Consumer>, open: seq<nat>, id: nat, c: Consumer)
    requires OpenIds(cs, open) && id < |cs| && !IsOpen(cs[id]) && IsOpen(c)
    ensures OpenIds(cs[id := c], open + [id])
    ensures forall k :: 0 <= k < |open| ==> open[k] != id
  {
    var ids := open + [id];
    assert ids[|open|] == id;
    forall i | 0 <= i < |cs| && IsOpen(cs[id := c][i]) ensures i in ids {
      if i != id {
        var k := OpenIndex(cs, open, i);
        assert ids[k] == i;
      }
    }
  }

  lemma TakeTicketTiles(cs: seq<Consumer>, open: seq<nat>, commit: nat, head: nat, id: nat, n: nat)
    requires OpenIds(cs, open) && id < |cs| && !IsOpen(cs[id]) && n > 0
    requires Tiled(cs, open, commit, head)
    requires OpenIds(cs[id := CCheck(n, head)], open + [id])
    ensures Tiled(cs[id := CCheck(n, head)], open + [id], commit, head + n)
  {
    var ds, ids := cs[id := CCheck(n, head)], open + [id];
    forall j, k | 0 <= j < k < |ids|
      ensures End(ds[ids[j]]) <= ds[ids[k]].ticket
      ensures k == j + 1 ==> End(ds[ids[j]]) == ds[ids[k]].ticket
    {
      assert ds[ids[j]] == cs[open[j]];
      if k == |open| {
        assert ds[ids[k]] == CCheck(n, head);
        if j < |open| - 1 {
          assert End(cs[open[j]]) <= cs[open[|open| - 1]].ticket;
        }
      } else {
        assert ds[ids[k]] == cs[open[k]];
      }
    }
  }

  lemma TakeTicketOk(cs: seq<Consumer>, open: seq<nat>, head: nat, tail: nat, stream: seq<byte>, id: nat, c: Consumer)
    requires OpenIds(cs, open) && id < |cs| && !IsOpen(cs[id]) && OpenIds(cs[id := c], open + [id])
    requires TicketsOk(cs, open, tail, stream) && c.CCheck? && c.ticket == head <= tail
    requires forall k :: 0 <= k < |open| ==> End(cs[open[k]]) <= tail && !cs[open[k]].CRewind?
    ensures TicketsOk(cs[id := c], open + [id], tail, stream)
  {
    var ds, ids := cs[id := c], open + [id];
    forall k | 0 <= k < |ids|
      ensures TicketOk(ds[ids[k]], tail, stream)
      ensures k < |open| ==> End(ds[ids[k]]) <= tail && !ds[ids[k]].CRewind?
    {
      assert k < |open| ==> TicketOk(cs[open[k]], tail, stream);
    }
  }

  lemma TakeTicket(s: State, h: History, id: nat)
    requires Inv(s, h) && id < |s.cs| && s.cs[id].CTicket? && s.head <= s.tail && NoneRewinding(s)
    ensures Inv(Step(Unbounded, s, StepConsumer(id)), Record(s, h, StepConsumer(id)))
  {
    var n := s.cs[id].n;
    var cs, open := s.cs[id := CCheck(n, s.head)], h.open + [id];
    TakeTicketIds(s.cs, h.open, id, CCheck(n, s.head));
    TakeTicketTiles(s.cs, h.open, s.commit, s.head, id, n);
    TakeTicketOk(s.cs, h.open, s.head, s.tail, h.stream, id, CCheck(n, s.head));
  }

  lemma CheckTail(s: State, h: History, id: nat)
    requires Inv(s, h) && id < |s.cs| && s.cs[id].CCheck?
    ensures Inv(Step(Unbounded, s, StepConsumer(id)), h)
  {
    var c := s.cs[id];
    TicketAfterCommit(s, h, id);
    SameTicket(s, h, id,
      if TooEmpty(Unbounded, s.tail, c.ticket, c.n) then CRewind(c.n, c.ticket) else CCopy(c.n, c.ticket, []));
  }

  /** The byte loaded from inside the uncommitted part is the published one. */
  lemma LoadsStream(s: State, stream: seq<byte>, at: nat, i: nat)
    requires RingOk(s, stream) && s.commit <= at && at + i < s.tail
    ensures Load(s.buf, CopySlot(Unbounded, at, i, s.cap)) == stream[at + i]
  {
    SplitCopySlot(Unbounded, at, i, s.cap);
    var held := stream[s.commit..] + Pending(s.p);
    assert held[at + i - s.commit] == stream[at + i];
    assert s.commit + (at + i - s.commit) == at + i;
  }

  lemma CopyByte(s: State, h: History, id: nat)
    requires Inv(s, h) && id < |s.cs| && s.cs[id].CCopy? && |s.cs[id].out| < s.cs[id].n
    ensures Inv(Step(Unbounded, s, StepConsumer(id)), h)
  {
    var c := s.cs[id];
    TicketAfterCommit(s, h, id);
    var at, i := c.ticket, |c.out|;
    LoadsStream(s, h.stream, at, i);
    assert h.stream[at..at + i + 1] == h.stream[at..at + i] + [h.stream[at + i]];
    SameTicket(s, h, id, CCopy(c.n, at, c.out + [h.stream[at + i]]));
  }

  /** Closing the consumer at one end of the order leaves the rest of it in order. */
  lemma CloseIds(cs: seq<Consumer>, open: seq<nat>, lo: nat, hi: nat, id: nat, c: Consumer)
    requires OpenIds(cs, open) && lo <= hi <= |open| && id < |cs| && !IsOpen(c)
    requires forall k :: 0 <= k < |open| ==> (open[k] != id <==> lo <= k < hi)
    ensures OpenIds(cs[id := c], open[lo..hi])
  {
    var ds, ids := cs[id := c], open[lo..hi];
    forall i {:trigger i in ids} | 0 <= i < |ds| && IsOpen(ds[i]) ensures i in ids {
      var m := OpenIndex(cs, open, i);
      assert ids[m - lo] == i;
    }
  }

  lemma CloseTiles(cs: seq<Consumer>, open: seq<nat>, commit: nat, head: nat, lo: nat, hi: nat, id: nat, c: Consumer,
                   commit': nat, head': nat)
    requires OpenIds(cs, open) && lo <= hi <= |open| && id < |cs|
    requires OpenIds(cs[id := c], open[lo..hi]) && forall k :: lo <= k < hi ==> open[k] != id
    requires Tiled(cs, open, commit, head)
    requires lo < hi ==> commit' == cs[open[lo]].ticket && head' == End(cs[open[hi - 1]])
    requires lo == hi ==> commit' == head'
    ensures Tiled(cs[id := c], open[lo..hi], commit', head')
  {
    var ds, ids := cs[id := c], open[lo..hi];
    forall j, k | 0 <= j < k < |ids|
      ensures End(ds[ids[j]]) <= ds[ids[k]].ticket
      ensures k == j + 1 ==> End(ds[ids[j]]) == ds[ids[k]].ticket
    {
      assert ds[ids[j]] == cs[open[lo + j]] && ds[ids[k]] == cs[open[lo + k]];
    }
  }

  lemma CloseTickets(cs: seq<Consumer>, open: seq<nat>, tail: nat, stream: seq<byte>, lo: nat, hi: nat, id: nat,
        c: Consumer)
    requires OpenIds(cs, open) && lo <= hi <= |open| && id < |cs|
    requires OpenIds(cs[id := c], open[lo..hi]) && forall k :: lo <= k < hi ==> open[k] != id
    requires TicketsOk(cs, open, tail, stream)
    ensures TicketsOk(cs[id := c], open[lo..hi], tail, stream)
  {
    var ds, ids := cs[id := c], open[lo..hi];
    forall k | 0 <= k < |ids|
      ensures TicketOk(ds[ids[k]], tail, stream)
      ensures k < |ids| - 1 ==> End(ds[ids[k]]) <= tail && !ds[ids[k]].CRewind?
    {
      assert ds[ids[k]] == cs[open[lo + k]];
    }
  }

  lemma CloseInv(s: State, h: History, lo: nat, hi: nat, id: nat, c: Consumer, t: State, log: seq<Delivery>)
    requires Inv(s, h) && lo <= hi <= |h.open| && id < |s.cs| && !IsOpen(c) && !c.CTicket?
    requires forall k :: 0 <= k < |h.open| ==> (h.open[k] != id <==> lo <= k < hi)
    requires t == s.(cs := s.cs[id := c], commit := t.commit, head := t.head)
    requires lo < hi ==> t.commit == s.cs[h.open[lo]].ticket && t.head == End(s.cs[h.open[hi - 1]])
    requires lo == hi ==> t.commit == t.head
    requires RingOk(t, h.stream) && LogOk(t.commit, h.stream, log)
    ensures Inv(t, h.(open := h.open[lo..hi], log := log))
  {
    CloseIds(s.cs, h.open, lo, hi, id, c);
    CloseTiles(s.cs, h.open, s.commit, s.head, lo, hi, id, c, t.commit, t.head);
    CloseTickets(s.cs, h.open, s.tail, h.stream, lo, hi, id, c);
  }

  /** The rewinding consumer holds the last ticket, so its rewind undoes nobody else's. */
  lemma Rewind(s: State, h: History, id: nat)
    requires Inv(s, h) && id < |s.cs| && s.cs[id].CRewind?
    ensures h.open != [] && h.open[|h.open| - 1] == id
    ensures Inv(Step(Unbounded, s, StepConsumer(id)), Record(s, h, StepConsumer(id)))
  {
    var k := OpenIndex(s.cs, h.open, id);
    var t := Step(Unbounded, s, StepConsumer(id));
    assert k == |h.open| - 1;
    assert t.head == s.cs[id].ticket;
    CloseInv(s, h, 0, k, id, CDone(Underflow, []), t, h.log);
    assert h.open[0..k] == h.open[..|h.open| - 1];
  }

  lemma CommitLog(s: State, h: History, id: nat)
    requires Inv(s, h) && id < |s.cs| && s.cs[id].CCopy? && |s.cs[id].out| == s.cs[id].n
    requires s.commit == s.cs[id].ticket
    ensures LogOk(End(s.cs[id]), h.stream, h.log + [Delivery(id, s.commit, s.cs[id].out)])
  {
    TicketAfterCommit(s, h, id);
    var out, log := s.cs[id].out, h.log + [Delivery(id, s.commit, s.cs[id].out)];
    assert log[..|log| - 1] == h.log;
    assert Delivered(log) == Delivered(h.log) + out;
    assert h.stream[..s.commit] + h.stream[s.commit..s.commit + |out|] == h.stream[..s.commit + |out|];
  }

  lemma CommitRing(s: State, stream: seq<byte>, t: State)
    requires RingOk(s, stream) && s.commit <= t.commit <= s.tail && t == s.(commit := t.commit, cs := t.cs)
    ensures RingOk(t, stream)
  {
    var held := stream[s.commit..] + Pending(s.p);
    HoldsDrop(s.buf, s.cap, s.commit, held, t.commit - s.commit);
    assert held[t.commit - s.commit..] == stream[t.commit..] + Pending(s.p);
  }

  lemma Commit(s: State, h: History, id: nat)
    requires Inv(s, h) && id < |s.cs| && s.cs[id].CCopy? && |s.cs[id].out| == s.cs[id].n
    requires s.commit == s.cs[id].ticket
    ensures Inv(Step(Unbounded, s, StepConsumer(id)), Record(s, h, StepConsumer(id)))
  {
    TicketAfterCommit(s, h, id);
    CommitLog(s, h, id);
    CommitRing(s, h.stream, Step(Unbounded, s, StepConsumer(id)));
    CloseInv(s, h, 1, |h.open|, id, CDone(Ok, s.cs[id].out), Step(Unbounded, s, StepConsumer(id)),
             h.log + [Delivery(id, s.commit, s.cs[id].out)]);
    assert h.open[1..|h.open|] == h.open[1..];
  }

  lemma ConsumerInv(s: State, h: History, id: nat)
    requires Inv(s, h) && Disciplined(s, StepConsumer(id))
    ensures Inv(Step(Unbounded, s, StepConsumer(id)), Record(s, h, StepConsumer(id)))
  {
    if id < |s.cs| {
      match s.cs[id] {
        case CTicket(_) => TakeTicket(s, h, id);
        case CCheck(_, _) => CheckTail(s, h, id);
        case CRewind(_, _) => Rewind(s, h, id);
        case CCopy(n, ticket, out) =>
          TicketAfterCommit(s, h, id);
          if |out| < n {
            CopyByte(s, h, id);
          } else if s.commit == ticket {
            Commit(s, h, id);
          }
        case _ =>
      }
    }
  }

  /** A consumer without a ticket may start or finish a call. */
  lemma OutsideKeeps(cs: seq<Consumer>, open: seq<nat>, commit: nat, head: nat, tail: nat, stream: seq<byte>,
        id: nat, c: Consumer)
    requires OpenIds(cs, open) && Tiled(cs, open, commit, head) && TicketsOk(cs, open, tail, stream)
    requires id < |cs| && !IsOpen(cs[id]) && !IsOpen(c)
    ensures var ds := cs[id := c];
            OpenIds(ds, open) && Tiled(ds, open, commit, head) && TicketsOk(ds, open, tail, stream)
  {
    var ds := cs[id := c];
    SameOpenTiled(cs, ds, open, commit, head);
    assert forall k :: 0 <= k < |open| ==> ds[open[k]] == cs[open[k]];
  }

  lemma CallDequeueInv(s: State, h: History, id: nat, n: nat)
    requires Inv(s, h)
    ensures Inv(Step(Unbounded, s, CallDequeue(id, n)), h)
  {
    if id < |s.cs| && (s.cs[id].CIdle? || s.cs[id].CDone?) {
      var c := if n == 0 then CDone(SizeIsZero, []) else CTicket(n);
      OutsideKeeps(s.cs, h.open, s.commit, s.head, s.tail, h.stream, id, c);
      assert Step(Unbounded, s, CallDequeue(id, n)) == s.(cs := s.cs[id := c]);
    }
  }

  /** Under the ticket hypothesis every step keeps the tiling, the stored bytes and the log. */
  lemma StepInv(s: State, h: History, a: Action)
    requires Inv(s, h) && Disciplined(s, a)
    ensures Inv(Step(Unbounded, s, a), Record(s, h, a))
  {
    match a {
      case CallEnqueue(data) =>
      case CallDequeue(id, n) => CallDequeueInv(s, h, id, n);
      case StepProducer => ProducerInv(s, h);
      case StepConsumer(id) => ConsumerInv(s, h, id);
    }
  }
}
