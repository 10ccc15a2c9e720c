/** The invariant of the logger's two threads and its proof, step by step. */
module ProtocolInv {
  import opened Bits
  import opened Ring
  import opened Chunks
  import opened LittleEndian
  import opened LogEntries
  import opened ArgsCodec
  import opened Protocol
  import Spsc = SpscMachine

  // -------------------------------------------------------------------- one entry

  /** `frame` is one whole entry of exactly the size of `r` that the worker turns into exactly the
      message of `r`. */
  ghost predicate FrameFor(cfg: Config, frame: seq<byte>, r: Request) {
    IsFrame(frame) && |frame| == 24 + SizeOf(r) < 1024 && ProcessEntry(cfg, frame) == Deliver(MessageOf(cfg, r))
  }

  /** The filters let a request through exactly when it takes fewer than 1000 bytes in its entry, and
      the payload has exactly that size. */
  lemma FitsExactly(cfg: Config, r: Request)
    requires GoodRequest(cfg, r)
    ensures FitsEntry(r) <==> SizeOf(r) < 1000
    ensures FitsEntry(r) ==> |Payload(r)| == SizeOf(r)
    ensures r.Formatted? ==> SizeOf(r) == PlannedSize(r.site.refMode, r.site.types, r.args)
  {
    if r.Formatted? {
      PlannedSizeIsExact(r.site.refMode, r.site.types, r.args);
      EncodedSize(r.site.refMode, r.args);
    }
  }

  lemma FrameParts(cfg: Config, r: Request, padding: seq<byte>)
    requires GoodConfig(cfg) && GoodRequest(cfg, r) && FitsEntry(r) && |padding| == 7
    ensures var frame := FrameOf(cfg, r, padding);
            && IsFrame(frame) && |frame| == ENTRY_SIZE + |Payload(r)|
            && DecodeHeader(frame) == Header(|Payload(r)|, FormatId(r), cfg.threadId, 0, r.level)
            && frame[ENTRY_SIZE..] == Payload(r)
  {
    var payload := Payload(r);
    var h := Header(|payload| % 0x1_0000, FormatId(r), cfg.threadId, 0, r.level);
    FrameIsFrame(cfg.threadId, FormatId(r), r.level, 0, padding, payload);
    HeaderRoundTrip(h, padding, payload);
  }

  lemma ArgsPayload(site: CallSite, level: nat, args: seq<Value>)
    requires 0 < site.formatFn < WORD && 0 < site.readerFn < WORD && HaveTypes(args, site.types)
    requires Payload(Formatted(level, site, args)) != []
    ensures var payload := Payload(Formatted(level, site, args));
            && |payload| >= HEADER_SIZE
            && FromBytes(payload[..8]) == site.formatFn && FromBytes(payload[8..16]) == site.readerFn
            && Deserialize(site.refMode, site.types, payload[HEADER_SIZE..]) == Some(PassedAll(site.refMode, args))
  {
    var payload := Payload(Formatted(level, site, args));
    WordRoundTrip(site.formatFn);
    WordRoundTrip(site.readerFn);
    assert payload[..8] == ToBytes(site.formatFn, 8);
    assert payload[8..16] == ToBytes(site.readerFn, 8);
    assert payload[HEADER_SIZE..] == EncodeArgs(site.refMode, args);
    DeserializeRoundTrip(site.refMode, args, site.types);
  }

  /** A formatted payload: the formatter's address, the reader's, then the arguments. */
  lemma PayloadLayout(cfg: Config, r: Request)
    requires GoodRequest(cfg, r) && SizeOf(r) < 1000
    ensures var bs := Payload(r);
            match r
            case Literal(_, text) => bs == text
            case Formatted(_, site, args) =>
              && |bs| >= 16 && bs[..8] == ToBytes(site.formatFn, 8) && bs[8..16] == ToBytes(site.readerFn, 8)
              && bs[16..] == EncodeArgs(site.refMode, args)
  {
    FitsExactly(cfg, r);
  }

  /** What a sink is handed: the call's own level, thread and text, or its formatter and arguments; the
      id 0xFFFF means literal text and nothing else. */
  lemma MessageFields(cfg: Config, r: Request)
    requires GoodRequest(cfg, r)
    ensures var m := MessageOf(cfg, r);
            && m.level == r.level && m.threadId == cfg.threadId
            && (m.formatId == 0xFFFF <==> r.Literal?)
            && (r.Literal? ==> m.body == TextBody(r.text))
            && (r.Formatted? ==>
                  && m.formatId == (if r.site.hash == 0xFFFF then 0xFFFE else r.site.hash)
                  && m.body == ArgsBody(r.site.formatFn, PassedAll(r.site.refMode, r.args)))
  {
  }

  /** What the worker makes of a frame is what was logged: literal text, or the argument list. */
  lemma FrameRoundTrip(cfg: Config, r: Request, padding: seq<byte>)
    requires GoodConfig(cfg) && GoodRequest(cfg, r) && FitsEntry(r) && |padding| == 7
    ensures FrameFor(cfg, FrameOf(cfg, r, padding), r)
  {
    FrameParts(cfg, r, padding);
    FitsExactly(cfg, r);
    match r {
      case Literal(_, text) => assert text[..|text|] == text;
      case Formatted(level, site, args) => ArgsPayload(site, level, args);
    }
  }

  // --------------------------------------------------------------------- the queue

  function Queued(q: Spsc.State): seq<byte>
    requires q.cap > 0
  {
    Spsc.Contents(Unbounded, q)
  }

  lemma ProducerEffect(q: Spsc.State)
    requires Spsc.Inv(q) && Spsc.InsideEnqueue(q.p)
    ensures var t := Spsc.Step(Unbounded, q, Spsc.StepProducer);
            && Spsc.Inv(t) && t.c == q.c
            && (if q.p.PCopy? && q.p.done >= |q.p.data|
                then Queued(t) == Queued(q) + q.p.data && t.p == Spsc.PDone(Ok)
                else Queued(t) == Queued(q) &&
                     ((Spsc.InsideEnqueue(t.p) && t.p.data == q.p.data) || t.p == Spsc.PDone(Overflow)))
  {
    Spsc.StepRefines(q, Spsc.StepProducer);
  }

  lemma PeekEffect(q: Spsc.State)
    requires Spsc.Inv(q) && Spsc.InsidePeek(q.c)
    ensures var t := Spsc.Step(Unbounded, q, Spsc.StepConsumer);
            && Spsc.Inv(t) && t.p == q.p && Queued(t) == Queued(q)
            && (|| (Spsc.InsidePeek(t.c) && t.c.n == q.c.n)
                || (q.c.n <= |Queued(q)| && t.c == Spsc.CDone(Ok, Queued(q)[..q.c.n]))
                || (|Queued(q)| < q.c.n && t.c == Spsc.CDone(Underflow, [])))
  {
    Spsc.StepRefines(q, Spsc.StepConsumer);
  }

  lemma DequeueEffect(q: Spsc.State)
    requires Spsc.Inv(q) && Spsc.InsideDequeue(q.c)
    ensures var t := Spsc.Step(Unbounded, q, Spsc.StepConsumer);
            && Spsc.Inv(t) && t.p == q.p
            && (if q.c.CCopy? && |q.c.out| >= q.c.n
                then && q.c.n <= |Queued(q)| && t.c == Spsc.CDone(Ok, Queued(q)[..q.c.n])
                     && Queued(t) == Queued(q)[q.c.n..]
                else && Queued(t) == Queued(q)
                     && (|| (Spsc.InsideDequeue(t.c) && t.c.n == q.c.n)
                         || (|Queued(q)| < q.c.n && t.c == Spsc.CDone(Underflow, []))))
  {
    Spsc.StepRefines(q, Spsc.StepConsumer);
  }

  lemma CallEffect(q: Spsc.State, a: Spsc.Action)
    requires Spsc.Inv(q) && (a.CallEnqueue? || a.CallDequeue? || a.CallPeek?)
    ensures Spsc.Inv(Spsc.Step(Unbounded, q, a)) && Queued(Spsc.Step(Unbounded, q, a)) == Queued(q)
  {
    Spsc.StepRefines(q, a);
  }

  // ---------------------------------------------------------------------- invariant

  /** The published bytes are the accepted frames not yet dequeued, whole and in order. */
  ghost predicate QueueOk(q: Spsc.State, frames: seq<seq<byte>>, taken: nat) {
    Spsc.Inv(q) && taken <= |frames| && Queued(q) == Flatten(frames[taken..])
  }

  ghost predicate FramesOk(cfg: Config, frames: seq<seq<byte>>, accepted: seq<Request>) {
    && |frames| == |accepted|
    && forall i :: 0 <= i < |frames| ==> FrameFor(cfg, frames[i], accepted[i])
  }

  ghost predicate FrontOk(cfg: Config, f: Frontend, p: Spsc.Producer) {
    if f.FEnqueue? then Spsc.InsideEnqueue(p) && FrameFor(cfg, p.data, f.req)
    else !Spsc.InsideEnqueue(p)
  }

  ghost predicate NextFrame(frames: seq<seq<byte>>, taken: nat, n: nat) {
    taken < |frames| && n == |frames[taken]|
  }

  ghost predicate WorkOk(w: Worker, c: Spsc.Consumer, frames: seq<seq<byte>>, taken: nat) {
    match w
    case WPeeking(_) => Spsc.InsidePeek(c) && c.n == 2
    case WDequeue(_, n) => !Spsc.InsidePeek(c) && !Spsc.InsideDequeue(c) && NextFrame(frames, taken, n)
    case WDequeuing(_, n) => Spsc.InsideDequeue(c) && c.n == n && NextFrame(frames, taken, n)
    case _ => !Spsc.InsidePeek(c) && !Spsc.InsideDequeue(c)
  }

  /** How many messages sink `j` has been handed. */
  function SeenBy(w: Worker, taken: nat, j: nat): nat {
    if w.WDeliver? && j >= w.next && taken > 0 then taken - 1 else taken
  }

  ghost predicate SinksOk(cfg: Config, w: Worker, sinks: seq<seq<Message>>, accepted: seq<Request>, taken: nat) {
    && taken <= |accepted|
    && (w.WDeliver? ==> 0 < taken && w.next <= |sinks| && w.message == MessageOf(cfg, accepted[taken - 1]))
    && forall j :: 0 <= j < |sinks| ==> sinks[j] == MessagesOf(cfg, accepted[..SeenBy(w, taken, j)])
  }

  /** How many messages every sink has been handed. */
  function Handed(w: Worker, taken: nat): nat {
    if w.WDeliver? && taken > 0 then taken - 1 else taken
  }

  function ContextOf(w: Worker): Context {
    if w.WPeek? || w.WPeeking? || w.WDequeue? || w.WDequeuing? || w.WDeliver? then w.ctx else Main
  }

  ghost predicate MarksDone(marks: seq<nat>, n: nat, done: nat) {
    n <= |marks| && forall i :: 0 <= i < n ==> marks[i] <= done
  }

  /** A completed flush request covers everything accepted before it was made. */
  ghost predicate FlushOk(s: State, h: History) {
    && s.completed <= s.requested == |h.marks|
    && MarksDone(h.marks, |h.marks|, |h.accepted|)
    && MarksDone(h.marks, s.completed, Handed(s.w, h.taken))
    && (s.w.WLoadCompleted? ==> s.w.req <= s.requested)
    && (ContextOf(s.w).Flushing? ==> s.completed < ContextOf(s.w).req <= s.requested)
    && (s.w.WComplete? ==> s.completed < s.w.req <= s.requested && MarksDone(h.marks, s.w.req, h.taken))
    && (s.f.FFlush? ==> 0 < s.f.ticket == s.requested && h.marks[s.f.ticket - 1] == |h.accepted|)
  }

  predicate Drained(w: Worker) { w.WFinalLoad? || w.WFinalStore? || w.WExited? }

  ghost predicate StopOk(s: State, h: History) {
    && (s.stop <==> s.f.FJoin? || s.f.FStopped? || s.f.FTerminated?)
    && (ContextOf(s.w).Final? ==> s.stop)
    && (Drained(s.w) ==> s.stop && h.taken == |h.frames|)
    && (s.w.WFinalStore? ==> s.w.req == s.requested)
    && (s.f.FStopped? || s.f.FTerminated? ==> s.w.WExited?)
  }

  /** Every log call is counted once, as enqueued or as dropped, when it returns. */
  ghost predicate CountOk(s: State, h: History) {
    && s.enqueued == |h.accepted|
    && h.calls == s.enqueued + s.dropped + if s.f.FEnqueue? then 1 else 0
  }

  ghost predicate Inv(cfg: Config, s: State, h: History) {
    && QueueOk(s.q, h.frames, h.taken) && FramesOk(cfg, h.frames, h.accepted)
    && FrontOk(cfg, s.f, s.q.p) && WorkOk(s.w, s.q.c, h.frames, h.taken)
    && SinksOk(cfg, s.w, s.sinks, h.accepted, h.taken)
    && FlushOk(s, h) && StopOk(s, h) && CountOk(s, h) && !s.fault
  }

  lemma InitInv(cfg: Config, cap: nat, buf: seq<byte>, sinks: nat, level: nat)
    requires Capacity(cap) && |buf| == cap
    ensures Inv(cfg, Init(cap, buf, sinks, level), EMPTY_HISTORY)
  {
    Spsc.InitInv(cap, buf);
  }

  // ----------------------------------------------------------------- frames in the queue

  lemma FlattenHead(frames: seq<seq<byte>>, k: nat)
    requires k < |frames|
    ensures Flatten(frames[k..]) == frames[k] + Flatten(frames[k + 1..])
  {
    assert frames[k..][0] == frames[k] && frames[k..][1..] == frames[k + 1..];
  }

  /** No torn frames: if two bytes are there, the whole next entry is, and its length field says so. */
  lemma WholeEntries(cfg: Config, frames: seq<seq<byte>>, accepted: seq<Request>, taken: nat, q: seq<byte>)
    requires FramesOk(cfg, frames, accepted) && taken <= |frames| && q == Flatten(frames[taken..])
    ensures |q| < 2 <==> taken == |frames|
    ensures taken < |frames| ==>
      var frame := frames[taken];
      && 2 <= |frame| <= |q| && frame <= q && q[|frame|..] == Flatten(frames[taken + 1..])
      && TotalSize(q[..2]) == |frame| < 1024
      && ProcessEntry(cfg, frame) == Deliver(MessageOf(cfg, accepted[taken]))
  {
    if taken < |frames| {
      FlattenHead(frames, taken);
      assert FrameFor(cfg, frames[taken], accepted[taken]);
      assert q[..2] == frames[taken][..2];
    } else {
      assert frames[taken..] == [];
    }
  }

  // ----------------------------------------------------------------------- frontend

  lemma SinksGrow(cfg: Config, w: Worker, sinks: seq<seq<Message>>, accepted: seq<Request>, taken: nat, r: Request)
    requires SinksOk(cfg, w, sinks, accepted, taken)
    ensures SinksOk(cfg, w, sinks, accepted + [r], taken)
  {
    forall j | 0 <= j < |sinks|
      ensures sinks[j] == MessagesOf(cfg, (accepted + [r])[..SeenBy(w, taken, j)])
    {
      assert (accepted + [r])[..SeenBy(w, taken, j)] == accepted[..SeenBy(w, taken, j)];
    }
  }

  lemma QueueGrows(q: Spsc.State, t: Spsc.State, frames: seq<seq<byte>>, taken: nat, data: seq<byte>)
    requires QueueOk(q, frames, taken) && Spsc.Inv(t) && Queued(t) == Queued(q) + data
    ensures QueueOk(t, frames + [data], taken)
  {
    assert (frames + [data])[taken..] == frames[taken..] + [data];
    FlattenAppend(frames[taken..], data);
  }

  lemma EnqueueOk(cfg: Config, s: State, h: History)
    requires Inv(cfg, s, h) && s.f.FEnqueue? && s.q.p.PCopy? && s.q.p.done >= |s.q.p.data|
    ensures Inv(cfg, FrontendStep(Unbounded, cfg, s), Record(s, h, StepFrontend))
  {
    var t, g := FrontendStep(Unbounded, cfg, s), Record(s, h, StepFrontend);
    ProducerEffect(s.q);
    QueueGrows(s.q, t.q, h.frames, h.taken, s.q.p.data);
    SinksGrow(cfg, s.w, s.sinks, h.accepted, h.taken, s.f.req);
    assert FramesOk(cfg, g.frames, g.accepted);
    assert WorkOk(t.w, t.q.c, g.frames, g.taken);
    assert FlushOk(t, g) && StopOk(t, g) && CountOk(t, g);
  }

  lemma EnqueuePending(cfg: Config, s: State, h: History)
    requires Inv(cfg, s, h) && s.f.FEnqueue? && !(s.q.p.PCopy? && s.q.p.done >= |s.q.p.data|)
    ensures Inv(cfg, FrontendStep(Unbounded, cfg, s), h)
  {
    ProducerEffect(s.q);
  }

  /** The waits and stores outside an enqueue. */
  lemma FrontendOther(cfg: Config, s: State, h: History)
    requires s.q.cap > 0 && !s.f.FEnqueue? && FrontOk(cfg, s.f, s.q.p) && FlushOk(s, h) && StopOk(s, h) && CountOk(s, h)
    ensures var t := FrontendStep(Unbounded, cfg, s);
            && t == s.(f := t.f, stop := t.stop) && Record(s, h, StepFrontend) == h
            && FrontOk(cfg, t.f, t.q.p) && FlushOk(t, h) && StopOk(t, h) && CountOk(t, h)
  {
  }

  lemma FrontendStepInv(cfg: Config, s: State, h: History)
    requires Inv(cfg, s, h)
    ensures Inv(cfg, FrontendStep(Unbounded, cfg, s), Record(s, h, StepFrontend))
  {
    if s.f.FEnqueue? {
      if s.q.p.PCopy? && s.q.p.done >= |s.q.p.data| {
        EnqueueOk(cfg, s, h);
      } else {
        EnqueuePending(cfg, s, h);
      }
    } else {
      FrontendOther(cfg, s, h);
    }
  }

  lemma LogInv(cfg: Config, s: State, h: History, req: Request, padding: seq<byte>)
    requires Inv(cfg, s, h) && GoodConfig(cfg) && GoodAction(cfg, Log(req, padding))
    ensures Inv(cfg, Step(Unbounded, cfg, s, Log(req, padding)), Record(s, h, Log(req, padding)))
  {
    if s.f.FReady? && req.level <= s.level && FitsEntry(req) {
      FrameRoundTrip(cfg, req, padding);
      CallEffect(s.q, Spsc.CallEnqueue(FrameOf(cfg, req, padding)));
    }
  }

  lemma FlushInv(cfg: Config, s: State, h: History)
    requires Inv(cfg, s, h)
    ensures Inv(cfg, Step(Unbounded, cfg, s, Flush), Record(s, h, Flush))
  {
  }

  // ------------------------------------------------------------------------- worker

  lemma PeekCallInv(cfg: Config, s: State, h: History)
    requires Inv(cfg, s, h) && s.w.WPeek?
    ensures Inv(cfg, WorkerStep(Unbounded, cfg, s), h)
  {
    CallEffect(s.q, Spsc.CallPeek(2));
  }

  /** Where a peek step leaves the worker: still peeking, about to dequeue the whole next entry,
      or, only when every accepted entry has been taken, done with this read. */
  lemma PeekOutcome(cfg: Config, s: State, h: History)
    requires Inv(cfg, s, h) && s.w.WPeeking?
    ensures var t := WorkerStep(Unbounded, cfg, s);
            && t == s.(q := t.q, w := t.w) && t.q.p == s.q.p && QueueOk(t.q, h.frames, h.taken)
            && WorkOk(t.w, t.q.c, h.frames, h.taken)
            && (|| t.w == s.w
                || (t.w.WDequeue? && t.w.ctx == s.w.ctx)
                || (t.w == AfterNothing(s.w.ctx) && h.taken == |h.frames|))
  {
    PeekEffect(s.q);
    WholeEntries(cfg, h.frames, h.accepted, h.taken, Queued(s.q));
  }

  lemma PeekingInv(cfg: Config, s: State, h: History)
    requires Inv(cfg, s, h) && s.w.WPeeking?
    ensures Inv(cfg, WorkerStep(Unbounded, cfg, s), h)
  {
    PeekOutcome(cfg, s, h);
  }

  lemma DequeueCallInv(cfg: Config, s: State, h: History)
    requires Inv(cfg, s, h) && s.w.WDequeue? && s.w.n <= cfg.dequeueSize
    ensures Inv(cfg, WorkerStep(Unbounded, cfg, s), h)
  {
    CallEffect(s.q, Spsc.CallDequeue(s.w.n));
    WholeEntries(cfg, h.frames, h.accepted, h.taken, Queued(s.q));
  }

  /** The head store of a dequeue hands the worker exactly the next frame, whole. */
  lemma FrameTaken(cfg: Config, s: State, h: History)
    requires Inv(cfg, s, h) && s.w.WDequeuing? && s.q.c.CCopy? && |s.q.c.out| >= s.q.c.n
    ensures var t := WorkerStep(Unbounded, cfg, s);
            && QueueOk(t.q, h.frames, h.taken + 1) && t.q.p == s.q.p
            && t == s.(q := t.q, w := WDeliver(s.w.ctx, MessageOf(cfg, h.accepted[h.taken]), 0))
            && WorkOk(t.w, t.q.c, h.frames, h.taken + 1)
  {
    DequeueEffect(s.q);
    WholeEntries(cfg, h.frames, h.accepted, h.taken, Queued(s.q));
  }

  lemma SinksTaken(cfg: Config, w: Worker, sinks: seq<seq<Message>>, accepted: seq<Request>, taken: nat, ctx: Context)
    requires SinksOk(cfg, w, sinks, accepted, taken) && !w.WDeliver? && taken < |accepted|
    ensures SinksOk(cfg, WDeliver(ctx, MessageOf(cfg, accepted[taken]), 0), sinks, accepted, taken + 1)
  {
    forall j | 0 <= j < |sinks| ensures sinks[j] == MessagesOf(cfg, accepted[..taken]) {
      assert SeenBy(w, taken, j) == taken;
    }
  }

  /** The other bookkeeping does not notice that an entry moved from the queue to the worker. */
  lemma TakenRest(s: State, h: History, q: Spsc.State, m: Message)
    requires FlushOk(s, h) && StopOk(s, h) && CountOk(s, h) && s.w.WDequeuing?
    ensures var t, g := s.(q := q, w := WDeliver(s.w.ctx, m, 0)), h.(taken := h.taken + 1);
            FlushOk(t, g) && StopOk(t, g) && CountOk(t, g)
  {
  }

  lemma TakenRecord(s: State, h: History)
    requires s.q.cap > 0 && s.w.WDequeuing?
    ensures Record(s, h, StepWorker) ==
      if s.q.c.CCopy? && |s.q.c.out| >= s.q.c.n then h.(taken := h.taken + 1) else h
  {
  }

  lemma TakenInv(cfg: Config, s: State, h: History)
    requires Inv(cfg, s, h) && s.w.WDequeuing? && s.q.c.CCopy? && |s.q.c.out| >= s.q.c.n
    ensures Inv(cfg, WorkerStep(Unbounded, cfg, s), Record(s, h, StepWorker))
  {
    TakenRecord(s, h);
    FrameTaken(cfg, s, h);
    SinksTaken(cfg, s.w, s.sinks, h.accepted, h.taken, s.w.ctx);
    TakenRest(s, h, WorkerStep(Unbounded, cfg, s).q, MessageOf(cfg, h.accepted[h.taken]));
  }

  lemma DequeueInv(cfg: Config, s: State, h: History)
    requires Inv(cfg, s, h) && s.w.WDequeuing?
    ensures Inv(cfg, WorkerStep(Unbounded, cfg, s), Record(s, h, StepWorker))
  {
    if s.q.c.CCopy? && |s.q.c.out| >= s.q.c.n {
      TakenInv(cfg, s, h);
    } else {
      TakenRecord(s, h);
      NothingTaken(cfg, s, h);
    }
  }

  /** A dequeue of a peeked entry cannot underflow. */
  lemma NothingTaken(cfg: Config, s: State, h: History)
    requires Inv(cfg, s, h) && s.w.WDequeuing? && !(s.q.c.CCopy? && |s.q.c.out| >= s.q.c.n)
    ensures var t := WorkerStep(Unbounded, cfg, s);
            && t == s.(q := t.q) && t.q.p == s.q.p && QueueOk(t.q, h.frames, h.taken)
            && Spsc.InsideDequeue(t.q.c) && t.q.c.n == s.q.c.n
  {
    DequeueEffect(s.q);
    WholeEntries(cfg, h.frames, h.accepted, h.taken, Queued(s.q));
  }

  /** One more sink is handed the message. */
  lemma SinkHanded(cfg: Config, w: Worker, sinks: seq<seq<Message>>, accepted: seq<Request>, taken: nat)
    requires SinksOk(cfg, w, sinks, accepted, taken) && w.WDeliver? && w.next < |sinks|
    ensures SinksOk(cfg, w.(next := w.next + 1), sinks[w.next := sinks[w.next] + [w.message]], accepted, taken)
  {
    assert accepted[..taken] == accepted[..taken - 1] + [accepted[taken - 1]];
    assert MessagesOf(cfg, accepted[..taken])
        == MessagesOf(cfg, accepted[..taken - 1]) + [MessageOf(cfg, accepted[taken - 1])];
  }

  lemma AllHanded(cfg: Config, w: Worker, sinks: seq<seq<Message>>, accepted: seq<Request>, taken: nat)
    requires SinksOk(cfg, w, sinks, accepted, taken) && w.WDeliver? && w.next >= |sinks|
    ensures SinksOk(cfg, AfterEntry(w.ctx), sinks, accepted, taken)
  {
    forall j | 0 <= j < |sinks|
      ensures sinks[j] == MessagesOf(cfg, accepted[..SeenBy(AfterEntry(w.ctx), taken, j)])
    {
      assert SeenBy(w, taken, j) == taken;
    }
  }

  /** Delivering does not touch the rest of the bookkeeping. */
  lemma DeliverRest(s: State, h: History, sinks: seq<seq<Message>>, w: Worker)
    requires FlushOk(s, h) && StopOk(s, h) && CountOk(s, h) && s.w.WDeliver?
    requires w == AfterEntry(s.w.ctx) || w == s.w.(next := s.w.next + 1)
    ensures var t := s.(sinks := sinks, w := w); FlushOk(t, h) && StopOk(t, h) && CountOk(t, h)
  {
  }

  lemma DeliverInv(cfg: Config, s: State, h: History)
    requires Inv(cfg, s, h) && s.w.WDeliver?
    ensures Inv(cfg, WorkerStep(Unbounded, cfg, s), h)
  {
    var t := WorkerStep(Unbounded, cfg, s);
    if s.w.next < |s.sinks| {
      SinkHanded(cfg, s.w, s.sinks, h.accepted, h.taken);
    } else {
      AllHanded(cfg, s.w, s.sinks, h.accepted, h.taken);
    }
    DeliverRest(s, h, t.sinks, t.w);
  }

  /** The loads and stores of the loop itself, outside read_and_process_one. */
  lemma LoopInv(cfg: Config, s: State, h: History)
    requires Inv(cfg, s, h)
    requires s.w.WLoadStop? || s.w.WLoadRequested? || s.w.WLoadCompleted? || s.w.WComplete?
          || s.w.WFinalLoad? || s.w.WFinalStore? || s.w.WExited?
    ensures Inv(cfg, WorkerStep(Unbounded, cfg, s), h)
  {
    var t := WorkerStep(Unbounded, cfg, s);
    assert FlushOk(t, h);
    assert StopOk(t, h);
  }

  lemma NothingRecorded(s: State, h: History)
    requires s.q.cap > 0 && !s.w.WDequeuing?
    ensures Record(s, h, StepWorker) == h
  {
  }

  lemma OtherStepInv(cfg: Config, s: State, h: History)
    requires Inv(cfg, s, h) && !Overruns(cfg, s, StepWorker) && !s.w.WDequeuing?
    ensures Inv(cfg, WorkerStep(Unbounded, cfg, s), h)
  {
    match s.w {
      case WPeek(_) => PeekCallInv(cfg, s, h);
      case WPeeking(_) => PeekingInv(cfg, s, h);
      case WDequeue(_, _) => DequeueCallInv(cfg, s, h);
      case WDeliver(_, _, _) => DeliverInv(cfg, s, h);
      case _ => LoopInv(cfg, s, h);
    }
  }

  lemma WorkerStepInv(cfg: Config, s: State, h: History)
    requires Inv(cfg, s, h) && !Overruns(cfg, s, StepWorker)
    ensures Inv(cfg, WorkerStep(Unbounded, cfg, s), Record(s, h, StepWorker))
  {
    if s.w.WDequeuing? {
      DequeueInv(cfg, s, h);
    } else {
      NothingRecorded(s, h);
      OtherStepInv(cfg, s, h);
    }
  }

  /** An entry about to be dequeued fits the ring and the payload filter. */
  lemma EntryFits(cfg: Config, s: State, h: History)
    requires Inv(cfg, s, h) && s.w.WDequeue?
    ensures ENTRY_SIZE <= s.w.n <= s.q.cap && s.w.n <= MAX_ENTRY_SIZE
  {
    WholeEntries(cfg, h.frames, h.accepted, h.taken, Queued(s.q));
    assert FrameFor(cfg, h.frames[h.taken], h.accepted[h.taken]);
  }

  /** Every step of either thread keeps the invariant, unless it overruns the dequeue buffer. */
  lemma StepInv(cfg: Config, s: State, h: History, a: Action)
    requires Inv(cfg, s, h) && GoodConfig(cfg) && GoodAction(cfg, a) && !Overruns(cfg, s, a)
    ensures Inv(cfg, Step(Unbounded, cfg, s, a), Record(s, h, a))
  {
    match a {
      case Log(req, padding) => LogInv(cfg, s, h, req, padding);
      case Flush => FlushInv(cfg, s, h);
      case StepFrontend => FrontendStepInv(cfg, s, h);
      case StepWorker => WorkerStepInv(cfg, s, h);
      case _ =>
    }
  }
}
