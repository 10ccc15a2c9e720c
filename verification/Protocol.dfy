/** The logger as two threads over the byte ring: a frontend that logs, flushes and stops
    (src/include/femtolog/logging/impl/internal_logger.h) and the worker that drains the ring into
    the sinks (src/logging/impl/backend_worker.cc). Every queue operation inside is the byte-by-byte
    machine of `SpscMachine`, so all interleavings of its steps are covered. */
module Protocol {
  import opened Bits
  import opened Ring
  import opened LittleEndian
  import opened LogEntries
  import opened ArgsCodec
  import Spsc = SpscMachine

  // ------------------------------------------------------------------ what is logged

  /** get_string_id: a format id is never the literal id. */
  function StringId(hash: nat): nat {
    if hash == LITERAL_ID then LITERAL_ID - 1 else hash
  }

  /** A `log` call with arguments: its format string's hash, the two function addresses stored in
      the payload, and the argument types compiled into the second of them. */
  datatype CallSite = CallSite(hash: nat, formatFn: nat, readerFn: nat, refMode: bool, types: seq<ArgType>)

  datatype Request =
    | Literal(level: nat, text: seq<byte>)
    | Formatted(level: nat, site: CallSite, args: seq<Value>)

  /** What a sink receives: literal text, or the formatter and the arguments it is applied to. */
  datatype Body = TextBody(text: seq<byte>) | ArgsBody(formatFn: nat, args: seq<Arg>)

  datatype Message = Message(level: nat, threadId: nat, formatId: nat, body: Body)

  /** `readers` says which mode and types each deserialize function was compiled for. */
  datatype Config = Config(
    threadId: nat, terminateOnFatal: bool, dequeueSize: nat,
    readers: map<nat, (bool, seq<ArgType>)>)

  const SERIALIZER_CAPACITY: nat := 2048
  const FATAL: nat := 1

  predicate GoodSite(cfg: Config, site: CallSite) {
    && site.hash < 0x1_0000
    && 0 < site.formatFn < WORD && 0 < site.readerFn < WORD
    && site.readerFn in cfg.readers && cfg.readers[site.readerFn] == (site.refMode, site.types)
    && HEADER_SIZE + FixedSizes(site.refMode, site.types) <= SERIALIZER_CAPACITY
  }

  predicate GoodRequest(cfg: Config, r: Request) {
    && r.level < 0x100
    && (r.Formatted? ==> GoodSite(cfg, r.site) && HaveTypes(r.args, r.site.types))
  }

  /** A thread id is a 32-bit value. */
  predicate GoodConfig(cfg: Config) {
    cfg.threadId < 0x1_0000_0000
  }

  /** The largest entry that passes the payload filter. */
  const MAX_ENTRY_SIZE: nat := ENTRY_SIZE + MAX_PAYLOAD_SIZE - 1

  /** The dequeue buffer holds every entry that fits the ring. */
  predicate DequeueFits(cfg: Config, cap: nat) {
    cap < ENTRY_SIZE || cfg.dequeueSize >= if cap < MAX_ENTRY_SIZE then cap else MAX_ENTRY_SIZE
  }

  /** The payload the frontend builds; the serializer gives up with an empty result. */
  function Payload(r: Request): seq<byte> {
    match r
    case Literal(_, text) => text
    case Formatted(_, site, args) =>
      if !site.refMode && PlannedSize(site.refMode, site.types, args) >= SERIALIZER_CAPACITY then []
      else ToBytes(site.formatFn, 8) + ToBytes(site.readerFn, 8) + EncodeArgs(site.refMode, args)
  }

  /** The size filter of `log_literal` and `log_serialized`. */
  predicate FitsEntry(r: Request) {
    |Payload(r)| < MAX_PAYLOAD_SIZE && (r.Formatted? ==> |Payload(r)| > 0)
  }

  /** What a request takes in its entry, by the sizes of what is passed: the text, or two addresses
      and the arguments. */
  function SizeOf(r: Request): nat {
    match r
    case Literal(_, text) => |text|
    case Formatted(_, site, args) => 16 + ArgsBytes(site.refMode, args)
  }

  function FormatId(r: Request): nat {
    if r.Literal? then LITERAL_ID else StringId(r.site.hash)
  }

  function FrameOf(cfg: Config, r: Request, padding: seq<byte>): seq<byte> {
    Frame(cfg.threadId, FormatId(r), r.level, 0, padding, Payload(r))
  }

  /** What every sink should be handed for a request. */
  function MessageOf(cfg: Config, r: Request): Message {
    Message(r.level, cfg.threadId, FormatId(r),
      match r
      case Literal(_, text) => TextBody(text)
      case Formatted(_, site, args) => ArgsBody(site.formatFn, PassedAll(site.refMode, args)))
  }

  function MessagesOf(cfg: Config, rs: seq<Request>): (ms: seq<Message>)
    ensures |ms| == |rs|
  {
    seq(|rs|, i requires 0 <= i < |rs| => MessageOf(cfg, rs[i]))
  }

  // ------------------------------------------------------------ process_log_entry

  /** Undefined stands for leaving the entry, the stack buffer or the known functions. */
  datatype Outcome = Deliver(message: Message) | Skip | Undefined

  function ProcessEntry(cfg: Config, entry: seq<byte>): Outcome {
    if |entry| < ENTRY_SIZE then Undefined
    else
      var h := DecodeHeader(entry);
      var payload := entry[ENTRY_SIZE..];
      if h.payloadLen > |payload| then Undefined
      else if h.formatId == LITERAL_ID then
        // buf[n] = '\0' needs n below the buffer size
        var n := if MAX_PAYLOAD_SIZE < h.payloadLen then MAX_PAYLOAD_SIZE else h.payloadLen;
        if n < MAX_PAYLOAD_SIZE then Deliver(Message(h.level, h.threadId, h.formatId, TextBody(payload[..n])))
        else Undefined
      else if |payload| < HEADER_SIZE then Undefined
      else
        var formatFn, readerFn := FromBytes(payload[..8]), FromBytes(payload[8..16]);
        if formatFn == 0 || readerFn == 0 then Skip
        else if readerFn !in cfg.readers then Undefined
        else
          var (refMode, types) := cfg.readers[readerFn];
          match Deserialize(refMode, types, payload[HEADER_SIZE..])
          case None => Undefined
          case Some(args) => Deliver(Message(h.level, h.threadId, h.formatId, ArgsBody(formatFn, args)))
  }

  // ---------------------------------------------------------------------- the threads

  datatype Frontend =
    | FReady
    | FEnqueue(req: Request)                 // inside queue_.enqueue_bytes
    | FFlush(ticket: nat)                    // waiting for flush_completed_seq_
    | FStop(terminating: bool)               // about to set shutdown_required_
    | FJoin(terminating: bool)               // joining the worker thread
    | FStopped
    | FTerminated

  /** Which loop of the worker reads the queue. */
  datatype Context = Main | Flushing(req: nat) | Final

  datatype Worker =
    | WLoadStop
    | WLoadRequested
    | WLoadCompleted(req: nat)
    | WPeek(ctx: Context)
    | WPeeking(ctx: Context)
    | WDequeue(ctx: Context, n: nat)
    | WDequeuing(ctx: Context, n: nat)
    | WDeliver(ctx: Context, message: Message, next: nat)
    | WComplete(req: nat)
    | WFinalLoad
    | WFinalStore(req: nat)
    | WExited

  datatype State = State(
    q: Spsc.State,
    stop: bool, requested: nat, completed: nat,
    level: nat, enqueued: nat, dropped: nat,
    f: Frontend, w: Worker,
    sinks: seq<seq<Message>>,
    fault: bool)

  datatype Action =
    | Log(req: Request, padding: seq<byte>)
    | SetLevel(level: nat)
    | Flush
    | Stop
    | StepFrontend
    | StepWorker

  /** After `init`, `register_sink` and `start`. */
  function Init(cap: nat, buf: seq<byte>, sinks: nat, level: nat): State {
    State(Spsc.Init(cap, buf), false, 0, 0, level, 0, 0, FReady, WLoadStop, seq(sinks, _ => []), false)
  }

  function FrontendStep(w: Width, cfg: Config, s: State): State
    requires s.q.cap > 0
  {
    match s.f
    case FEnqueue(req) => (
      var q := Spsc.Step(w, s.q, Spsc.StepProducer);
      if !q.p.PDone? then s.(q := q)
      else
        s.(q := q,
           enqueued := if q.p.status.Ok? then s.enqueued + 1 else s.enqueued,
           dropped := if q.p.status.Ok? then s.dropped else s.dropped + 1,
           f := if req.level == FATAL && cfg.terminateOnFatal then FStop(true) else FReady))
    case FFlush(ticket) => if s.completed < ticket then s else s.(f := FReady)
    case FStop(terminating) => s.(stop := true, f := FJoin(terminating))
    case FJoin(terminating) =>
      if !s.w.WExited? then s else s.(f := if terminating then FTerminated else FStopped)
    case _ => s
  }

  /** read_and_process_one returned true. */
  function AfterEntry(ctx: Context): Worker {
    if ctx.Main? then WLoadStop else WPeek(ctx)
  }

  /** read_and_process_one returned false. */
  function AfterNothing(ctx: Context): Worker {
    match ctx
    case Main => WLoadStop
    case Flushing(req) => WComplete(req)
    case Final => WFinalLoad
  }

  function WorkerStep(w: Width, cfg: Config, s: State): State
    requires s.q.cap > 0
  {
    match s.w
    case WLoadStop => s.(w := if s.stop then WPeek(Final) else WLoadRequested)
    case WLoadRequested => s.(w := WLoadCompleted(s.requested))
    case WLoadCompleted(req) => s.(w := WPeek(if req > s.completed then Flushing(req) else Main))
    case WPeek(ctx) => s.(q := Spsc.Step(w, s.q, Spsc.CallPeek(2)), w := WPeeking(ctx))
    case WPeeking(ctx) => (
      var q := Spsc.Step(w, s.q, Spsc.StepConsumer);
      s.(q := q,
         w := if !q.c.CDone? then s.w
              else if q.c.status.Ok? then WDequeue(ctx, TotalSize(q.c.out))
              else AfterNothing(ctx)))
    case WDequeue(ctx, n) =>
      s.(q := Spsc.Step(w, s.q, Spsc.CallDequeue(n)), w := WDequeuing(ctx, n),
         fault := s.fault || n > cfg.dequeueSize)
    case WDequeuing(ctx, n) => (
      var q := Spsc.Step(w, s.q, Spsc.StepConsumer);
      if !q.c.CDone? then s.(q := q)
      else if !q.c.status.Ok? then s.(q := q, w := AfterNothing(ctx))
      else
        match ProcessEntry(cfg, q.c.out)
        case Deliver(m) => s.(q := q, w := WDeliver(ctx, m, 0))
        case Skip => s.(q := q, w := AfterEntry(ctx))
        case Undefined => s.(q := q, w := AfterEntry(ctx), fault := true))
    case WDeliver(ctx, m, k) =>
      if k < |s.sinks| then s.(sinks := s.sinks[k := s.sinks[k] + [m]], w := WDeliver(ctx, m, k + 1))
      else s.(w := AfterEntry(ctx))
    case WComplete(req) => s.(completed := req, w := WPeek(Main))
    case WFinalLoad => s.(w := WFinalStore(s.requested))
    case WFinalStore(req) => s.(completed := req, w := WExited)
    case WExited => s
  }

  function Step(w: Width, cfg: Config, s: State, a: Action): (t: State)
    requires s.q.cap > 0
    ensures t.q.cap == s.q.cap && |t.sinks| == |s.sinks|
  {
    match a
    case Log(req, padding) =>
      if !s.f.FReady? || req.level > s.level then s
      else if !FitsEntry(req) then s.(dropped := s.dropped + 1)
      else s.(q := Spsc.Step(w, s.q, Spsc.CallEnqueue(FrameOf(cfg, req, padding))), f := FEnqueue(req))
    case SetLevel(level) => if s.f.FReady? then s.(level := level) else s
    case Flush => if !s.f.FReady? then s else s.(requested := s.requested + 1, f := FFlush(s.requested + 1))
    case Stop => if !s.f.FReady? then s else s.(f := FStop(false))
    case StepFrontend => FrontendStep(w, cfg, s)
    case StepWorker => WorkerStep(w, cfg, s)
  }

  /** The worker's next step dequeues more bytes than its buffer has. */
  predicate Overruns(cfg: Config, s: State, a: Action) {
    a.StepWorker? && s.w.WDequeue? && s.w.n > cfg.dequeueSize
  }

  predicate GoodAction(cfg: Config, a: Action) {
    a.Log? ==> GoodRequest(cfg, a.req) && |a.padding| == 7
  }

  predicate GoodSchedule(cfg: Config, sched: seq<Action>) {
    forall a :: a in sched ==> GoodAction(cfg, a)
  }

  // ------------------------------------------------------------------------- history

  /** What the proof remembers: the requests whose enqueue succeeded, their frames, how many
      frames were dequeued, how many requests were accepted at each flush request, and how many
      log calls passed the level filter. */
  datatype History = History(
    accepted: seq<Request>, frames: seq<seq<byte>>, taken: nat, marks: seq<nat>, calls: nat)

  const EMPTY_HISTORY: History := History([], [], 0, [], 0)

  function Record(s: State, h: History, a: Action): History
    requires s.q.cap > 0
  {
    match a
    case Log(req, _) => if !s.f.FReady? || req.level > s.level then h else h.(calls := h.calls + 1)
    case Flush => if !s.f.FReady? then h else h.(marks := h.marks + [|h.accepted|])
    case StepFrontend =>
      if s.f.FEnqueue? && s.q.p.PCopy? && s.q.p.done >= |s.q.p.data| then
        h.(accepted := h.accepted + [s.f.req], frames := h.frames + [s.q.p.data])
      else h
    case StepWorker =>
      if s.w.WDequeuing? && s.q.c.CCopy? && |s.q.c.out| >= s.q.c.n then h.(taken := h.taken + 1)
      else h
    case _ => h
  }
}
