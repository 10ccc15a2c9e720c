/** src/include/femtolog/logging/impl/internal_logger.h as an object, with the worker it owns. */
module InternalLoggers {
  import opened Bits
  import opened Ring
  import opened Chunks
  import opened LittleEndian
  import opened LogEntries
  import opened ArgsCodec
  import opened ArgsSerializers
  import opened Protocol
  import opened ProtocolInv
  import opened SpscQueues
  import opened BackendWorkers

  /** What a log call can change. */
  datatype LoggerState = LoggerState(
    level: nat, running: bool, terminated: bool, enqueued: nat, dropped: nat,
    capacity: nat, queued: seq<byte>, received: seq<seq<Message>>)

  /** The requests queued after an enqueue attempt. */
  function Queue<T>(pending: seq<T>, x: T, ok: bool): seq<T> {
    if ok then pending + [x] else pending
  }

  /** There is room for the frame. */
  predicate HasSpace(v: LoggerState, frame: seq<byte>) {
    |v.queued| + |frame| <= v.capacity
  }

  /** enqueue_log_entry: the frame is queued whole or not at all and counted once; a fatal entry
      first lets the worker deliver everything, itself included if it was queued. */
  function EnqueueEffect(cfg: Config, v: LoggerState, frame: seq<byte>, r: Request,
        pending: seq<Request>): LoggerState {
    var ok := HasSpace(v, frame);
    var t := if ok then v.(enqueued := v.enqueued + 1, queued := v.queued + frame) else v.(dropped := v.dropped + 1);
    if r.level == FATAL && cfg.terminateOnFatal then
      t.(running := false, terminated := true, queued := [],
         received := HandAll(v.received, MessagesOf(cfg, Queue(pending, r, ok))))
    else t
  }

  function LogEffect(cfg: Config, v: LoggerState, r: Request, padding: seq<byte>, pending: seq<Request>): LoggerState {
    if r.level > v.level || !v.running then v
    else if !FitsEntry(r) then v.(dropped := v.dropped + 1)
    else EnqueueEffect(cfg, v, FrameOf(cfg, r, padding), r, pending)
  }

  predicate Passes(v: LoggerState, r: Request) {
    r.level <= v.level && v.running
  }

  predicate IsQueued(cfg: Config, v: LoggerState, r: Request, padding: seq<byte>) {
    Passes(v, r) && FitsEntry(r) && HasSpace(v, FrameOf(cfg, r, padding))
  }

  predicate Ends(cfg: Config, v: LoggerState, r: Request) {
    Passes(v, r) && FitsEntry(r) && r.level == FATAL && cfg.terminateOnFatal
  }

  /** What is pending after a log call: nothing once the logger has ended. */
  function Next<T>(cfg: Config, v: LoggerState, r: Request, padding: seq<byte>, pending: seq<T>, x: T): seq<T> {
    if Ends(cfg, v, r) then [] else Queue(pending, x, IsQueued(cfg, v, r, padding))
  }

  lemma QueueFrame(cfg: Config, q: seq<byte>, frames: seq<seq<byte>>, pending: seq<Request>, frame: seq<byte>,
        r: Request)
    requires Pending(cfg, q, frames, pending) && FrameFor(cfg, frame, r)
    ensures Pending(cfg, q + frame, frames + [frame], pending + [r])
  {
    FlattenAppend(frames, frame);
  }

  lemma QueueAttempt(cfg: Config, q: seq<byte>, frames: seq<seq<byte>>, pending: seq<Request>,
                     frame: seq<byte>, r: Request, ok: bool)
    requires Pending(cfg, q, frames, pending) && FrameFor(cfg, frame, r)
    ensures Pending(cfg, if ok then q + frame else q, Queue(frames, frame, ok), Queue(pending, r, ok))
  {
    if ok {
      QueueFrame(cfg, q, frames, pending, frame, r);
    }
  }

  /** The queue stays a list of whole frames, one per pending request. */
  lemma LogKeepsFrames(cfg: Config, v: LoggerState, r: Request, padding: seq<byte>, frames: seq<seq<byte>>,
        pending: seq<Request>)
    requires GoodConfig(cfg) && GoodRequest(cfg, r) && |padding| == 7 && Pending(cfg, v.queued, frames, pending)
    ensures Pending(cfg, LogEffect(cfg, v, r, padding, pending).queued,
              Next(cfg, v, r, padding, frames, FrameOf(cfg, r, padding)), Next(cfg, v, r, padding, pending, r))
  {
    if Passes(v, r) && FitsEntry(r) {
      FrameRoundTrip(cfg, r, padding);
      QueueFrame(cfg, v.queued, frames, pending, FrameOf(cfg, r, padding), r);
    }
  }

  /** Every call that passes the filters is counted exactly once, and what the sinks have received
      followed by what is still pending grows by exactly the requests counted as enqueued. */
  lemma LogConserves(cfg: Config, v: LoggerState, r: Request, padding: seq<byte>, pending: seq<Request>)
    ensures var t := LogEffect(cfg, v, r, padding, pending);
            && t.enqueued == v.enqueued + (if IsQueued(cfg, v, r, padding) then 1 else 0)
            && t.enqueued + t.dropped == v.enqueued + v.dropped + (if Passes(v, r) then 1 else 0)
            && HandAll(t.received, MessagesOf(cfg, Next(cfg, v, r, padding, pending, r)))
               == HandAll(v.received, MessagesOf(cfg, Queue(pending, r, t.enqueued > v.enqueued)))
  {
    var t := LogEffect(cfg, v, r, padding, pending);
    assert MessagesOf(cfg, []) == [];
    HandNothing(t.received);
  }

  /** A call is counted as enqueued exactly when the logger runs, its level passes, it takes fewer
      than 1000 bytes, and the ring has room for that and 24 bytes of header, which then are queued. */
  lemma LogCounts(cfg: Config, v: LoggerState, r: Request, padding: seq<byte>, pending: seq<Request>)
    requires GoodConfig(cfg) && GoodRequest(cfg, r) && |padding| == 7
    ensures var t := LogEffect(cfg, v, r, padding, pending);
            var passes, fits := v.running && r.level <= v.level, SizeOf(r) < 1000;
            var room := |v.queued| + 24 + SizeOf(r) <= v.capacity;
            && t.enqueued == v.enqueued + (if passes && fits && room then 1 else 0)
            && t.dropped == v.dropped + (if passes && !(fits && room) then 1 else 0)
  {
    FitsExactly(cfg, r);
    if FitsEntry(r) {
      FrameRoundTrip(cfg, r, padding);
    }
  }

  /** A fatal call of a logger set to terminate ends it, whether its entry found room or not; no
      other call does. */
  lemma FatalEnds(cfg: Config, v: LoggerState, r: Request, padding: seq<byte>, pending: seq<Request>)
    requires GoodConfig(cfg) && GoodRequest(cfg, r) && |padding| == 7
    ensures var t := LogEffect(cfg, v, r, padding, pending);
            var passes, fits := v.running && r.level <= v.level, SizeOf(r) < 1000;
            var room := |v.queued| + 24 + SizeOf(r) <= v.capacity;
            if passes && fits && r.level == 1 && cfg.terminateOnFatal
            then !t.running && t.terminated && t.queued == []
            else && t.running == v.running && t.terminated == v.terminated
                 && |t.queued| == |v.queued| + if passes && fits && room then 24 + SizeOf(r) else 0
  {
    FitsExactly(cfg, r);
    if FitsEntry(r) {
      FrameRoundTrip(cfg, r, padding);
    }
  }

  class InternalLogger {
    const cfg: Config
    const queue: SpscQueue
    const worker: BackendWorker
    const serializer: ArgsSerializer
    const entryBuffer: array<byte>
    var level: nat
    var running: bool
    var terminated: bool
    var enqueued: nat
    var dropped: nat

    ghost predicate Valid()
      reads this, worker, queue, if queue.buffer == null then {} else {queue.buffer}
    {
      && worker.queue == queue && worker.cfg == cfg && worker.Valid()
      && entryBuffer.Length == ENTRY_SIZE + MAX_PAYLOAD_SIZE
      && serializer.buffer.Length == SERIALIZER_CAPACITY
      && entryBuffer != queue.buffer && entryBuffer != worker.dequeueBuffer
      && serializer.buffer != queue.buffer && serializer.buffer != worker.dequeueBuffer
      && serializer.buffer != entryBuffer
    }

    ghost function Now(): LoggerState
      requires Valid()
      reads this, worker, queue, if queue.buffer == null then {} else {queue.buffer}
    {
      LoggerState(level, running, terminated, enqueued, dropped, queue.capacity, queue.Contents(), worker.received)
    }

    /** After init and start_worker, with an empty queue. */
    constructor (cfg: Config, queue: SpscQueue, sinks: nat, level: nat)
      requires queue.Valid() && queue.Contents() == []
      requires GoodConfig(cfg) && DequeueFits(cfg, queue.capacity) && cfg.dequeueSize < WORD
      ensures Valid() && this.cfg == cfg && this.queue == queue
      ensures Now() == LoggerState(level, true, false, 0, 0, queue.capacity, [], seq(sinks, _ => []))
    {
      this.cfg, this.queue, this.level := cfg, queue, level;
      worker := new BackendWorker(cfg, queue, sinks);
      serializer := new ArgsSerializer(SERIALIZER_CAPACITY);
      entryBuffer := new byte[ENTRY_SIZE + MAX_PAYLOAD_SIZE](_ => 0);
      running, terminated, enqueued, dropped := true, false, 0, 0;
    }

    /** `queue_.enqueue_bytes` and the counters. */
    method TryEnqueue(entry: seq<byte>) returns (ok: bool)
      requires Valid() && 0 < |entry| < WORD
      modifies this`enqueued, this`dropped, queue`tailIdx, queue`tailCached, queue`tail
      modifies queue`headCachedSnapshot, queue`headSnap
      modifies if queue.buffer == null then {} else {queue.buffer}
      ensures Valid() && ok == HasSpace(old(Now()), entry)
      ensures Now() == if ok then old(Now()).(enqueued := old(enqueued) + 1, queued := old(queue.Contents()) + entry)
                       else old(Now()).(dropped := old(dropped) + 1)
    {
      var result := queue.EnqueueBytes(entry);
      ok := result.Ok?;
      if ok {
        enqueued := enqueued + 1;
      } else {
        dropped := dropped + 1;
      }
    }

    /** `backend_worker_.stop(); std::terminate();` */
    method StopAndTerminate(ghost frames: seq<seq<byte>>, ghost pending: seq<Request>)
      requires Valid() && Pending(cfg, queue.Contents(), frames, pending)
      modifies this`running, this`terminated
      modifies worker`received, worker`completed, worker`shutdown, worker.dequeueBuffer, queue
      ensures Valid() && queue.buffer == old(queue.buffer)
      ensures Now() == old(Now()).(running := false, terminated := true, queued := [],
                                   received := HandAll(old(worker.received), MessagesOf(cfg, pending)))
    {
      worker.Shutdown(frames, pending);
      running := false;
      terminated := true;
    }

    /** enqueue_log_entry: the entry buffer starts with the frame of `r`. */
    method EnqueueLogEntry(ghost frame: seq<byte>, ghost r: Request, ghost frames: seq<seq<byte>>,
          ghost pending: seq<Request>)
      requires Valid() && Pending(cfg, queue.Contents(), frames, pending)
      requires FrameFor(cfg, frame, r) && frame <= entryBuffer[..] && DecodeHeader(frame).level == r.level
      modifies this`enqueued, this`dropped, this`running, this`terminated
      modifies worker`received, worker`completed, worker`shutdown, worker.dequeueBuffer, queue
      modifies if queue.buffer == null then {} else {queue.buffer}
      ensures Valid()
      ensures Now() == EnqueueEffect(cfg, old(Now()), frame, r, pending)
    {
      FrameInBuffer(entryBuffer[..], frame);
      var entrySize := TotalSize(entryBuffer[..2]);
      var fatal := DecodeHeader(entryBuffer[..]).level == FATAL;
      var ok := TryEnqueue(entryBuffer[..entrySize]);
      if fatal && cfg.terminateOnFatal {
        QueueAttempt(cfg, old(queue.Contents()), frames, pending, frame, r, ok);
        StopAndTerminate(Queue(frames, frame, ok), Queue(pending, r, ok));
      }
    }

    /** `LogEntry::create` in the entry buffer, then enqueue_log_entry. */
    method CreateAndEnqueue(level: nat, formatId: nat, payload: seq<byte>,
                            ghost r: Request, ghost frames: seq<seq<byte>>, ghost pending: seq<Request>)
      requires Valid() && Pending(cfg, queue.Contents(), frames, pending)
      requires GoodRequest(cfg, r) && FitsEntry(r)
      requires level == r.level && formatId == FormatId(r) && payload == Payload(r)
      modifies this`enqueued, this`dropped, this`running, this`terminated, entryBuffer
      modifies worker`received, worker`completed, worker`shutdown, worker.dequeueBuffer, queue
      modifies if queue.buffer == null then {} else {queue.buffer}
      ensures Valid()
      ensures Now() == EnqueueEffect(cfg, old(Now()), FrameOf(cfg, r, old(entryBuffer[17..ENTRY_SIZE])), r, pending)
    {
      ghost var padding := entryBuffer[17..ENTRY_SIZE];
      Create(entryBuffer, cfg.threadId, formatId, level, 0, payload);
      FrameParts(cfg, r, padding);
      FrameRoundTrip(cfg, r, padding);
      assert entryBuffer[..ENTRY_SIZE + |payload|] == FrameOf(cfg, r, padding);
      EnqueueLogEntry(FrameOf(cfg, r, padding), r, frames, pending);
    }

    method LogLiteral(level: nat, message: seq<byte>, ghost frames: seq<seq<byte>>, ghost pending: seq<Request>)
      requires Valid() && Pending(cfg, queue.Contents(), frames, pending)
      requires GoodRequest(cfg, Literal(level, message)) && level <= this.level && running
      modifies this`enqueued, this`dropped, this`running, this`terminated, entryBuffer
      modifies worker`received, worker`completed, worker`shutdown, worker.dequeueBuffer, queue
      modifies if queue.buffer == null then {} else {queue.buffer}
      ensures Valid()
      ensures Now() == LogEffect(cfg, old(Now()), Literal(level, message), old(entryBuffer[17..ENTRY_SIZE]), pending)
    {
      if |message| >= MAX_PAYLOAD_SIZE {
        dropped := dropped + 1;
        return;
      }
      CreateAndEnqueue(level, LITERAL_ID, message, Literal(level, message), frames, pending);
    }

    method LogSerialized(level: nat, formatId: nat, payload: seq<byte>,
                         ghost r: Request, ghost frames: seq<seq<byte>>, ghost pending: seq<Request>)
      requires Valid() && Pending(cfg, queue.Contents(), frames, pending)
      requires r.Formatted? && GoodRequest(cfg, r) && level == r.level <= this.level && running
      requires formatId == FormatId(r) && payload == Payload(r)
      modifies this`enqueued, this`dropped, this`running, this`terminated, entryBuffer
      modifies worker`received, worker`completed, worker`shutdown, worker.dequeueBuffer, queue
      modifies if queue.buffer == null then {} else {queue.buffer}
      ensures Valid()
      ensures Now() == LogEffect(cfg, old(Now()), r, old(entryBuffer[17..ENTRY_SIZE]), pending)
    {
      if |payload| >= MAX_PAYLOAD_SIZE || |payload| == 0 {
        dropped := dropped + 1;
        return;
      }
      CreateAndEnqueue(level, formatId, payload, r, frames, pending);
    }

    /** `serializer_.serialize(args...)`. */
    method SerializeArgs(site: CallSite, args: seq<Value>, ghost level: nat) returns (payload: seq<byte>)
      requires Valid() && GoodSite(cfg, site) && HaveTypes(args, site.types)
      modifies serializer, serializer.buffer
      ensures Valid() && payload == Payload(Formatted(level, site, args))
    {
      var header := ToBytes(site.formatFn, 8) + ToBytes(site.readerFn, 8);
      serializer.Serialize(site.refMode, header, site.types, args);
      payload := serializer.buffer[..serializer.size];
    }

    /** The level filter, the running test, then the literal or the serialized form. */
    method Log(r: Request, ghost frames: seq<seq<byte>>, ghost pending: seq<Request>)
      requires Valid() && Pending(cfg, queue.Contents(), frames, pending) && GoodRequest(cfg, r)
      modifies this`enqueued, this`dropped, this`running, this`terminated, entryBuffer, serializer, serializer.buffer
      modifies worker`received, worker`completed, worker`shutdown, worker.dequeueBuffer, queue
      modifies if queue.buffer == null then {} else {queue.buffer}
      ensures Valid()
      ensures Now() == LogEffect(cfg, old(Now()), r, old(entryBuffer[17..ENTRY_SIZE]), pending)
      ensures var passes, size := old(running) && r.level <= old(level), SizeOf(r);
              var queued := passes && size < 1000 && |old(queue.Contents())| + 24 + size <= queue.capacity;
              && enqueued == old(enqueued) + (if queued then 1 else 0)
              && dropped == old(dropped) + (if passes && !queued then 1 else 0)
    {
      LogCounts(cfg, Now(), r, entryBuffer[17..ENTRY_SIZE], pending);
      if r.level > level {
        return;
      }
      if !running {
        return;
      }
      match r {
        case Literal(l, text) =>
          LogLiteral(l, text, frames, pending);
        case Formatted(l, site, args) =>
          var payload := SerializeArgs(site, args, l);
          LogSerialized(l, StringId(site.hash), payload, r, frames, pending);
      }
    }
  }

  /** The entry at the start of a larger buffer is read as if it stood alone. */
  lemma FrameInBuffer(buffer: seq<byte>, frame: seq<byte>)
    requires IsFrame(frame) && frame <= buffer
    ensures TotalSize(buffer[..2]) == |frame| && buffer[..|frame|] == frame
    ensures DecodeHeader(buffer) == DecodeHeader(frame)
  {
    assert buffer[..2] == frame[..2] && buffer[2..4] == frame[2..4] && buffer[4..8] == frame[4..8];
    assert buffer[8..16] == frame[8..16] && buffer[16..17] == frame[16..17];
  }
}
