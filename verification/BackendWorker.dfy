/** src/logging/impl/backend_worker.cc as an object. Its methods run without interference from the
    frontend; `Protocol` covers the interleavings. */
module BackendWorkers {
  import opened Bits
  import opened Ring
  import opened Chunks
  import opened LittleEndian
  import opened LogEntries
  import opened ArgsCodec
  import opened Protocol
  import opened ProtocolInv
  import opened SpscQueues

  /** Every sink is handed `ms`, after what it has already received. */
  function HandAll(received: seq<seq<Message>>, ms: seq<Message>): (r: seq<seq<Message>>)
    ensures |r| == |received|
  {
    seq(|received|, j requires 0 <= j < |received| => received[j] + ms)
  }

  /** Handing out a list is handing out its first message and then the rest. */
  lemma HandFirst(cfg: Config, received: seq<seq<Message>>, rs: seq<Request>)
    ensures rs != [] ==>
      HandAll(HandAll(received, [MessageOf(cfg, rs[0])]), MessagesOf(cfg, rs[1..]))
        == HandAll(received, MessagesOf(cfg, rs))
  {
    if rs != [] {
      var m, ms := MessageOf(cfg, rs[0]), MessagesOf(cfg, rs[1..]);
      assert MessagesOf(cfg, rs) == [m] + ms;
      forall j | 0 <= j < |received| ensures received[j] + [m] + ms == received[j] + ([m] + ms) {
      }
    }
  }

  lemma HandNothing(received: seq<seq<Message>>)
    ensures HandAll(received, []) == received
  {
    forall j | 0 <= j < |received| ensures received[j] + [] == received[j] {
    }
  }

  /** `q` is the frames of the pending requests, in order. */
  ghost predicate Pending(cfg: Config, q: seq<byte>, frames: seq<seq<byte>>, pending: seq<Request>) {
    FramesOk(cfg, frames, pending) && q == Flatten(frames)
  }

  /** The next entry of a queue of whole frames. */
  lemma NextEntry(cfg: Config, q: seq<byte>, frames: seq<seq<byte>>, pending: seq<Request>)
    requires Pending(cfg, q, frames, pending)
    ensures |q| < 2 <==> pending == []
    ensures pending != [] ==>
      && 2 <= |frames[0]| <= |q| && q[..|frames[0]|] == frames[0]
      && TotalSize(q[..2]) == |frames[0]| <= MAX_ENTRY_SIZE && IsFrame(frames[0])
      && ProcessEntry(cfg, frames[0]) == Deliver(MessageOf(cfg, pending[0]))
      && Pending(cfg, q[|frames[0]|..], frames[1..], pending[1..])
  {
    assert frames[0..] == frames;
    WholeEntries(cfg, frames, pending, 0, q);
    if pending != [] {
      assert FrameFor(cfg, frames[0], pending[0]);
    }
  }

  class BackendWorker {
    const cfg: Config
    const queue: SpscQueue
    const dequeueBuffer: array<byte>
    // What `on_log` handed to each registered sink
    var received: seq<seq<Message>>
    var requested: nat
    var completed: nat
    var shutdown: bool

    ghost predicate Valid()
      reads this, queue, if queue.buffer == null then {} else {queue.buffer}
    {
      && queue.Valid() && GoodConfig(cfg) && DequeueFits(cfg, queue.capacity)
      && cfg.dequeueSize == dequeueBuffer.Length < WORD && dequeueBuffer != queue.buffer
      && completed <= requested
    }

    /** After init, register_sink and start. */
    constructor (cfg: Config, queue: SpscQueue, sinks: nat)
      requires queue.Valid() && GoodConfig(cfg) && DequeueFits(cfg, queue.capacity) && cfg.dequeueSize < WORD
      ensures Valid() && this.cfg == cfg && this.queue == queue && fresh(dequeueBuffer)
      ensures received == seq(sinks, _ => []) && requested == completed == 0 && !shutdown
    {
      this.cfg, this.queue := cfg, queue;
      dequeueBuffer := new byte[cfg.dequeueSize](_ => 0);
      received := seq(sinks, _ => []);
      requested, completed, shutdown := 0, 0, false;
    }

    /** `for (const auto& sink : sinks_) sink->on_log(...)`. */
    method HandOut(m: Message)
      modifies this`received
      ensures received == HandAll(old(received), [m])
    {
      var was := received;
      for k := 0 to |was|
        invariant |received| == |was|
        invariant forall j :: 0 <= j < |was| ==> received[j] == if j < k then was[j] + [m] else was[j]
      {
        received := received[k := received[k] + [m]];
      }
    }

    /** A literal is copied to a stack buffer and terminated there. */
    method ProcessLiteral(entry: seq<byte>, h: Header)
      requires IsFrame(entry) && h == DecodeHeader(entry) && h.formatId == LITERAL_ID
      requires h.payloadLen < MAX_PAYLOAD_SIZE
      modifies this`received
      ensures ProcessEntry(cfg, entry)
           == Deliver(Message(h.level, h.threadId, h.formatId, TextBody(entry[ENTRY_SIZE..])))
      ensures received == HandAll(old(received), [ProcessEntry(cfg, entry).message])
    {
      var buf := new byte[MAX_PAYLOAD_SIZE];
      var n := CopyRawPayload(entry, buf, MAX_PAYLOAD_SIZE);
      buf[n] := 0;
      assert h.payloadLen == |entry| - ENTRY_SIZE == n;
      assert entry[ENTRY_SIZE..][..n] == entry[ENTRY_SIZE..];
      assert entry[ENTRY_SIZE..][..n] == entry[ENTRY_SIZE..ENTRY_SIZE + n] == buf[..n];
      HandOut(Message(h.level, h.threadId, h.formatId, TextBody(buf[..n])));
    }

    /** process_log_entry; a header with a null function pointer is skipped. */
    method ProcessLogEntry(entry: seq<byte>)
      requires IsFrame(entry) && !ProcessEntry(cfg, entry).Undefined?
      modifies this`received
      ensures received == match ProcessEntry(cfg, entry)
                          case Deliver(m) => HandAll(old(received), [m])
                          case Skip => old(received)
    {
      var h := DecodeHeader(entry);
      if h.formatId == LITERAL_ID {
        ProcessLiteral(entry, h);
      } else {
        var payload := entry[ENTRY_SIZE..];
        var formatFn, readerFn := FromBytes(payload[..8]), FromBytes(payload[8..16]);
        if formatFn == 0 || readerFn == 0 {
          return;
        }
        var (refMode, types) := cfg.readers[readerFn];
        var args := Deserialize(refMode, types, payload[HEADER_SIZE..]);
        HandOut(Message(h.level, h.threadId, h.formatId, ArgsBody(formatFn, args.value)));
      }
    }

    /** The size of the next entry, from the two bytes of its length field. */
    method PeekSize() returns (found: bool, size: nat)
      requires Valid() && (queue.buffer == null ==> queue.Contents() == [])
      ensures found == (|queue.Contents()| >= 2)
      ensures found ==> size == TotalSize(queue.Contents()[..2])
    {
      var lengthField := new byte[2];
      var status := queue.PeekBytes(lengthField, 2);
      assert lengthField[..] == lengthField[..2];
      found, size := status.Ok?, TotalSize(lengthField[..]);
    }

    /** Peek the length, dequeue the whole entry, process it. On a queue of whole frames this fails
        only when nothing is pending. */
    method ReadAndProcessOne(ghost frames: seq<seq<byte>>, ghost pending: seq<Request>) returns (done: bool)
      requires Valid() && Pending(cfg, queue.Contents(), frames, pending)
      modifies this`received, queue, dequeueBuffer
      ensures Valid() && queue.buffer == old(queue.buffer) && queue.capacity == old(queue.capacity)
      ensures done == (pending != [])
      ensures done ==>
        && Pending(cfg, queue.Contents(), frames[1..], pending[1..])
        && received == HandAll(old(received), [MessageOf(cfg, pending[0])])
      ensures !done ==> received == old(received) && queue.Contents() == old(queue.Contents())
    {
      NextEntry(cfg, queue.Contents(), frames, pending);
      var found, totalSize := PeekSize();
      if !found {
        return false;
      }
      var status := queue.DequeueBytes(dequeueBuffer, totalSize);
      if !status.Ok? {
        return false;
      }
      ProcessLogEntry(dequeueBuffer[..totalSize]);
      return true;
    }

    /** flush_impl: drains the queue; every sink receives everything pending, in order. */
    method FlushImpl(ghost frames: seq<seq<byte>>, ghost pending: seq<Request>)
      requires Valid() && Pending(cfg, queue.Contents(), frames, pending)
      modifies this`received, queue, dequeueBuffer
      ensures Valid() && queue.buffer == old(queue.buffer) && queue.capacity == old(queue.capacity)
      ensures queue.Contents() == [] && received == HandAll(old(received), MessagesOf(cfg, pending))
    {
      ghost var fs, ps := frames, pending;
      var more := true;
      while more
        invariant Valid() && queue.buffer == old(queue.buffer) && queue.capacity == old(queue.capacity)
        invariant Pending(cfg, queue.Contents(), fs, ps)
        invariant HandAll(received, MessagesOf(cfg, ps)) == HandAll(old(received), MessagesOf(cfg, pending))
        invariant !more ==> ps == []
        decreases |ps|, more
      {
        HandFirst(cfg, received, ps);
        more := ReadAndProcessOne(fs, ps);
        if more {
          fs, ps := fs[1..], ps[1..];
        }
      }
      HandNothing(received);
      assert MessagesOf(cfg, ps) == [];
    }

    /** One pass of the loop in run_loop that finds no shutdown request. */
    method LoopPass(ghost frames: seq<seq<byte>>, ghost pending: seq<Request>)
      requires Valid() && Pending(cfg, queue.Contents(), frames, pending)
      modifies this`received, this`completed, queue, dequeueBuffer
      ensures Valid() && queue.buffer == old(queue.buffer) && queue.capacity == old(queue.capacity)
      ensures completed == if requested > old(completed) then requested else old(completed)
      ensures requested > old(completed) ==>
        queue.Contents() == [] && received == HandAll(old(received), MessagesOf(cfg, pending))
      ensures requested <= old(completed) && pending != [] ==>
        && Pending(cfg, queue.Contents(), frames[1..], pending[1..])
        && received == HandAll(old(received), [MessageOf(cfg, pending[0])])
      ensures requested <= old(completed) && pending == [] ==>
        queue.Contents() == [] && received == old(received)
    {
      ghost var fs, ps := frames, pending;
      var req := requested;
      var finished := completed;
      if req > finished {
        FlushImpl(frames, pending);
        completed := req;
        fs, ps := [], [];
      }
      var dequeued := ReadAndProcessOne(fs, ps);
    }

    /** flush(): take a ticket and wait until it is completed, while the worker's loop makes passes. */
    method Flush(ghost frames: seq<seq<byte>>, ghost pending: seq<Request>)
      requires Valid() && Pending(cfg, queue.Contents(), frames, pending)
      modifies this`received, this`requested, this`completed, queue, dequeueBuffer
      ensures Valid() && queue.buffer == old(queue.buffer) && queue.capacity == old(queue.capacity)
      ensures completed == requested == old(requested) + 1
      ensures queue.Contents() == [] && received == HandAll(old(received), MessagesOf(cfg, pending))
      ensures forall j :: 0 <= j < |received| ==> received[j] == old(received)[j] + MessagesOf(cfg, pending)
    {
      requested := requested + 1;
      var ticket := requested;
      while completed < ticket
        invariant Valid() && queue.buffer == old(queue.buffer) && queue.capacity == old(queue.capacity)
        invariant requested == ticket == old(requested) + 1
        invariant if completed < ticket
                  then received == old(received) && Pending(cfg, queue.Contents(), frames, pending)
                  else queue.Contents() == [] && received == HandAll(old(received), MessagesOf(cfg, pending))
      {
        LoopPass(frames, pending);
      }
    }

    /** The end of run_loop after a shutdown request: drain, then answer every flush request. */
    method Shutdown(ghost frames: seq<seq<byte>>, ghost pending: seq<Request>)
      requires Valid() && Pending(cfg, queue.Contents(), frames, pending)
      modifies this`received, this`completed, this`shutdown, queue, dequeueBuffer
      ensures Valid() && queue.buffer == old(queue.buffer) && queue.capacity == old(queue.capacity)
      ensures shutdown && completed == requested
      ensures queue.Contents() == [] && received == HandAll(old(received), MessagesOf(cfg, pending))
      ensures forall j :: 0 <= j < |received| ==> received[j] == old(received)[j] + MessagesOf(cfg, pending)
    {
      shutdown := true;
      FlushImpl(frames, pending);
      completed := requested;
    }
  }
}
