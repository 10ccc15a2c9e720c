# femtolog: a verified model

femtolog is an asynchronous logger. A frontend thread serializes the arguments of a log call into a
framed entry and pushes its bytes through a ring buffer; one worker thread drains the ring into
sinks. This project models that path, and the stand-alone text algorithms beside it, and proves what
they are for.

Verify with `dafny verify dfyconfig.toml`.

## How it is organised

- **Arithmetic.** `Bits` and `Ring` hold powers of two, masks, 64-bit wrap-around and the slots of a
  ring. `Width` selects between the code's 64-bit arithmetic and the unbounded reading it is compared
  with.
- **The byte ring, twice.** `SpscMachine` is a machine of two threads with program counters in which
  each atomic access is one step and each copy moves one byte a step; it refines an atomic bounded
  first-in first-out queue, and `SpscWord` carries that over to wrapping 64-bit indices. `SpscCalls` ties
  the bytes and sizes of each call to its effect.
  `SpscQueues.SpscQueue` is the object: an in-place buffer, index fields, cached snapshots, bulk forms.
- **The ticket ring, twice.** `SpmcMachine`, `SpmcRuns` and `SpmcWord` are the machine of one producer
  and any number of consumers; `SpmcCalls` ties each call to its effect, `SpmcProgress` shows that the commit spin ends under every schedule and
  `SpmcTickets` that the ticket hypothesis is exact. `SpmcQueues.SpmcQueue` is the object, with the
  claim of a ticket, the copy and the commit spin as separate operations.
- **Arguments and entries.** `ArgsCodec` and `ArgsSerializers` write and read argument lists,
  `ArgsOrder` is about the order of the reads, `LogEntries` is the 24-byte header and the payload.
- **The logger.** `Protocol` puts a frontend and a worker on top of the byte-by-byte ring,
  `ProtocolInv` proves the invariant, `ProtocolWord` the lock step with 64-bit indices,
  `ProtocolOrder` and `ProtocolRuns` the guarantees over whole runs, `ProtocolCalls` what each call of the
  logger does, `ProtocolProgress` that flush and stop cannot hang, `ProtocolDelivery` that the worker
  delivers everything without them, and `ProtocolOverrun` which dequeue buffers are large enough. `InternalLoggers` and
  `BackendWorkers` are the two objects, method by method.
- **Text and files.** `Escape`, `Split`, `Lines`, `Brackets`, `Utf8`, `FileSinks`.

Proofs about machines are done on unbounded indices, where differences and slots are plain
arithmetic, and then carried to 64-bit indices by a lock-step lemma, so that the final theorems are
about wrapping arithmetic and hold across index overflow.

`History` values are what a proof remembers about a run (accepted requests, published bytes, open
tickets); the machines never read them.

## Findings

- `remove_bracket` sizes its stack as min(length / 2, limit) but bounds the index by the limit only.
  `Brackets.StackSufficesExactly` gives the exact condition under which the stack is large enough, and
  `Brackets.OnlyOpeningBrackets` the family `"(("`, `"((("`, … that overruns it. Every well-nested
  text is safe, and so is every text of which at most half the characters open a bracket.
- `FileSink::on_log` copies into its buffer even when the descriptor is closed and the flush did
  nothing. `FileSinks.ClosedFits` says exactly how long that stays within the buffer.
- The worker dequeues into a buffer whose size is an option. `ProtocolOverrun.DequeueBufferBound`: no run
  overruns it exactly when it has at least min(ring capacity, 1023) bytes or the ring holds no entry
  at all. The memory-saving preset in `src/include/femtolog/options.h` has 512 bytes for a ring of 1024.
- The reader for five and more arguments advances a captured offset inside the arguments of
  `make_tuple`, whose order of evaluation C++ leaves open. `ArgsOrder.RightToLeftExactly`: from right
  to left the list comes back as passed exactly when the reversed list has the same encoding.
- The ticket queue is safe exactly as long as every ticket is taken with the head not past the tail and
  with no consumer between a failed check and its rewind (`SpmcTickets.DisciplinedExactly`). Past the
  tail, `tail - ticket` wraps and the check passes with none of the ticket's bytes published
  (`SpmcTickets.TicketPastTail`); before a rewind, the rewind gives back the end of the new ticket
  instead of the failed one, so that bytes belong to nobody and the next ticket overlaps
  (`SpmcTickets.TicketBeforeRewind`). `SpmcTickets.TicketPastTailBreaks` and
  `SpmcTickets.TicketBeforeRewindBreaks` are runs after which nobody ever commits again, whatever
  happens later.
- `src/include/femtolog/options.h` says that a fatal entry ends the program when the worker receives it;
  in the code the frontend stops the worker, which delivers everything first, and then ends the program
  itself. The model follows the code.

## Model

| member | source | states |
|---|---|---|
| Bits.NextPowerOf2Least | src/include/femtolog/logging/impl/spsc_queue.h:122-132 | the result is a power of two, at least max(n, 2), and no smaller power of two is |
| Bits.BitAndBits | src/include/femtolog/logging/impl/spsc_queue.h:126 | the recursive `&` sets a bit exactly when both operands have it |
| Ring.SplitCopySlot | src/logging/impl/spsc_queue.cc:85-95 | copying to the end of the buffer and then from its start visits index mod capacity, byte by byte, masked or not |
| Ring.SameTests | src/logging/impl/spsc_queue.cc:72-82 | both size tests answer on 64-bit indices what they answer on true indices, across overflow |
| Ring.ChunkSlot | src/logging/impl/spmc_queue.cc:262-277 | a chunk's copy at `idx + offset` visits, byte by byte, the slots of one copy of the total: the machines' single operations are also the bulk ones |
| RingCopy.CopyIn | src/logging/impl/spsc_queue.cc:85-95 | the split copy in stores the data at its slots and touches no byte that may still be read |
| RingCopy.CopyOut | src/logging/impl/spsc_queue.cc:128-139 | the split copy out yields exactly the bytes of the ring from that index and leaves the rest of the destination |
| SpscMachine.StepRefines | src/logging/impl/spsc_queue.cc:63-179 | every step of either thread keeps the invariant and is a step of the atomic bounded queue: enqueue at the tail store, dequeue at the head store, Overflow and Underflow only if true at the reload |
| SpscMachine.RunRefines | src/logging/impl/spsc_queue.cc:63-179 | every interleaving is a run of the atomic queue, from the contents before to the contents after |
| SpscMachine.ReturnIsEffect | src/logging/impl/spsc_queue.cc:97-103 | a call returns at exactly the step where it takes effect, with that effect's status and the bytes it holds (SpscCalls.EffectsAnswerCalls: those it was made with) |
| SpscMachine.SlotsDisjoint | src/logging/impl/spsc_queue.cc:72-102 | an index free to the producer never has the slot of an index that is still published |
| SpscMachine.FifoConserves | src/logging/impl/spsc_queue.cc:63-147 | along any history of the atomic queue: contents before plus sent equals received plus contents after |
| SpscWord.WordRun | src/logging/impl/spsc_queue.cc:72-102 | the 64-bit machine and the unbounded one agree on all statuses, bytes and effects for ever |
| SpscWord.ReachableIndices | src/logging/impl/spsc_queue.cc:72-145 | in every reachable state of the compiled ring: head snapshot <= head <= tail snapshot <= tail <= head snapshot + capacity on the true indices that the words stand for |
| SpscWord.CopiesNeverMeet | src/logging/impl/spsc_queue.cc:84-140 | in every run of the compiled ring, while both threads copy, no slot one of them writes is a slot the other reads |
| SpscWord.SpscRefinesFifo | src/logging/impl/spsc_queue.cc:63-179 | the compiled ring, every interleaving from a fresh reserve: its effects are legal for the atomic queue, and what was received followed by the contents is what was sent |
| SpscCalls.EffectsAnswerCalls | src/logging/impl/spsc_queue.cc:63-179 | in every run of the compiled ring each effect carries all the data of the last enqueue call, or exactly the number of bytes that the last dequeue or peek call asked for |
| SpscCalls.EnqueueAlone | src/logging/impl/spsc_queue.cc:63-104 | from every state of the invariant, whatever the snapshots are: an enqueue whose thread runs on ends within size + 3 steps, Ok with contents + data exactly when that fits, otherwise Overflow with the contents unchanged; SizeIsZero for no bytes |
| SpscCalls.DequeueAlone | src/logging/impl/spsc_queue.cc:106-147 | likewise a dequeue: Ok with exactly the oldest n bytes, which are removed, when there are n, otherwise Underflow and no change |
| SpscCalls.PeekAlone | src/logging/impl/spsc_queue.cc:149-179 | likewise a peek, which removes nothing |
| SpscQueues.SpscQueue.Reserve | src/logging/impl/spsc_queue.cc:19-61 | an empty ring whose capacity is the least power of two at least max(size, 2) |
| SpscQueues.SpscQueue.Empty | src/include/femtolog/logging/impl/spsc_queue.h:60-64 | true exactly when nothing is queued |
| SpscQueues.SpscQueue.Size | src/include/femtolog/logging/impl/spsc_queue.h:66-71 | the wrapped difference is the number of queued bytes |
| SpscQueues.SpscQueue.AvailableSpace | src/include/femtolog/logging/impl/spsc_queue.h:77-80 | the free bytes |
| SpscQueues.SpscQueue.HasRoom | src/logging/impl/spsc_queue.cc:72-82 | the two-stage test with the cached head answers by the true contents |
| SpscQueues.SpscQueue.HasData | src/logging/impl/spsc_queue.cc:115-125 | the two-stage test with the cached tail answers by the true contents |
| SpscQueues.SpscQueue.EnqueueBytes | src/logging/impl/spsc_queue.cc:63-104 | every status exactly when the contents call for it; Ok appends the data, anything else changes nothing |
| SpscQueues.SpscQueue.DequeueBytes | src/logging/impl/spsc_queue.cc:106-147 | Ok hands out and removes exactly the oldest n bytes; any failure changes nothing |
| SpscQueues.SpscQueue.PeekBytes | src/logging/impl/spsc_queue.cc:149-179 | the oldest n bytes, without changing the queue |
| SpscQueues.SpscQueue.EnqueueBulk | src/logging/impl/spsc_queue.cc:181-237 | all or nothing, with the status and effect of one enqueue of the concatenation, empty chunks included |
| SpscQueues.SpscQueue.DequeueBulk | src/logging/impl/spsc_queue.cc:239-294 | one dequeue of the total, each destination getting its piece in order and keeping the bytes after it; a failure changes no destination |
| BulkCopy.CopyChunksIn | src/logging/impl/spsc_queue.cc:215-231 | the chunk loop with its running offset writes the concatenation, wherever the wrap falls |
| BulkCopy.CopyChunksOut | src/logging/impl/spsc_queue.cc:272-288 | the chunk loop cuts the queued bytes at the given sizes and keeps the rest of every destination |
| BulkCopy.TotalSize | src/logging/impl/spsc_queue.cc:191-195 | the 64-bit sum of the sizes |
| SpmcMachine.StepInv | src/logging/impl/spmc_queue.cc:56-139 | under the ticket hypothesis every step keeps the open tickets tiling [commit, head), at most capacity bytes uncommitted, and the stored bytes equal to the published ones |
| SpmcMachine.Rewind | src/logging/impl/spmc_queue.cc:106-110 | the consumer that rewinds holds the last ticket, so it undoes nobody else's |
| SpmcRuns.ExactlyOnce | src/logging/impl/spmc_queue.cc:94-139 | in every disciplined run the committed dequeues tile the published stream up to the commit index in ticket order |
| SpmcRuns.UncommittedKept | src/logging/impl/spmc_queue.cc:65-89 | published bytes not yet committed are still in the ring unchanged, at most capacity of them |
| SpmcRuns.ReturnIsLogged | src/logging/impl/spmc_queue.cc:127-138 | a dequeue returns Ok with some bytes at exactly the step that logs them as its delivery, from its own ticket on (SpmcCalls.EffectsAnswerCalls: as many as were asked for) |
| SpmcRuns.PublishIsRecorded | src/logging/impl/spmc_queue.cc:87-91 | the stream grows by the data of an enqueue at exactly the step it returns Ok |
| SpmcRuns.PassedMeansReady | src/logging/impl/spmc_queue.cc:127-136 | while any consumer is past its check, the holder of ticket == commit exists and has its data |
| SpmcRuns.CommitEnabled | src/logging/impl/spmc_queue.cc:127-131 | once its copy ends, the oldest ticket's compare-and-swap succeeds |
| SpmcRuns.SoloCommits | src/logging/impl/spmc_queue.cc:112-136 | the oldest ticket's own steps alone carry it to its commit, with the published bytes of its ticket |
| SpmcRuns.SpinEnds | src/logging/impl/spmc_queue.cc:127-136 | from every state with a consumer past its check some schedule of ticket holders commits that consumer with exactly its bytes: the spin cannot deadlock |
| SpmcProgress.StepNearer | src/logging/impl/spmc_queue.cc:103-138 | no disciplined step puts off the commit of a consumer past its check, and every step of the oldest ticket's holder brings it nearer |
| SpmcProgress.EveryScheduleCommits | src/logging/impl/spmc_queue.cc:127-136 | under every disciplined schedule that gives the oldest ticket's holder enough turns the consumer commits, with the published bytes of its ticket |
| SpmcProgress.EveryScheduleCommitsWord | src/logging/impl/spmc_queue.cc:127-136 | the same for the compiled 64-bit queue |
| SpmcTickets.TicketPastTail | src/logging/impl/spmc_queue.cc:103-110 | a ticket taken past the tail passes its check with none of its bytes published exactly when distance plus size is at most 2^64 |
| SpmcTickets.TicketUpToTail | src/logging/impl/spmc_queue.cc:103-110 | taken at or before the tail it passes exactly when its bytes are published |
| SpmcTickets.TicketBeforeRewind | src/logging/impl/spmc_queue.cc:103-110 | taken before another consumer's rewind, it ends beyond the head after that rewind, and the failed ticket's bytes belong to nobody |
| SpmcTickets.DisciplinedExactly | src/logging/impl/spmc_queue.cc:103-110 | in every state of the invariant the hypothesis holds for a ticket exactly when its check is sound and no pending rewind moves the head back over it |
| SpmcTickets.FirstUnsafeTicket | src/logging/impl/spmc_queue.cc:103-110 | the same for every state that a disciplined run of the compiled queue reaches |
| SpmcTickets.TicketPastTailBreaks | src/logging/impl/spmc_queue.cc:103-136 | a run with a ticket past the tail: an unpublished byte is read and in every continuation the commit index stays where it is |
| SpmcTickets.TicketBeforeRewindBreaks | src/logging/impl/spmc_queue.cc:103-136 | a run with a ticket before a rewind, all tickets up to the tail: in every continuation the commit index stays where it is |
| SpmcWord.UnderflowExactly | src/logging/impl/spmc_queue.cc:106-110 | on 64-bit indices a dequeue is refused exactly when too few bytes are published from its ticket on |
| SpmcWord.OverflowExactly | src/logging/impl/spmc_queue.cc:65-73 | an enqueue is refused exactly when the uncommitted bytes leave too little room |
| SpmcWord.WordSpinEnds | src/logging/impl/spmc_queue.cc:127-136 | the commit spin of the compiled queue ends by steps of ticket holders alone |
| SpmcWord.SpmcExactlyOnce | src/logging/impl/spmc_queue.cc:56-139 | the compiled 64-bit queue: its committed dequeues deliver each published byte up to the commit index exactly once, in order |
| SpmcCalls.EffectsAnswerCalls | src/logging/impl/spmc_queue.cc:56-139 | in every disciplined run of the compiled queue a dequeue that returns Ok hands out exactly as many bytes as its call asked for, and the stream grows by exactly the data of the enqueue call that returns Ok |
| SpmcCalls.DequeueAlone | src/logging/impl/spmc_queue.cc:94-139 | with no ticket open, a dequeue of n > 0 bytes that runs on hands out exactly the n published bytes from the head on, or answers Underflow and restores the head |
| SpmcCalls.EmptyDequeue | src/logging/impl/spmc_queue.cc:99-101 | a dequeue of nothing is refused with no ticket taken |
| SpmcCalls.EnqueueAlone | src/logging/impl/spmc_queue.cc:56-92 | whatever the consumers do: an enqueue that runs on publishes exactly its bytes when they fit beside the uncommitted ones, otherwise Overflow and nothing published |
| SpmcQueues.SpmcQueue.EnqueueBytes | src/logging/impl/spmc_queue.cc:56-92 | gated on the commit index: every status exactly, Ok appends, claimed bytes are never overwritten |
| SpmcQueues.SpmcQueue.EnqueueBulk | src/logging/impl/spmc_queue.cc:173-226 | one enqueue of the concatenation, all or nothing |
| SpmcQueues.SpmcQueue.Claim | src/logging/impl/spmc_queue.cc:103-110 | a ticket at the old head exactly when that many published bytes are unclaimed; otherwise the rewind restores the head |
| SpmcQueues.SpmcQueue.TryCommit | src/logging/impl/spmc_queue.cc:127-136 | succeeds exactly when every earlier ticket is committed, and then drops exactly this ticket's bytes |
| SpmcQueues.SpmcQueue.CommitInTurn | src/logging/impl/spmc_queue.cc:127-136 | the spin ends when the earlier tickets have committed and then commits exactly this one |
| SpmcQueues.SpmcQueue.DequeueBytes | src/logging/impl/spmc_queue.cc:94-139 | whatever tickets other consumers hold: the oldest n unclaimed bytes, or a status and no change |
| SpmcQueues.SpmcQueue.DequeueBulk | src/logging/impl/spmc_queue.cc:228-289 | whatever tickets other consumers hold: one dequeue of the total, cut at the sizes, every destination kept after its piece |
| SpmcQueues.SpmcQueue.PeekBytes | src/logging/impl/spmc_queue.cc:141-171 | the bytes from the commit index on |
| LittleEndian.RoundTrip | src/include/femtolog/logging/impl/args_serializer.h:98-99 | an integer that fits k bytes is read back from its k bytes |
| LittleEndian.BytesRoundTrip | src/include/femtolog/logging/impl/args_deserializer.h:133-134 | the bytes are determined by the integer read from them |
| LittleEndian.ByteAt | src/include/femtolog/logging/impl/args_serializer.h:98-99 | byte i of an integer is its base-256 digit of weight 256^i |
| ArgsCodec.PlannedSizeIsExact | src/include/femtolog/logging/impl/args_serializer.h:26-79 | the size computed before writing is exactly the number of bytes written, for any argument list and mode |
| ArgsCodec.EncodedSize | src/include/femtolog/logging/impl/args_serializer.h:81-118 | the bytes written are 16 for a string in ref mode, 8 and its length by value, and the object's size otherwise, summed over the list |
| ArgsCodec.ArgLayout | src/include/femtolog/logging/impl/args_serializer.h:81-118 | the address stands before the length, the length before the characters, eight bytes each |
| ArgsCodec.ReadWritten | src/include/femtolog/logging/impl/args_deserializer.h:113-157 | reading what was written, anywhere in a buffer, returns the list passed and stops where the writer stopped |
| ArgsCodec.UnrolledAgrees | src/include/femtolog/logging/impl/args_deserializer.h:64-93 | the one- to four-argument readers return, on any data, what the general reader returns |
| ArgsCodec.DeserializeIsReadAll | src/include/femtolog/logging/impl/args_deserializer.h:36-57 | so does every reader the dispatch can choose, the small-value fast path included |
| ArgsCodec.DeserializeRoundTrip | src/include/femtolog/logging/impl/args_deserializer.h:36-157 | deserializing an encoded argument list gives the list: strings by value, or pointer and length in ref mode |
| ArgsCodec.PassedAt | src/include/femtolog/logging/impl/args_deserializer.h:113-157 | each argument of that list is an address and a length, an own string, or the object, as the mode and the type say |
| ArgsCodec.ReadLoop | src/include/femtolog/logging/impl/args_deserializer.h:94-101 | the captured-offset form computes the general reader |
| ArgsOrder.ReadAllDetermines | src/include/femtolog/logging/impl/args_deserializer.h:113-157 | a list that is read determines every byte the reader consumed |
| ArgsOrder.RightToLeftExactly | src/include/femtolog/logging/impl/args_deserializer.h:95-100 | for every argument list: evaluated right to left it is read back as passed exactly when the reversed list has the same encoding |
| ArgsOrder.RightToLeftReverses | src/include/femtolog/logging/impl/args_deserializer.h:95-100 | arguments of one fixed-size type come back reversed, hence correctly exactly for palindromes |
| ArgsSerializers.WriteArg | src/include/femtolog/logging/impl/args_serializer.h:81-118 | one argument's encoding at the position, which advances by its length |
| ArgsSerializers.WriteArgs | src/include/femtolog/logging/impl/args_serializer.h:162-180 | the encodings of the whole list, back to back, within the buffer |
| ArgsSerializers.ArgsSerializer.Serialize | src/include/femtolog/logging/impl/args_serializer.h:143-186 | header and encoded arguments, or size 0 exactly when value mode plans at least the capacity |
| ArgsSerializers.DynamicLength | src/include/femtolog/logging/impl/args_serializer.h:71-79 | the sum over the string arguments |
| LogEntries.HeaderRoundTrip | src/include/femtolog/base/log_entry.h:61-65 | the fields are read back from the header, length first |
| LogEntries.HeaderLayout | src/include/femtolog/base/log_entry.h:61-65 | length, format id, thread id, timestamp and level stand at offsets 0, 2, 4, 8 and 16 of 24 bytes |
| LogEntries.FrameIsFrame | src/include/femtolog/base/log_entry.h:31-33 | a created entry's length field gives its own total size |
| LogEntries.Create | src/include/femtolog/base/log_entry.h:43-59 | the buffer starts with the frame and the rest of it is untouched |
| LogEntries.CopyRawPayload | src/include/femtolog/base/log_entry.h:35-41 | the first min(size, length) payload bytes, and nothing else changed |
| ProtocolInv.FrameRoundTrip | src/logging/impl/backend_worker.cc:225-261 | what the worker makes of a frame is what was logged: literal text, or the deserialized argument list |
| ProtocolInv.FitsExactly | src/include/femtolog/logging/impl/internal_logger.h:111-142 | a request passes the size filters exactly when it takes fewer than 1000 bytes: a literal its length, a formatted one 16 and the sizes of its arguments, which is the serializer's planned size |
| ProtocolInv.PayloadLayout | src/include/femtolog/logging/impl/args_serializer.h:143-186 | a formatted payload is the formatter's address, the reader's address and the encoded arguments |
| ProtocolInv.MessageFields | src/logging/impl/backend_worker.cc:225-261 | a message has the call's level, thread, text or arguments; its format id is 0xFFFF exactly for literals |
| ProtocolInv.WholeEntries | src/logging/impl/backend_worker.cc:143-159 | two readable bytes mean that the whole next entry is readable, and they give its size |
| ProtocolInv.PeekOutcome | src/logging/impl/backend_worker.cc:144-148 | a peek fails only when every accepted entry was taken, with the producer running |
| ProtocolInv.NothingTaken | src/logging/impl/backend_worker.cc:150-155 | the dequeue after a peek cannot underflow |
| ProtocolInv.StepInv | src/logging/impl/backend_worker.cc:263-281 | every step of either thread that does not overrun the dequeue buffer keeps whole frames in the queue, sinks at prefixes, flush numbers and counters consistent |
| ProtocolRuns.SinksSeePrefix | src/logging/impl/backend_worker.cc:239-260 | at every moment each sink has seen a prefix of the accepted entries, in order |
| ProtocolRuns.FlushReturns | src/logging/impl/backend_worker.cc:84-98 | flush returns only after every entry enqueued before it was handed to all sinks |
| ProtocolRuns.StopReturns | src/logging/impl/backend_worker.cc:73-82 | stop returns only after every accepted entry was handed to all sinks |
| ProtocolRuns.CompletedAdvances | src/logging/impl/backend_worker.cc:268-274 | the completed number never decreases and never passes the requested one |
| ProtocolRuns.CompletedCovers | src/logging/impl/backend_worker.cc:263-281 | a completed request covers everything accepted before that request |
| ProtocolOrder.AcceptedAreLogged | src/include/femtolog/logging/impl/internal_logger.h:70-100 | the accepted requests are a subsequence of the log calls that passed the level filter |
| ProtocolRuns.DropsExplained | src/include/femtolog/logging/impl/internal_logger.h:111-178 | a drop is a request of 1000 bytes or more, or one for which the queued entries leave less than its size and 24 bytes of room |
| ProtocolRuns.DroppedAtOnce | src/include/femtolog/logging/impl/internal_logger.h:111-142 | a call is dropped before the queue exactly when its level passes and its request takes 1000 bytes or more |
| ProtocolCalls.LogReturns | src/include/femtolog/logging/impl/internal_logger.h:70-178 | a log call on a ready logger, wherever the worker is, returns within its size and 27 own steps; accepted exactly when its level passes, it takes fewer than 1000 bytes and the ring has room for 24 more; otherwise counted as dropped, or nothing at all if the level does not pass |
| ProtocolCalls.LevelFilters | src/include/femtolog/logging/impl/internal_logger.h:104 | after the level is set, a call of a higher level does nothing |
| ProtocolCalls.EndingStays | src/include/femtolog/logging/impl/internal_logger.h:178-181 | once a fatal call or stop() has begun to end the logger no schedule turns it back or accepts an entry |
| ProtocolCalls.EndDelivers | src/include/femtolog/logging/impl/internal_logger.h:178-181 | and at the end, in every schedule of the compiled logger, every sink has been handed everything ever accepted |
| ProtocolCalls.EndReached | src/include/femtolog/logging/impl/internal_logger.h:178-181 | and some schedule reaches it: after a fatal call the terminated state, after stop() the stopped one |
| ProtocolCalls.FlushCovers | src/logging/impl/backend_worker.cc:84-98 | after a flush() call, at every later moment of every schedule: the call has not returned, or every sink holds at least what was accepted before it |
| ProtocolWord.SameRun | src/logging/impl/backend_worker.cc:143-159 | the logger on 64-bit indices runs in lock step with the logger on unbounded ones |
| ProtocolRuns.EndToEnd | src/include/femtolog/logging/impl/internal_logger.h:70-178 | every run of the compiled logger: sinks at prefixes of the accepted requests' messages, all delivered after stop, every passed log call counted once, no buffer overrun or misread entry |
| ProtocolRuns.FlushEndToEnd | src/logging/impl/backend_worker.cc:84-98 | every run of the compiled logger: whenever flush is about to return, all sinks have seen everything accepted |
| ProtocolOverrun.LiteralOverruns | src/logging/impl/backend_worker.cc:143-155 | with a smaller dequeue buffer, one literal as long as the ring and the payload limit allow makes the worker overrun it |
| ProtocolOverrun.DequeueBufferBound | src/logging/impl/backend_worker.cc:143-155 | no run of the compiled logger leaves a buffer exactly when the dequeue buffer has at least min(capacity, 1023) bytes or the ring holds no entry |
| ProtocolProgress.WaitEnds | src/logging/impl/backend_worker.cc:84-98 | while flush or stop waits, finitely many steps of the worker alone end the wait |
| ProtocolProgress.NoHang | src/logging/impl/backend_worker.cc:73-98 | the same from every state of every run of the compiled logger: the frontend then leaves the wait |
| ProtocolDelivery.EveryEntryDelivered | src/logging/impl/backend_worker.cc:263-281 | from every state of every run, with or without a flush, some number of worker steps alone leaves every sink with exactly the messages of all accepted requests |
| BackendWorkers.BackendWorker.ReadAndProcessOne | src/logging/impl/backend_worker.cc:143-159 | on a queue of whole frames: takes exactly the next entry and hands its message to every sink, or fails only on an empty queue |
| BackendWorkers.BackendWorker.ProcessLogEntry | src/logging/impl/backend_worker.cc:225-261 | the message of the entry reaches every sink once; a null function pointer is skipped |
| BackendWorkers.BackendWorker.FlushImpl | src/logging/impl/backend_worker.cc:217-223 | the loop drains the queue and hands every pending message to every sink in order |
| BackendWorkers.BackendWorker.LoopPass | src/logging/impl/backend_worker.cc:264-277 | one pass: a waiting flush request drains and completes, otherwise at most one entry is delivered |
| BackendWorkers.BackendWorker.Flush | src/logging/impl/backend_worker.cc:84-98 | the wait ends, with the ticket completed and every sink handed every pending message after what it had |
| BackendWorkers.BackendWorker.Shutdown | src/logging/impl/backend_worker.cc:278-280 | drains, delivers and answers all flush requests |
| InternalLoggers.LogKeepsFrames | src/include/femtolog/logging/impl/internal_logger.h:70-142 | a log call keeps the queue a list of whole frames, one per pending request |
| InternalLoggers.LogConserves | src/include/femtolog/logging/impl/internal_logger.h:169-184 | each passing call is counted once, and delivered plus pending grows by exactly the enqueued requests, a fatal one included |
| InternalLoggers.LogCounts | src/include/femtolog/logging/impl/internal_logger.h:70-178 | which calls the specified effect counts as enqueued and as dropped, by level, size and room |
| InternalLoggers.FatalEnds | src/include/femtolog/logging/impl/internal_logger.h:178-181 | a call ends the logger exactly when it passes the filters, is fatal and the logger is set to terminate; any other leaves it running with 24 + size more bytes queued if accepted |
| InternalLoggers.InternalLogger.Log | src/include/femtolog/logging/impl/internal_logger.h:70-100 | filter, serialization and enqueue together have the specified effect; counted as enqueued exactly when it runs, the level passes, the size is below 1000 and the ring has room for 24 + size, as dropped exactly when the first two hold and the others do not |
| InternalLoggers.InternalLogger.LogLiteral | src/include/femtolog/logging/impl/internal_logger.h:111-124 | too long is dropped and counted, otherwise the literal's frame is enqueued |
| InternalLoggers.InternalLogger.LogSerialized | src/include/femtolog/logging/impl/internal_logger.h:126-142 | too long or empty is dropped and counted, otherwise the frame is enqueued |
| InternalLoggers.InternalLogger.EnqueueLogEntry | src/include/femtolog/logging/impl/internal_logger.h:169-184 | whole frame or nothing, one counter, and for a fatal entry delivery of everything before termination |
| Escape.DecodeEncode | src/core/base/string_util.cc:34-108 | unescaping undoes escaping, for every byte string |
| Escape.EncodedShape | src/core/base/string_util.cc:34-66 | no raw newline, return or tab, and at most twice the length |
| Escape.EncodeDecode | src/core/base/string_util.cc:68-108 | escaping undoes unescaping exactly on the strings in escaped form |
| Escape.EncodeInPlace | src/core/base/string_util.cc:45-63 | bytes 10, 13, 9 and 92 become 92 followed by 110, 114, 116 and 92, every other byte itself, wherever they stand |
| Escape.DecodeFirst | src/core/base/string_util.cc:77-104 | the four escapes back, and a backslash before anything else or at the end stays |
| Escape.EncodeEscape | src/core/base/string_util.cc:34-66 | the in-place writer stays in its buffer and computes the encoding |
| Escape.DecodeEscape | src/core/base/string_util.cc:68-108 | the in-place writer stays in a buffer of the input's size and computes the decoding |
| Split.JoinTokens | src/core/base/string_util.cc:266-279 | from any position the input is its tokens joined, plus one delimiter exactly when the scan ends right after one |
| Split.SplitLosesNothing | src/core/base/string_util.cc:250-282 | the input is the tokens joined, or that plus one trailing delimiter, and no token contains the delimiter |
| Split.SplitRoundTrip | src/core/base/string_util.cc:250-282 | pieces put together with a delimiter that they do not meet early are the tokens of the result; an empty last piece is none |
| Split.SplitString | src/core/base/string_util.cc:250-282 | the loop computes the tokens; an empty delimiter makes every character one |
| Lines.NewlinesExact | src/core/base/file_util.cc:630-654 | the positions are exactly the newlines, ascending |
| Lines.ClearLowest | src/core/base/file_util.cc:641-645 | `mask &= mask - 1` removes exactly the bit that the trailing-zero count names |
| Lines.MaskPositions | src/core/base/file_util.cc:635-646 | the set bits of a block's mask are the newline positions of the block |
| Lines.NewlinesFind | src/core/base/file_util.cc:656-672 | the next listed position is the end of the next line |
| Lines.ReadLinesDefault | src/core/base/file_util.cc:578-609 | the lines are the newline-separated tokens, each without one carriage return |
| Lines.ReadLinesAvx2 | src/core/base/file_util.cc:613-676 | the mask loop and the scalar rest return the same lines, for every content |
| Lines.LinesRoundTrip | src/core/base/file_util.cc:578-676 | lines written with a newline or a carriage return and newline each, and a last one without newline, are read back as they were |
| Lines.EveryFileIsLines | src/core/base/file_util.cc:578-676 | every file content is of that form |
| Brackets.WellNestedRun | src/core/base/string_util.cc:305-329 | well-nested text leaves the stack as it was and keeps exactly its level-zero characters, from any state and for any limit |
| Brackets.WellNestedStripped | src/core/base/string_util.cc:284-334 | for every well-nested text and limit: the level-zero characters, with every stack index below min(length / 2, limit) |
| Brackets.ReadingRun | src/core/base/string_util.cc:305-329 | text with stray and unclosed brackets, from any state and for any limit: the level-zero characters are kept, a closing bracket that matches nothing is ignored, and text that leaves nothing open leaves the stack as it was |
| Brackets.EveryTextRead | src/core/base/string_util.cc:284-334 | every text is of that form, and the scan keeps exactly its level-zero characters |
| Brackets.StackSufficesExactly | src/core/base/string_util.cc:294 | on any text no index leaves the stack exactly when limit <= length / 2 or at most length / 2 brackets are ever pending |
| Brackets.OnlyOpeningBrackets | src/core/base/string_util.cc:309-315 | on opening brackets alone the stack suffices exactly when limit <= length / 2 |
| Brackets.FewOpeningsSuffice | src/core/base/string_util.cc:294 | at most half the characters opening a bracket suffices, for every limit |
| Brackets.RemoveBracket | src/core/base/string_util.cc:284-334 | whenever the stack suffices, the in-place scan returns the level-zero characters of the text, stray and unclosed brackets included, without leaving stack or output |
| Utf8.CharLengthByRange | src/core/base/string_util.cc:208-220 | the mask tests compute the length given by the lead byte's range |
| Utf8.TruncateWellFormed | src/core/base/string_util.cc:222-248 | on well-formed text (section 4 of RFC 3629): the first min(k, n) characters, whole |
| Utf8.TruncateWhole | src/core/base/string_util.cc:222-248 | on any bytes: at most k characters, each as long as its lead byte announces, and fewer than k only at the end or before a character cut off there |
| Utf8.TruncateTwice | src/core/base/string_util.cc:222-248 | on any bytes truncating twice is truncating to the smaller limit |
| Utf8.Utf8Truncate | src/core/base/string_util.cc:222-248 | the loop computes the truncation |
| FileSinks.Conservation | src/include/femtolog/sinks/file_sink.h:92-150 | open descriptor, any mix of small and oversized records: written plus buffered is all lines in log order, the cursor stays within 4096, and a final flush writes everything |
| FileSinks.WholeRecords | src/include/femtolog/sinks/file_sink.h:118-126 | the file always ends at a record boundary |
| FileSinks.WritesOnlyWhenFull | src/include/femtolog/sinks/file_sink.h:118-126 | open descriptor: a record is only buffered exactly when it fits the 4096 bytes with what is there; otherwise the buffer is written first, and a larger record after it |
| FileSinks.LineParts | src/include/femtolog/sinks/file_sink.h:104-137 | where timestamp, level name, colon, space and content stand in a record |
| FileSinks.LevelNames | src/include/femtolog/base/log_level.h:29-40 | the names as bytes |
| FileSinks.LoggedFits | src/include/femtolog/sinks/file_sink.h:118-136 | the cursor stays within the buffer exactly when the descriptor is open, the record is written directly, or it fits |
| FileSinks.ClosedFits | src/include/femtolog/sinks/file_sink.h:140-143 | closed descriptor: nothing is written, and the copies stay in the buffer exactly as long as the small records fit together |
| FileSinks.FileSink.OnLog | src/include/femtolog/sinks/file_sink.h:104-137 | flush, direct write and the four copies have exactly the specified effect |
| FileSinks.FileSink.Flush | src/include/femtolog/sinks/file_sink.h:140-150 | moves the buffer to the file, or does nothing without a descriptor |
| FileSinks.FileSink.Close | src/include/femtolog/sinks/file_sink.h:92-102 | the destructor writes what is buffered |

## Left out

- C++ memory orders and fences: every atomic access is one sequentially consistent step.
- ProtocolRuns.EndToEnd: covers the first start/stop cycle with one frontend thread; after a restart the shutdown flag is still set (src/logging/impl/backend_worker.cc:77) and a second worker exits at once. Flush numbers and counters are unbounded, and `std::terminate` is a final state. It requires a dequeue buffer that is large enough, which is exactly when no run leaves it (ProtocolOverrun.DequeueBufferBound).
- ProtocolProgress.NoHang: says that the worker's steps end the wait, not that the operating system schedules the worker.
- SpmcRuns.ExactlyOnce: assumes that every ticket is taken with the head not past the tail and no consumer between a failed check and its rewind; any ticket taken otherwise is unsafe (SpmcTickets.DisciplinedExactly).
- SpmcTickets.DisciplinedExactly: for sizes up to 2^63, the largest a capacity can be; beyond that the wrapped check can refuse a ticket past the tail (SpmcTickets.TicketPastTail).
- SpmcQueues.SpmcQueue.DequeueBytes: the tickets of other consumers commit one after each failed attempt; all other interleavings are those of the machine. Peeks of this queue are modelled as an object method only.
- SpscQueues.SpscQueue.EnqueueBulk: the sum of the sizes must not overflow 64 bits; with an overflowing sum the chunks would not fit any memory.
- SpscQueues.SpscQueue.DequeueBulk: the destinations are distinct arrays, apart from the ring.
- SpscQueues.SpscQueue.Reserve: allocation failure, sizes above 2^63 and a reserve on a live queue.
- ArgsCodec.DeserializeRoundTrip: the reader for five and more arguments is taken left to right (ArgsOrder has the other order). Ref-mode arguments that are neither strings nor trivially copyable, and null C strings, are not modelled; a ref-mode string is its pointer and length.
- ArgsSerializers.ArgsSerializer.Serialize: the two function addresses of the header are given as bytes.
- BackendWorkers.BackendWorker.Flush: the worker's loop makes its passes inside the wait; the concurrent handshake is in `Protocol`.
- BackendWorkers.BackendWorker.ProcessLogEntry: formatting is uninterpreted: a sink receives the formatter's address and the argument list, and the timestamp that the worker stores is not part of the message.
- Brackets.RemoveBracket: requires the exact condition under which the stack suffices.
- FileSinks.FileSink.OnLog: requires that the copies fit, which an open descriptor guarantees. Writes are complete, and the four-part direct write is one append although its array has three entries (src/include/femtolog/sinks/file_sink.h:183). Creating, rotating and compressing the file are not modelled.
- ArgsCodec.EncodeArg: the branch of `to_string_view` for null pointers; it tests for an array type after decay (src/include/femtolog/logging/impl/args_serializer.h:54-69).
- StdoutSink and JsonLinesSink, the string registry's table and hash (a format id is only known never to be the literal id), time zones, polling back-off, CPU affinity, file and directory helpers, case conversion, Windows branches.
