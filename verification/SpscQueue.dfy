/** src/logging/impl/spsc_queue.cc and its header: the single-producer single-consumer byte
    queue as the object it is, on wrapping 64-bit indices and an in-place buffer. */
module SpscQueues {
  import opened Bits
  import opened Ring
  import opened RingCopy
  import opened Chunks
  import opened BulkCopy

  class SpscQueue {
    var buffer: array?<byte>
    var capacity: nat
    var mask: nat
    // Producer side
    var tailIdx: nat
    var tailCached: nat
    var headCachedSnapshot: nat
    // Consumer side
    var headIdx: nat
    var headCached: nat
    var tailCachedSnapshot: nat

    // The indices as they would be without wrapping
    ghost var head: nat
    ghost var tail: nat
    ghost var headSnap: nat
    ghost var tailSnap: nat

    ghost predicate Valid()
      reads this, if buffer == null then {} else {buffer}
    {
      && (buffer == null ==> capacity == 0 && tail == head)
      && (buffer != null ==> Capacity(capacity) && buffer.Length == capacity && mask == capacity - 1)
      && tailIdx == tailCached == tail % WORD
      && headIdx == headCached == head % WORD
      && headCachedSnapshot == headSnap % WORD
      && tailCachedSnapshot == tailSnap % WORD
      && headSnap <= head <= tailSnap <= tail <= headSnap + capacity
    }

    /** The queued bytes, oldest first. */
    ghost function Contents(): (q: seq<byte>)
      requires Valid()
      reads this, if buffer == null then {} else {buffer}
      ensures |q| == tail - head <= capacity
    {
      if buffer == null then [] else Slice(buffer[..], capacity, head, tail - head)
    }

    constructor ()
      ensures Valid() && buffer == null && Contents() == []
    {
      buffer := null;
      capacity, mask := 0, 0;
      tailIdx, tailCached, headCachedSnapshot := 0, 0, 0;
      headIdx, headCached, tailCachedSnapshot := 0, 0, 0;
      head, tail, headSnap, tailSnap := 0, 0, 0, 0;
    }

    method Reserve(capacityBytes: nat)
      requires 0 < capacityBytes <= 0x8000_0000_0000_0000
      modifies this
      ensures Valid() && buffer != null && fresh(buffer) && Contents() == []
      ensures capacityBytes <= capacity
      ensures forall k: nat {:trigger Pow2(k)} ::
                Pow2(k) >= capacityBytes && Pow2(k) >= 2 ==> capacity <= Pow2(k)
    {
      var cap := NextPowerOf2(capacityBytes);
      NextPowerOf2Least(capacityBytes, 0);
      forall k: nat {:trigger Pow2(k)} | Pow2(k) >= capacityBytes && Pow2(k) >= 2
        ensures cap <= Pow2(k)
      {
        NextPowerOf2Least(capacityBytes, k);
      }
      buffer := new byte[cap](_ => 0);
      capacity := cap;
      mask := cap - 1;
      headIdx, tailIdx, headCached, tailCached := 0, 0, 0, 0;
      headCachedSnapshot, tailCachedSnapshot := 0, 0;
      head, tail, headSnap, tailSnap := 0, 0, 0, 0;
    }

    function Empty(): (b: bool)
      requires Valid()
      reads this, if buffer == null then {} else {buffer}
      ensures b <==> Contents() == []
    {
      WordDifference(tail, head);
      headCached == tailIdx
    }

    function Size(): (n: int)
      requires Valid() && buffer != null
      reads this, buffer
      ensures n == |Contents()|
    {
      WordDifference(tail, head);
      Sub(Word64, tailIdx, headCached)
    }

    function AvailableSpace(): (n: int)
      requires Valid() && buffer != null
      reads this, buffer
      ensures n == capacity - |Contents()|
    {
      Sub(Word64, capacity, Size())
    }

    /** The space test of an enqueue: the cached head first, the real one only if that fails. */
    method HasRoom(size: nat) returns (room: bool)
      requires Valid() && buffer != null
      modifies this`headCachedSnapshot, this`headSnap
      ensures Valid() && Contents() == old(Contents())
      ensures room <==> |Contents()| + size <= capacity
      ensures room ==> tail + size <= headSnap + capacity
    {
      var full := IsFull(capacity, tailIdx, headCachedSnapshot, size, tail, headSnap);
      if full {
        headCachedSnapshot := headIdx;
        headSnap := head;
        full := IsFull(capacity, tailIdx, headCachedSnapshot, size, tail, headSnap);
      }
      room := !full;
    }

    method HasData(size: nat) returns (enough: bool)
      requires Valid() && buffer != null
      modifies this`tailCachedSnapshot, this`tailSnap
      ensures Valid() && Contents() == old(Contents())
      ensures enough <==> size <= |Contents()|
      ensures enough ==> head + size <= tailSnap
    {
      var short := IsShort(capacity, tailCachedSnapshot, headIdx, size, tailSnap, head);
      if short {
        tailCachedSnapshot := tailIdx;
        tailSnap := tail;
        short := IsShort(capacity, tailCachedSnapshot, headIdx, size, tailSnap, head);
      }
      enough := !short;
    }

    method PublishTail(size: nat)
      requires Valid() && tail + size <= headSnap + capacity
      modifies this`tailIdx, this`tailCached, this`tail
      ensures Valid() && tail == old(tail) + size
    {
      WordSum(tail, size);
      tailIdx := Add(Word64, tailIdx, size);
      tailCached := tailIdx;
      tail := tail + size;
    }

    method PublishHead(size: nat)
      requires Valid() && buffer != null && head + size <= tailSnap
      modifies this`headIdx, this`headCached, this`head
      ensures Valid() && size <= |old(Contents())| && Contents() == old(Contents())[size..]
    {
      SliceSplit(buffer[..], capacity, head, tail - head, size);
      WordSum(head, size);
      headIdx := Add(Word64, headIdx, size);
      headCached := headIdx;
      head := head + size;
    }

    method EnqueueBytes(data: seq<byte>) returns (status: Status)
      requires Valid() && |data| < WORD
      modifies this`tailIdx, this`tailCached, this`tail, this`headCachedSnapshot, this`headSnap
      modifies if buffer == null then {} else {buffer}
      ensures Valid()
      ensures status ==
        if buffer == null then Uninitialized
        else if |data| == 0 then SizeIsZero
        else if |old(Contents())| + |data| > capacity then Overflow
        else Ok
      ensures Contents() == if status.Ok? then old(Contents()) + data else old(Contents())
    {
      if buffer == null { return Uninitialized; }
      if |data| == 0 { return SizeIsZero; }
      var room := HasRoom(|data|);
      if !room { return Overflow; }
      CopyBehind(buffer, mask, tailIdx, data, head, tail);
      PublishTail(|data|);
      return Ok;
    }

    method DequeueBytes(dst: array<byte>, n: nat) returns (status: Status)
      requires Valid() && n <= dst.Length && n < WORD && dst != buffer
      modifies this`headIdx, this`headCached, this`head, this`tailCachedSnapshot, this`tailSnap, dst
      ensures Valid()
      ensures status ==
        if buffer == null then Uninitialized
        else if n == 0 then SizeIsZero
        else if n > |old(Contents())| then Underflow
        else Ok
      ensures status.Ok? ==>
        && dst[..n] == old(Contents())[..n] && dst[n..] == old(dst[n..])
        && Contents() == old(Contents())[n..]
      ensures !status.Ok? ==> Contents() == old(Contents()) && dst[..] == old(dst[..])
    {
      if buffer == null { return Uninitialized; }
      if n == 0 { return SizeIsZero; }
      var enough := HasData(n);
      if !enough { return Underflow; }
      SliceSplit(buffer[..], capacity, head, tail - head, n);
      CopyOut(dst, buffer, mask, headIdx, n, head);
      PublishHead(n);
      return Ok;
    }

    method PeekBytes(dst: array<byte>, n: nat) returns (status: Status)
      requires Valid() && n <= dst.Length && dst != buffer
      modifies dst
      ensures Valid() && Contents() == old(Contents())
      ensures status ==
        if buffer == null then Uninitialized
        else if n == 0 then SizeIsZero
        else if n > |Contents()| then Underflow
        else Ok
      ensures status.Ok? ==> dst[..n] == Contents()[..n] && dst[n..] == old(dst[n..])
      ensures !status.Ok? ==> dst[..] == old(dst[..])
    {
      if buffer == null { return Uninitialized; }
      if n == 0 { return SizeIsZero; }
      WordDifference(tail, head);
      if n > Sub(Word64, tailIdx, headIdx) { return Underflow; }
      CopyOut(dst, buffer, mask, headIdx, n, head);
      SliceSplit(buffer[..], capacity, head, tail - head, n);
      return Ok;
    }

    /** All or nothing: the effect and the answer are those of one enqueue of the concatenation. */
    method EnqueueBulk(chunks: seq<seq<byte>>) returns (status: Status)
      requires Valid() && Total(Sizes(chunks)) < WORD
      modifies this`tailIdx, this`tailCached, this`tail, this`headCachedSnapshot, this`headSnap
      modifies if buffer == null then {} else {buffer}
      ensures Valid()
      ensures status ==
        if buffer == null then Uninitialized
        else if Flatten(chunks) == [] then SizeIsZero
        else if |old(Contents())| + |Flatten(chunks)| > capacity then Overflow
        else Ok
      ensures Contents() == if status.Ok? then old(Contents()) + Flatten(chunks) else old(Contents())
    {
      FlattenLength(chunks);
      if buffer == null { return Uninitialized; }
      if |chunks| == 0 { return SizeIsZero; }
      var totalSize := TotalSize(Sizes(chunks));
      if totalSize == 0 { return SizeIsZero; }
      var room := HasRoom(totalSize);
      if !room { return Overflow; }
      AppendChunks(chunks, totalSize);
      return Ok;
    }

    method AppendChunks(chunks: seq<seq<byte>>, totalSize: nat)
      requires Valid() && buffer != null
      requires totalSize == |Flatten(chunks)| && tail + totalSize <= headSnap + capacity
      modifies buffer, this`tailIdx, this`tailCached, this`tail
      ensures Valid() && Contents() == old(Contents()) + Flatten(chunks)
    {
      CopyChunksBehind(chunks, buffer, mask, tailIdx, head, tail);
      PublishTail(totalSize);
    }

    /** The split of one dequeue of the total at the given sizes. */
    method DequeueBulk(dsts: seq<array<byte>>, sizes: seq<nat>) returns (status: Status)
      requires Valid() && |dsts| == |sizes| && Total(sizes) < WORD
      requires Separate(dsts, sizes, buffer)
      modifies this`headIdx, this`headCached, this`head, this`tailCachedSnapshot, this`tailSnap, dsts
      ensures Valid()
      ensures status ==
        if buffer == null then Uninitialized
        else if Total(sizes) == 0 then SizeIsZero
        else if Total(sizes) > |old(Contents())| then Underflow
        else Ok
      ensures status.Ok? ==>
        && Contents() == old(Contents())[Total(sizes)..]
        && Distributed(dsts, sizes, old(Contents()))
        && forall i :: 0 <= i < |dsts| ==> dsts[i][sizes[i]..] == old(dsts[i][sizes[i]..])
      ensures !status.Ok? ==>
        && Contents() == old(Contents())
        && forall i :: 0 <= i < |dsts| ==> dsts[i][..] == old(dsts[i][..])
    {
      if buffer == null { return Uninitialized; }
      if |dsts| == 0 { return SizeIsZero; }
      var totalSize := TotalSize(sizes);
      if totalSize == 0 { return SizeIsZero; }
      var enough := HasData(totalSize);
      if !enough { return Underflow; }
      TakeChunks(dsts, sizes, totalSize);
      return Ok;
    }

    method TakeChunks(dsts: seq<array<byte>>, sizes: seq<nat>, totalSize: nat)
      requires Valid() && buffer != null && |dsts| == |sizes| && Separate(dsts, sizes, buffer)
      requires totalSize == Total(sizes) && head + totalSize <= tailSnap
      modifies this`headIdx, this`headCached, this`head, dsts
      ensures Valid() && Distributed(dsts, sizes, old(Contents()))
      ensures forall i :: 0 <= i < |dsts| ==> dsts[i][sizes[i]..] == old(dsts[i][sizes[i]..])
      ensures Contents() == old(Contents())[totalSize..]
    {
      CopyChunksOut(dsts, sizes, buffer, mask, headIdx, head, Contents());
      PublishHead(totalSize);
    }
  }
}
