/** src/logging/impl/spmc_queue.cc and its header as an object: the claim of a ticket, the copy and
    the commit are separate operations, so that tickets of other consumers may be open between
    them. `SpmcMachine` covers the interleavings inside each. */
module SpmcQueues {
  import opened Bits
  import opened Ring
  import opened RingCopy
  import opened Chunks
  import opened BulkCopy

  class SpmcQueue {
    var buffer: array?<byte>
    var capacity: nat
    var mask: nat
    var tailIdx: nat
    var headIdx: nat
    var commitIdx: nat

    // The indices as they would be without wrapping
    ghost var head: nat
    ghost var tail: nat
    ghost var commit: nat

    ghost predicate Valid()
      reads this, if buffer == null then {} else {buffer}
    {
      && (buffer == null ==> capacity == 0)
      && (buffer != null ==> Capacity(capacity) && buffer.Length == capacity && mask == capacity - 1)
      && tailIdx == tail % WORD && headIdx == head % WORD && commitIdx == commit % WORD
      && commit <= head <= tail <= commit + capacity
    }

    /** The bytes published and not yet committed, oldest first. */
    ghost function Contents(): (q: seq<byte>)
      requires Valid()
      reads this, if buffer == null then {} else {buffer}
      ensures |q| == tail - commit <= capacity
    {
      if buffer == null then [] else Slice(buffer[..], capacity, commit, tail - commit)
    }

    constructor ()
      ensures Valid() && buffer == null && Contents() == []
    {
      buffer := null;
      capacity, mask := 0, 0;
      tailIdx, headIdx, commitIdx := 0, 0, 0;
      head, tail, commit := 0, 0, 0;
    }

    method Reserve(capacityBytes: nat)
      requires 0 < capacityBytes <= 0x8000_0000_0000_0000
      modifies this
      ensures Valid() && buffer != null && fresh(buffer) && Contents() == [] && head == commit
      ensures capacityBytes <= capacity
    {
      var cap := NextPowerOf2(capacityBytes);
      NextPowerOf2Least(capacityBytes, 0);
      buffer := new byte[cap](_ => 0);
      capacity := cap;
      mask := cap - 1;
      tailIdx, headIdx, commitIdx := 0, 0, 0;
      head, tail, commit := 0, 0, 0;
    }

    /** `size()`: the bytes no consumer has taken a ticket for. */
    function Size(): (n: int)
      requires Valid() && buffer != null
      reads this, buffer
      ensures n == tail - head
    {
      WordDifference(tail, head);
      Sub(Word64, tailIdx, headIdx)
    }

    /** The space test, against the commit index. */
    method HasRoom(size: nat) returns (room: bool)
      requires Valid() && buffer != null
      ensures room <==> |Contents()| + size <= capacity
    {
      var full := IsFull(capacity, tailIdx, commitIdx, size, tail, commit);
      room := !full;
    }

    method PublishTail(size: nat)
      requires Valid() && tail + size <= commit + capacity
      modifies this`tailIdx, this`tail
      ensures Valid() && tail == old(tail) + size
    {
      WordSum(tail, size);
      tailIdx := Add(Word64, tailIdx, size);
      tail := tail + size;
    }

    /** Uncommitted bytes, claimed or not, are never overwritten. */
    method EnqueueBytes(data: seq<byte>) returns (status: Status)
      requires Valid() && |data| < WORD
      modifies this`tailIdx, this`tail, if buffer == null then {} else {buffer}
      ensures Valid()
      ensures status ==
        if buffer == null then Uninitialized
        else if |data| == 0 then SizeIsZero
        else if |old(Contents())| + |data| > capacity then Overflow
        else Ok
      ensures Contents() == if status.Ok? then old(Contents()) + data else old(Contents())
    {
      if buffer == null { return Uninitialized; }
      if |data| == 0 { return SizeIsZero; }
      var room := HasRoom(|data|);
      if !room { return Overflow; }
      CopyBehind(buffer, mask, tailIdx, data, commit, tail);
      PublishTail(|data|);
      return Ok;
    }

    method EnqueueBulk(chunks: seq<seq<byte>>) returns (status: Status)
      requires Valid() && Total(Sizes(chunks)) < WORD
      modifies this`tailIdx, this`tail, if buffer == null then {} else {buffer}
      ensures Valid()
      ensures status ==
        if buffer == null then Uninitialized
        else if Flatten(chunks) == [] then SizeIsZero
        else if |old(Contents())| + |Flatten(chunks)| > capacity then Overflow
        else Ok
      ensures Contents() == if status.Ok? then old(Contents()) + Flatten(chunks) else old(Contents())
    {
      FlattenLength(chunks);
      if buffer == null { return Uninitialized; }
      if |chunks| == 0 { return SizeIsZero; }
      var totalSize := TotalSize(Sizes(chunks));
      if totalSize == 0 { return SizeIsZero; }
      var room := HasRoom(totalSize);
      if !room { return Overflow; }
      CopyChunksBehind(chunks, buffer, mask, tailIdx, commit, tail);
      PublishTail(totalSize);
      return Ok;
    }

    /** `fetch_add` on the head, the data test, and the rewind when it fails. */
    method Claim(n: nat) returns (ok: bool, ticketIdx: nat)
      requires Valid() && buffer != null && n < WORD
      modifies this`headIdx, this`head
      ensures Valid() && ok == (n <= old(tail - head)) && Contents() == old(Contents())
      ensures head == if ok then old(head) + n else old(head)
      ensures ticketIdx == old(head) % WORD
    {
      ticketIdx := headIdx;
      WordSum(head, n);
      headIdx := Add(Word64, headIdx, n);
      var short := IsShort(capacity, tailIdx, ticketIdx, n, tail, head);
      if short {
        ModCancel(head, n);
        headIdx := Sub(Word64, headIdx, n);
        return false, ticketIdx;
      }
      head := head + n;
      return true, ticketIdx;
    }

    /** The compare-and-swap of the commit spin. It fails, changing nothing, until every earlier
        ticket is committed; then it drops exactly the bytes of this ticket. */
    method TryCommit(ticketIdx: nat, n: nat, ghost ticket: nat) returns (ok: bool)
      requires Valid() && buffer != null && ticketIdx == ticket % WORD
      requires commit <= ticket && ticket + n <= head
      modifies this`commitIdx, this`commit
      ensures Valid() && ok == (old(commit) == ticket)
      ensures ok ==> commit == ticket + n && n <= |old(Contents())| && Contents() == old(Contents())[n..]
      ensures !ok ==> commit == old(commit)
    {
      WordDifference(ticket, commit);
      if commitIdx != ticketIdx {
        return false;
      }
      SliceSplit(buffer[..], capacity, commit, tail - commit, n);
      WordSum(ticket, n);
      commitIdx := Add(Word64, ticketIdx, n);
      commit := commit + n;
      return true;
    }

    /** The commit of a ticket by the consumer that holds it, seen from another consumer's spin. */
    method OtherCommits(n: nat)
      requires Valid() && buffer != null && commit + n <= head
      modifies this`commitIdx, this`commit
      ensures Valid() && commit == old(commit) + n
    {
      WordSum(commit, n);
      commitIdx := Add(Word64, commitIdx, n);
      commit := commit + n;
    }

    /** The commit spin. `others` are the sizes of the earlier tickets, which other consumers hold;
        after each failed attempt one of them commits. */
    method CommitInTurn(ticketIdx: nat, n: nat, others: seq<nat>, ghost ticket: nat)
      requires Valid() && buffer != null && ticketIdx == ticket % WORD
      requires commit + Total(others) == ticket && ticket + n <= head
      modifies this`commitIdx, this`commit
      ensures Valid() && commit == ticket + n
      ensures Total(others) + n <= |old(Contents())| && Contents() == old(Contents())[Total(others) + n..]
    {
      SliceSplit(buffer[..], capacity, commit, tail - commit, Total(others) + n);
      var k := 0;
      assert others[0..] == others;
      var done := TryCommit(ticketIdx, n, ticket);
      while !done
        invariant Valid() && 0 <= k <= |others|
        invariant if done then commit == ticket + n else commit + Total(others[k..]) == ticket && commit != ticket
        decreases |others| - k, !done
      {
        assert others[k..][1..] == others[k + 1..];
        OtherCommits(others[k]);
        k := k + 1;
        done := TryCommit(ticketIdx, n, ticket);
      }
    }

    /** The bytes of the queue that no consumer has taken a ticket for. */
    ghost function Unclaimed(): (q: seq<byte>)
      requires Valid()
      reads this, if buffer == null then {} else {buffer}
      ensures |q| == tail - head
    {
      Contents()[head - commit..]
    }

    /** Dequeues while other consumers hold the tickets of the given sizes, oldest first. */
    method DequeueBytes(dst: array<byte>, n: nat, others: seq<nat>) returns (status: Status)
      requires Valid() && commit + Total(others) == head && n <= dst.Length && n < WORD && dst != buffer
      modifies this`headIdx, this`head, this`commitIdx, this`commit, dst
      ensures Valid()
      ensures status ==
        if buffer == null then Uninitialized
        else if n == 0 then SizeIsZero
        else if n > |old(Unclaimed())| then Underflow
        else Ok
      ensures status.Ok? ==>
        && dst[..n] == old(Unclaimed())[..n] && dst[n..] == old(dst[n..])
        && head == commit && Contents() == old(Unclaimed())[n..]
      ensures !status.Ok? ==> Contents() == old(Contents()) && head == old(head) && dst[..] == old(dst[..])
    {
      if buffer == null { return Uninitialized; }
      if n == 0 { return SizeIsZero; }
      var ok, ticketIdx := Claim(n);
      if !ok { return Underflow; }
      TakeBytes(dst, n, ticketIdx, others);
      return Ok;
    }

    /** The copy and the commit of a claimed ticket, the last one taken. */
    method TakeBytes(dst: array<byte>, n: nat, ticketIdx: nat, others: seq<nat>)
      requires Valid() && buffer != null && n <= dst.Length && dst != buffer
      requires commit + Total(others) + n == head && ticketIdx == (commit + Total(others)) % WORD
      modifies this`commitIdx, this`commit, dst
      ensures Valid() && commit == head
      ensures Total(others) + n <= |old(Contents())|
      ensures dst[..n] == old(Contents())[Total(others)..][..n] && dst[n..] == old(dst[n..])
      ensures Contents() == old(Contents())[Total(others) + n..]
    {
      CopyOut(dst, buffer, mask, ticketIdx, n, head - n);
      SliceMiddle(buffer[..], capacity, commit, tail - commit, Total(others), n);
      CommitInTurn(ticketIdx, n, others, head - n);
    }

    method DequeueBulk(dsts: seq<array<byte>>, sizes: seq<nat>, others: seq<nat>) returns (status: Status)
      requires Valid() && commit + Total(others) == head && |dsts| == |sizes| && Total(sizes) < WORD
      requires Separate(dsts, sizes, buffer)
      modifies this`headIdx, this`head, this`commitIdx, this`commit, dsts
      ensures Valid()
      ensures status ==
        if buffer == null then Uninitialized
        else if Total(sizes) == 0 then SizeIsZero
        else if Total(sizes) > |old(Unclaimed())| then Underflow
        else Ok
      ensures status.Ok? ==>
        && head == commit && Contents() == old(Unclaimed())[Total(sizes)..]
        && Distributed(dsts, sizes, old(Unclaimed()))
        && forall i :: 0 <= i < |dsts| ==> dsts[i][sizes[i]..] == old(dsts[i][sizes[i]..])
      ensures !status.Ok? ==>
        && Contents() == old(Contents()) && head == old(head)
        && forall i :: 0 <= i < |dsts| ==> dsts[i][..] == old(dsts[i][..])
    {
      if buffer == null { return Uninitialized; }
      if |dsts| == 0 { return SizeIsZero; }
      var totalSize := TotalSize(sizes);
      if totalSize == 0 { return SizeIsZero; }
      ghost var q := Unclaimed();
      var ok, ticketIdx := Claim(totalSize);
      if !ok { return Underflow; }
      TakeChunks(dsts, sizes, totalSize, ticketIdx, others, q);
      return Ok;
    }

    /** The copy loop and the commit of a claimed ticket, the last one taken. */
    method TakeChunks(dsts: seq<array<byte>>, sizes: seq<nat>, totalSize: nat, ticketIdx: nat, others: seq<nat>,
                      ghost q: seq<byte>)
      requires Valid() && buffer != null && |dsts| == |sizes| && Separate(dsts, sizes, buffer)
      requires totalSize == Total(sizes) && commit + Total(others) + totalSize == head
      requires ticketIdx == (commit + Total(others)) % WORD && q == Contents()[Total(others)..]
      modifies this`commitIdx, this`commit, dsts
      ensures Valid() && commit == head
      ensures Distributed(dsts, sizes, q) && totalSize <= |q| && Contents() == q[totalSize..]
      ensures forall i :: 0 <= i < |dsts| ==> dsts[i][sizes[i]..] == old(dsts[i][sizes[i]..])
    {
      SliceSplit(buffer[..], capacity, commit, tail - commit, Total(others));
      CopyChunksOut(dsts, sizes, buffer, mask, ticketIdx, commit + Total(others), q);
      CommitInTurn(ticketIdx, totalSize, others, head - totalSize);
    }

    /** Reads from the commit index on, so it may return bytes that are already claimed. */
    method PeekBytes(dst: array<byte>, n: nat) returns (status: Status)
      requires Valid() && n <= dst.Length && dst != buffer
      modifies dst
      ensures Valid() && Contents() == old(Contents())
      ensures status ==
        if buffer == null then Uninitialized
        else if n == 0 then SizeIsZero
        else if n > |Contents()| then Underflow
        else Ok
      ensures status.Ok? ==> dst[..n] == Contents()[..n] && dst[n..] == old(dst[n..])
      ensures !status.Ok? ==> dst[..] == old(dst[..])
    {
      if buffer == null { return Uninitialized; }
      if n == 0 { return SizeIsZero; }
      WordDifference(tail, commit);
      if n > Sub(Word64, tailIdx, commitIdx) { return Underflow; }
      CopyOut(dst, buffer, mask, commitIdx, n, commit);
      SliceSplit(buffer[..], capacity, commit, tail - commit, n);
      return Ok;
    }
  }

  /** `fetch_sub` undoes `fetch_add` of the same size. */
  lemma ModCancel(x: nat, n: nat)
    ensures ((x % WORD + n) % WORD - n) % WORD == x % WORD
  {
    var a := x % WORD + n;
    assert a % WORD - n == x % WORD - (a / WORD) * WORD;
    ModAddMultiple(x % WORD, WORD, -(a / WORD));
  }
}
