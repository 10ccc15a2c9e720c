/** The chunk loops of the bulk operations, shared by both queues. */
module BulkCopy {
  import opened Bits
  import opened Ring
  import opened RingCopy
  import opened Chunks

  /** The destinations are distinct arrays, apart from the ring and large enough. */
  ghost predicate Separate(dsts: seq<array<byte>>, sizes: seq<nat>, buffer: array?<byte>)
    requires |dsts| == |sizes|
  {
    && (forall i :: 0 <= i < |dsts| ==> dsts[i] != buffer && sizes[i] <= dsts[i].Length)
    && (forall i, j :: 0 <= i < j < |dsts| ==> dsts[i] != dsts[j])
  }

  /** Each destination starts with its piece of `q`. */
  ghost predicate Distributed(dsts: seq<array<byte>>, sizes: seq<nat>, q: seq<byte>)
    requires |dsts| == |sizes|
    reads dsts
  {
    && Total(sizes) <= |q|
    && forall i :: 0 <= i < |dsts| ==>
         sizes[i] <= dsts[i].Length && dsts[i][..sizes[i]] == Part(q, sizes, i)
  }

  /** The copy loop of `enqueue_bulk`: the chunks land back to back from index `at`. */
  method CopyChunksIn(chunks: seq<seq<byte>>, buffer: array<byte>, mask: nat, idx: nat, ghost at: nat)
    requires Capacity(buffer.Length) && mask == buffer.Length - 1 && idx == at % WORD
    requires |Flatten(chunks)| <= buffer.Length
    modifies buffer
    ensures Wrote(old(buffer[..]), buffer[..], buffer.Length, at, Flatten(chunks))
  {
    ghost var was := buffer[..];
    var offset := 0;
    WroteNothing(was, buffer.Length, at);
    for i := 0 to |chunks|
      invariant offset == |Flatten(chunks[..i])|
      invariant Wrote(was, buffer[..], buffer.Length, at, Flatten(chunks[..i]))
    {
      ghost var mid := buffer[..];
      FlattenSnoc(chunks, i);
      FlattenPrefix(chunks, i + 1);
      WordSum(at, offset);
      CopyIn(buffer, mask, Add(Word64, idx, offset), chunks[i], at + offset);
      WroteBoth(was, mid, buffer[..], buffer.Length, at, Flatten(chunks[..i]), chunks[i]);
      offset := offset + |chunks[i]|;
    }
    assert chunks[..|chunks|] == chunks;
  }

  method CopyChunksBehind(chunks: seq<seq<byte>>, buffer: array<byte>, mask: nat, idx: nat, ghost head: nat,
        ghost at: nat)
    requires Capacity(buffer.Length) && mask == buffer.Length - 1
    requires idx == at % WORD && head <= at && at + |Flatten(chunks)| <= head + buffer.Length
    modifies buffer
    ensures Slice(buffer[..], buffer.Length, head, at - head + |Flatten(chunks)|)
         == old(Slice(buffer[..], buffer.Length, head, at - head)) + Flatten(chunks)
  {
    ghost var was := buffer[..];
    CopyChunksIn(chunks, buffer, mask, idx, at);
    WroteSlice(was, buffer[..], buffer.Length, head, at, Flatten(chunks));
  }

  /** The copy loop of `dequeue_bulk`: each destination starts with its piece and keeps the rest. */
  method CopyChunksOut(dsts: seq<array<byte>>, sizes: seq<nat>, buffer: array<byte>, mask: nat, idx: nat,
                       ghost at: nat, ghost q: seq<byte>)
    requires Capacity(buffer.Length) && mask == buffer.Length - 1 && idx == at % WORD
    requires |dsts| == |sizes| && Total(sizes) <= |q| <= buffer.Length
    requires IsSlice(buffer[..], buffer.Length, at, q)
    requires Separate(dsts, sizes, buffer)
    modifies dsts
    ensures Distributed(dsts, sizes, q)
    ensures forall i :: 0 <= i < |dsts| ==> dsts[i][sizes[i]..] == old(dsts[i][sizes[i]..])
  {
    var offset := 0;
    for i := 0 to |dsts|
      invariant offset == Total(sizes[..i]) && buffer[..] == old(buffer[..])
      invariant forall k :: 0 <= k < i ==> dsts[k][..sizes[k]] == Part(q, sizes, k)
      invariant forall k :: 0 <= k < |dsts| ==> dsts[k][sizes[k]..] == old(dsts[k][sizes[k]..])
    {
      offset := CopyPiece(dsts[i], buffer, mask, idx, sizes, i, offset, at, q);
    }
  }

  /** The copy of one piece, from the running offset; returns the next offset. */
  method CopyPiece(dst: array<byte>, buffer: array<byte>, mask: nat, idx: nat, sizes: seq<nat>, i: nat, offset: nat,
                   ghost at: nat, ghost q: seq<byte>) returns (next: nat)
    requires Capacity(buffer.Length) && mask == buffer.Length - 1 && idx == at % WORD
    requires i < |sizes| && offset == Total(sizes[..i]) && Total(sizes) <= |q| <= buffer.Length
    requires IsSlice(buffer[..], buffer.Length, at, q) && dst != buffer && sizes[i] <= dst.Length
    modifies dst
    ensures next == Total(sizes[..i + 1])
    ensures dst[..sizes[i]] == Part(q, sizes, i) && dst[sizes[i]..] == old(dst[sizes[i]..])
  {
    var from := ChunkStart(idx, sizes, i, offset, at);
    PieceIsPart(buffer[..], buffer.Length, at, q, sizes, i);
    CopyOut(dst, buffer, mask, from, sizes[i], at + offset);
    next := offset + sizes[i];
  }

  /** `current + offset`, and where the next offset will be. */
  method ChunkStart(idx: nat, sizes: seq<nat>, i: nat, offset: nat, ghost at: nat) returns (from: nat)
    requires idx == at % WORD && i < |sizes| && offset == Total(sizes[..i])
    ensures from == (at + offset) % WORD
    ensures Total(sizes[..i + 1]) == offset + sizes[i] <= Total(sizes)
  {
    TotalSnoc(sizes, i);
    PartBounds(sizes, i);
    WordSum(at, offset);
    from := Add(Word64, idx, offset);
  }

  lemma PieceIsPart(buf: seq<byte>, cap: nat, at: nat, q: seq<byte>, sizes: seq<nat>, i: nat)
    requires cap > 0 && i < |sizes| && Total(sizes) <= |q| && IsSlice(buf, cap, at, q)
    ensures Slice(buf, cap, at + Total(sizes[..i]), sizes[i]) == Part(q, sizes, i)
  {
    PartBounds(sizes, i);
    var offset, n := Total(sizes[..i]), sizes[i];
    var x, y := Slice(buf, cap, at + offset, n), Part(q, sizes, i);
    forall j | 0 <= j < n ensures x[j] == y[j] {
      SliceAt(buf, cap, at + offset, n, j);
      assert q[at + offset + j - at] == Load(buf, Slot(at + offset + j, cap));
    }
  }

  lemma SliceMiddle(buf: seq<byte>, cap: nat, from: nat, n: nat, offset: nat, k: nat)
    requires cap > 0 && offset + k <= n
    ensures Slice(buf, cap, from, n)[offset..offset + k] == Slice(buf, cap, from + offset, k)
  {
    SliceSplit(buf, cap, from, n, offset);
    SliceSplit(buf, cap, from + offset, n - offset, k);
    var s := Slice(buf, cap, from, n);
    assert s[offset..offset + k] == s[offset..][..k];
  }

  /** The size loop of the bulk operations, in `size_t` arithmetic. */
  method TotalSize(sizes: seq<nat>) returns (total: nat)
    ensures total == Total(sizes) % WORD
    ensures Total(sizes) < WORD ==> total == Total(sizes)
  {
    total := 0;
    for i := 0 to |sizes|
      invariant total == Total(sizes[..i]) % WORD
    {
      TotalSnoc(sizes, i);
      WordSum(Total(sizes[..i]), sizes[i]);
      total := Add(Word64, total, sizes[i]);
    }
    assert sizes[..|sizes|] == sizes;
  }
}
