/** The copies in and out of the ring's memory, done in place with at most one split. */
module RingCopy {
  import opened Bits
  import opened Ring

  /** `s` is what the slots from index `from` on hold. */
  ghost predicate IsSlice(buf: seq<byte>, cap: nat, from: nat, s: seq<byte>)
    requires cap > 0
  {
    forall j {:trigger Slot(j, cap)} :: from <= j < from + |s| ==> s[j - from] == Load(buf, Slot(j, cap))
  }

  lemma SliceExists(buf: seq<byte>, cap: nat, from: nat, n: nat)
    requires cap > 0
    ensures exists s :: |s| == n && IsSlice(buf, cap, from, s)
  {
    var s := seq(n, i requires 0 <= i < n => Load(buf, Slot(from + i, cap)));
    forall j | from <= j < from + n ensures s[j - from] == Load(buf, Slot(j, cap)) {
      assert from + (j - from) == j;
    }
    assert IsSlice(buf, cap, from, s);
  }

  /** `n` bytes of the ring from index `from`. */
  ghost function Slice(buf: seq<byte>, cap: nat, from: nat, n: nat): (s: seq<byte>)
    requires cap > 0
    ensures |s| == n
  {
    SliceExists(buf, cap, from, n);
    var s :| |s| == n && IsSlice(buf, cap, from, s);
    s
  }

  lemma SliceAt(buf: seq<byte>, cap: nat, from: nat, n: nat, i: nat)
    requires cap > 0 && i < n
    ensures Slice(buf, cap, from, n)[i] == Load(buf, Slot(from + i, cap))
  {
    assert IsSlice(buf, cap, from, Slice(buf, cap, from, n));
  }

  /** `new` is `was` with `data` written from index `at`, and nothing else that still lies within
      one capacity of the end of `data` touched. */
  ghost predicate Wrote(was: seq<byte>, new_: seq<byte>, cap: nat, at: nat, data: seq<byte>)
    requires cap > 0
  {
    && |new_| == |was| == cap
    && Holds(new_, cap, at, data)
    && forall j: nat {:trigger Load(new_, Slot(j, cap))} :: at + |data| <= j + cap && j < at ==>
         Load(new_, Slot(j, cap)) == Load(was, Slot(j, cap))
  }

  lemma WroteNothing(buf: seq<byte>, cap: nat, at: nat)
    requires cap > 0 && |buf| == cap
    ensures Wrote(buf, buf, cap, at, [])
  {
  }

  /** Writing two blocks one after the other writes their concatenation. */
  lemma WroteBoth(a: seq<byte>, b: seq<byte>, c: seq<byte>, cap: nat, at: nat, x: seq<byte>, y: seq<byte>)
    requires cap > 0 && |x| + |y| <= cap
    requires Wrote(a, b, cap, at, x) && Wrote(b, c, cap, at + |x|, y)
    ensures Wrote(a, c, cap, at, x + y)
  {
    forall i | 0 <= i < |x| + |y|
      ensures Load(c, Slot(at + i, cap)) == (x + y)[i]
    {
      if i < |x| {
        assert Load(b, Slot(at + i, cap)) == x[i];
      } else {
        assert Load(c, Slot(at + |x| + (i - |x|), cap)) == y[i - |x|];
        assert at + |x| + (i - |x|) == at + i;
      }
    }
  }

  lemma WroteSlice(was: seq<byte>, new_: seq<byte>, cap: nat, head: nat, tail: nat, data: seq<byte>)
    requires cap > 0 && head <= tail && tail + |data| <= head + cap
    requires Wrote(was, new_, cap, tail, data)
    ensures Slice(new_, cap, head, tail - head + |data|) == Slice(was, cap, head, tail - head) + data
  {
    var n := tail - head;
    forall i | 0 <= i < n + |data|
      ensures Slice(new_, cap, head, n + |data|)[i] == (Slice(was, cap, head, n) + data)[i]
    {
      SliceAt(new_, cap, head, n + |data|, i);
      if i < n {
        SliceAt(was, cap, head, n, i);
        assert Load(new_, Slot(head + i, cap)) == Load(was, Slot(head + i, cap));
      } else {
        assert Load(new_, Slot(tail + (i - n), cap)) == data[i - n];
        assert tail + (i - n) == head + i;
      }
    }
  }

  /** A slice cut at `k`. */
  lemma SliceSplit(buf: seq<byte>, cap: nat, from: nat, n: nat, k: nat)
    requires cap > 0 && k <= n
    ensures Slice(buf, cap, from, n)[..k] == Slice(buf, cap, from, k)
    ensures Slice(buf, cap, from, n)[k..] == Slice(buf, cap, from + k, n - k)
  {
    var s, x, y := Slice(buf, cap, from, n), Slice(buf, cap, from, k), Slice(buf, cap, from + k, n - k);
    forall i | 0 <= i < k ensures s[..k][i] == x[i] {
      SliceAt(buf, cap, from, n, i);
      SliceAt(buf, cap, from, k, i);
    }
    forall i | 0 <= i < n - k ensures s[k..][i] == y[i] {
      SliceAt(buf, cap, from, n, k + i);
      SliceAt(buf, cap, from + k, n - k, i);
      assert from + k + i == from + (k + i);
    }
  }

  /** Byte `s` of the buffer after `data` is copied to offset `pos`, the excess to the start. */
  function SplitCopied(was: seq<byte>, pos: nat, data: seq<byte>, s: nat): byte
    requires pos <= |was| && |data| <= |was| && s < |was|
  {
    if pos <= s < pos + |data| then data[s - pos]
    else if s < pos + |data| - |was| then data[s + (|was| - pos)]
    else was[s]
  }

  /** Every byte of `new_` is what the split copy of `data` at index `at` leaves there. */
  ghost predicate SplitCopy(was: seq<byte>, new_: seq<byte>, cap: nat, at: nat, data: seq<byte>)
    requires cap > 0
  {
    && |was| == |new_| == cap && |data| <= cap
    && forall s {:trigger SplitCopied(was, Slot(at, cap), data, s)} :: 0 <= s < cap ==>
         new_[s] == SplitCopied(was, Slot(at, cap), data, s)
  }

  lemma SplitCopyStores(was: seq<byte>, new_: seq<byte>, cap: nat, at: nat, data: seq<byte>, i: nat)
    requires cap > 0 && SplitCopy(was, new_, cap, at, data) && i < |data|
    ensures Load(new_, Slot(at + i, cap)) == data[i]
  {
    SlotStep(at, i, cap);
    assert new_[Slot(at + i, cap)] == SplitCopied(was, Slot(at, cap), data, Slot(at + i, cap));
  }

  lemma SplitCopyKeeps(was: seq<byte>, pos: nat, cap: nat, at: nat, data: seq<byte>, j: nat)
    requires cap > 0 && |was| == cap && |data| <= cap && pos == Slot(at, cap)
    requires at + |data| <= j + cap && j < at
    ensures SplitCopied(was, pos, data, Slot(j, cap)) == Load(was, Slot(j, cap))
  {
    var s := Slot(j, cap);
    if pos <= s < pos + |data| {
      CopyAvoids(at, |data|, cap, j, s - pos);
    } else if s < pos + |data| - cap {
      CopyAvoids(at, |data|, cap, j, s + (cap - pos));
    }
  }

  lemma SplitCopyWrote(was: seq<byte>, new_: seq<byte>, cap: nat, at: nat, data: seq<byte>)
    requires cap > 0 && SplitCopy(was, new_, cap, at, data)
    ensures Wrote(was, new_, cap, at, data)
  {
    forall i: nat | i < |data| ensures Load(new_, Slot(at + i, cap)) == data[i] {
      SplitCopyStores(was, new_, cap, at, data, i);
    }
    forall j: nat | at + |data| <= j + cap && j < at
      ensures Load(new_, Slot(j, cap)) == Load(was, Slot(j, cap))
    {
      SplitCopyKeeps(was, Slot(at, cap), cap, at, data, j);
    }
  }

  /** Slots written by a copy of `n` bytes at `at` are not slots of the bytes kept before it. */
  lemma CopyAvoids(at: nat, n: nat, cap: nat, j: nat, i: nat)
    requires cap > 0 && i < n <= cap && at + n <= j + cap && j < at
    ensures Slot(j, cap) != Wrap(Slot(at, cap), i, cap)
  {
    SlotStep(at, i, cap);
    SlotDistinct(j, at + i, cap);
  }

  /** The two reads of a split copy yield the slice. */
  lemma SplitRead(buf: seq<byte>, cap: nat, at: nat, n: nat)
    requires cap > 0 && |buf| == cap && n <= cap
    ensures var pos := Slot(at, cap);
            Slice(buf, cap, at, n) == if n <= cap - pos then buf[pos..pos + n] else buf[pos..] + buf[..n - (cap - pos)]
  {
    var pos := Slot(at, cap);
    var out := if n <= cap - pos then buf[pos..pos + n] else buf[pos..] + buf[..n - (cap - pos)];
    forall i | 0 <= i < n ensures out[i] == Slice(buf, cap, at, n)[i] {
      SliceAt(buf, cap, at, n, i);
      SlotStep(at, i, cap);
    }
  }

  method Memcpy(dst: array<byte>, at: nat, src: seq<byte>)
    requires at + |src| <= dst.Length
    modifies dst
    ensures forall i :: 0 <= i < dst.Length ==>
              dst[i] == if at <= i < at + |src| then src[i - at] else old(dst[i])
  {
    forall i | 0 <= i < |src| {
      dst[at + i] := src[i];
    }
  }

  /** `memcpy` in terms of what lies before and after its end. */
  method Put(dst: array<byte>, at: nat, src: seq<byte>)
    requires at + |src| <= dst.Length
    modifies dst
    ensures dst[..at + |src|] == old(dst[..at]) + src
    ensures dst[at + |src|..] == old(dst[at + |src|..])
  {
    Memcpy(dst, at, src);
  }

  /** `idx & mask`: the slot of the index. */
  method Masked(idx: nat, mask: nat, ghost at: nat) returns (pos: nat)
    requires Capacity(mask + 1) && idx == at % WORD
    ensures pos == Slot(at, mask + 1) <= mask
  {
    SameSlot(at, 0, mask + 1);
    pos := BitAnd(idx, mask);
  }

  /** Store at offset `pos`, and what does not fit at the start of the buffer. */
  method StoreSplit(buffer: array<byte>, pos: nat, data: seq<byte>)
    requires pos < buffer.Length && |data| <= buffer.Length
    modifies buffer
    ensures forall s :: 0 <= s < buffer.Length ==> buffer[s] == SplitCopied(old(buffer[..]), pos, data, s)
  {
    var spaceToEnd := buffer.Length - pos;
    if |data| <= spaceToEnd {
      Memcpy(buffer, pos, data);
    } else {
      Memcpy(buffer, pos, data[..spaceToEnd]);
      Memcpy(buffer, 0, data[spaceToEnd..]);
    }
  }

  /** Load from offset `pos`, and what lies beyond the end from the start of the buffer. */
  method LoadSplit(dst: array<byte>, buffer: array<byte>, pos: nat, n: nat)
    requires pos < buffer.Length && n <= buffer.Length && n <= dst.Length && dst != buffer
    modifies dst
    ensures dst[..n] == if n <= buffer.Length - pos then buffer[pos..pos + n]
                        else buffer[pos..] + buffer[..n - (buffer.Length - pos)]
    ensures dst[n..] == old(dst[n..])
  {
    var bytesToEnd := buffer.Length - pos;
    if n <= bytesToEnd {
      Put(dst, 0, buffer[pos..pos + n]);
    } else {
      Put(dst, 0, buffer[pos..]);
      Put(dst, bytesToEnd, buffer[..n - bytesToEnd]);
    }
  }

  /** Copy `data` into the ring at word index `idx`, splitting at the end of the buffer. */
  method CopyIn(buffer: array<byte>, mask: nat, idx: nat, data: seq<byte>, ghost at: nat)
    requires Capacity(buffer.Length) && mask == buffer.Length - 1
    requires idx == at % WORD && |data| <= buffer.Length
    modifies buffer
    ensures Wrote(old(buffer[..]), buffer[..], buffer.Length, at, data)
  {
    ghost var was := buffer[..];
    var pos := Masked(idx, mask, at);
    StoreSplit(buffer, pos, data);
    SplitCopyWrote(was, buffer[..], buffer.Length, at, data);
  }

  /** Copy `n` bytes out of the ring from word index `idx`, splitting at the end of the buffer. */
  method CopyOut(dst: array<byte>, buffer: array<byte>, mask: nat, idx: nat, n: nat, ghost at: nat)
    requires Capacity(buffer.Length) && mask == buffer.Length - 1
    requires idx == at % WORD && n <= buffer.Length && n <= dst.Length && dst != buffer
    modifies dst
    ensures dst[..n] == Slice(buffer[..], buffer.Length, at, n)
    ensures dst[n..] == old(dst[n..])
  {
    SplitRead(buffer[..], buffer.Length, at, n);
    var pos := Masked(idx, mask, at);
    LoadSplit(dst, buffer, pos, n);
  }

  /** A copy in right behind the bytes from `head` on appends to them. */
  method CopyBehind(buffer: array<byte>, mask: nat, idx: nat, data: seq<byte>, ghost head: nat, ghost at: nat)
    requires Capacity(buffer.Length) && mask == buffer.Length - 1
    requires idx == at % WORD && head <= at && at + |data| <= head + buffer.Length
    modifies buffer
    ensures Slice(buffer[..], buffer.Length, head, at - head + |data|)
         == old(Slice(buffer[..], buffer.Length, head, at - head)) + data
  {
    ghost var was := buffer[..];
    CopyIn(buffer, mask, idx, data, at);
    WroteSlice(was, buffer[..], buffer.Length, head, at, data);
  }
}
