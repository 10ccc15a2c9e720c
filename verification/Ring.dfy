/** Index arithmetic shared by the ring buffers. An index runs freely and is reduced to a
    slot of the buffer only when memory is touched. `Width` selects the code's 64-bit
    arithmetic or the unbounded arithmetic that it is compared with. */
module Ring {
  import opened Bits

  newtype byte = x: int | 0 <= x < 256

  datatype Width = Unbounded | Word64

  datatype Status = Ok | Uninitialized | Underflow | Overflow | SizeIsZero

  /** The slot of an index: its remainder modulo the capacity. */
  function Slot(idx: nat, cap: nat): (s: nat)
    requires cap > 0
    ensures s < cap
  {
    if idx < cap then idx else Slot(idx - cap, cap)
  }

  lemma {:induction false} SlotIsMod(idx: nat, cap: nat)
    requires cap > 0
    ensures Slot(idx, cap) == idx % cap
  {
    if idx < cap {
      DivModUnique(idx, cap, 0, idx);
    } else {
      SlotIsMod(idx - cap, cap);
      ModAddMultiple(idx - cap, cap, 1);
    }
  }

  /** Two indices less than a capacity apart have different slots. */
  lemma SlotDistinct(i: nat, j: nat, cap: nat)
    requires cap > 0 && i < j < i + cap
    ensures Slot(i, cap) != Slot(j, cap)
  {
    SlotIsMod(i, cap);
    SlotIsMod(j, cap);
    ModDistinct(i, j, cap);
  }

  /** The offset `k` bytes after offset `pos`, continuing at the start of the buffer. */
  function Wrap(pos: nat, k: nat, cap: nat): int {
    if k < cap - pos then pos + k else k - (cap - pos)
  }

  /** Stepping forward by less than the capacity wraps at most once. */
  lemma SlotStep(idx: nat, k: nat, cap: nat)
    requires k < cap
    ensures Slot(idx + k, cap) == Wrap(Slot(idx, cap), k, cap)
  {
    SlotIsMod(idx, cap);
    SlotIsMod(idx + k, cap);
    ModStep(idx, k, cap);
  }

  function Add(w: Width, a: nat, b: nat): nat {
    if w.Word64? then (a + b) % WORD else a + b
  }

  function Sub(w: Width, a: int, b: int): int {
    if w.Word64? then (a - b) % WORD else a - b
  }

  /** The comparison `capacity_ - (tail - head) < size`. */
  predicate TooFull(w: Width, cap: nat, tail: nat, head: nat, size: nat) {
    Sub(w, cap, Sub(w, tail, head)) < size
  }

  predicate TooEmpty(w: Width, tail: nat, head: nat, size: nat) {
    Sub(w, tail, head) < size
  }

  /** `idx & mask_` in the code, the remainder in the unbounded reading. */
  function Pos(w: Width, idx: nat, cap: nat): nat
    requires cap > 0
  {
    if w.Word64? then BitAnd(idx, cap - 1) else Slot(idx, cap)
  }

  /** The slot that byte `k` of a copy starting at index `idx` touches: the copy runs to the
      end of the buffer and continues at its start. */
  function CopySlot(w: Width, idx: nat, k: nat, cap: nat): int
    requires cap > 0
  {
    Wrap(Pos(w, idx, cap), k, cap)
  }

  function Store(buf: seq<byte>, i: int, b: byte): seq<byte> {
    if 0 <= i < |buf| then buf[i := b] else buf
  }

  function Load(buf: seq<byte>, i: int): byte {
    if 0 <= i < |buf| then buf[i] else 0
  }

  ghost predicate Capacity(cap: nat) {
    IsPow2(cap) && cap <= 0x8000_0000_0000_0000
  }

  lemma MaskedPosition(w: Width, idx: nat, cap: nat)
    requires Capacity(cap)
    ensures Pos(w, idx, cap) == Slot(idx, cap)
  {
    var k: nat :| cap == Pow2(k);
    MaskIsMod(idx, k);
    SlotIsMod(idx, cap);
  }

  /** Splitting a copy at the wrap visits the same slots as counting modulo the capacity. */
  lemma SplitCopySlot(w: Width, idx: nat, k: nat, cap: nat)
    requires Capacity(cap) && k < cap
    ensures CopySlot(w, idx, k, cap) == Slot(idx + k, cap)
  {
    MaskedPosition(w, idx, cap);
    SlotStep(idx, k, cap);
  }

  /** Reducing an index to a word first does not change its slot. */
  lemma WordSlot(idx: nat, cap: nat)
    requires Capacity(cap)
    ensures Slot(idx % WORD, cap) == Slot(idx, cap)
  {
    SlotIsMod(idx % WORD, cap);
    SlotIsMod(idx, cap);
    var k := Pow2DividesWord(cap);
    ModOfMod(idx, cap, k);
  }

  /** The chunk loops start a new split copy at `idx + offset` for every chunk; together they visit
      the slots of one copy of the total, byte by byte. */
  lemma ChunkSlot(w: Width, idx: nat, offset: nat, j: nat, cap: nat)
    requires Capacity(cap) && offset + j < cap
    ensures CopySlot(w, Add(w, idx, offset), j, cap) == CopySlot(w, idx, offset + j, cap)
  {
    SplitCopySlot(w, idx, offset + j, cap);
    SplitCopySlot(w, Add(w, idx, offset), j, cap);
    MaskedPosition(w, Add(w, idx, offset), cap);
    WordSlot(idx + offset, cap);
    SlotStep(idx + offset, j, cap);
    assert idx + offset + j == idx + (offset + j);
  }

  /** `size_t` subtraction of reduced indices gives the true difference when it is small. */
  lemma WordDifference(a: int, b: int)
    requires 0 <= a - b < WORD
    ensures (a % WORD - b % WORD) % WORD == a - b
  {
    var q := a / WORD - b / WORD;
    assert a % WORD - b % WORD == (a - b) - q * WORD;
    ModAddMultiple(a - b, WORD, -q);
  }

  lemma WordSum(a: nat, b: nat)
    ensures (a % WORD + b) % WORD == (a + b) % WORD
  {
    ModCongruent(a % WORD, a, b, WORD);
  }

  /** The size tests answer the same on reduced indices. */
  lemma SameTests(cap: nat, tail: nat, head: nat, size: nat)
    requires Capacity(cap) && head <= tail <= head + cap
    ensures TooFull(Word64, cap, tail % WORD, head % WORD, size) == TooFull(Unbounded, cap, tail, head, size)
    ensures TooEmpty(Word64, tail % WORD, head % WORD, size) == TooEmpty(Unbounded, tail, head, size)
  {
    WordDifference(tail, head);
  }

  /** `capacity_ - (tail - head) < size` on the words of two indices. */
  method IsFull(cap: nat, tailIdx: nat, headIdx: nat, size: nat, ghost tail: nat, ghost head: nat) returns (full: bool)
    requires Capacity(cap) && head <= tail <= head + cap && tailIdx == tail % WORD && headIdx == head % WORD
    ensures full <==> tail - head + size > cap
  {
    SameTests(cap, tail, head, size);
    full := TooFull(Word64, cap, tailIdx, headIdx, size);
  }

  /** `tail - head < size` on the words of two indices. */
  method IsShort(cap: nat, tailIdx: nat, headIdx: nat, size: nat, ghost tail: nat, ghost head: nat)
        returns (short: bool)
    requires Capacity(cap) && head <= tail <= head + cap && tailIdx == tail % WORD && headIdx == head % WORD
    ensures short <==> tail - head < size
  {
    SameTests(cap, tail, head, size);
    short := TooEmpty(Word64, tailIdx, headIdx, size);
  }

  lemma SameSlot(idx: nat, k: nat, cap: nat)
    requires Capacity(cap)
    ensures Pos(Word64, idx % WORD, cap) == Pos(Unbounded, idx, cap)
    ensures CopySlot(Word64, idx % WORD, k, cap) == CopySlot(Unbounded, idx, k, cap)
  {
    WordSlot(idx, cap);
    MaskedPosition(Word64, idx % WORD, cap);
  }

  /** The first `|xs|` slots from index `from` hold `xs`. */
  ghost predicate Holds(buf: seq<byte>, cap: nat, from: nat, xs: seq<byte>)
    requires cap > 0
  {
    forall i :: 0 <= i < |xs| ==> Load(buf, Slot(from + i, cap)) == xs[i]
  }

  lemma HoldsAppend(buf: seq<byte>, cap: nat, from: nat, xs: seq<byte>, b: byte)
    requires cap > 0 && Holds(buf, cap, from, xs) && Load(buf, Slot(from + |xs|, cap)) == b
    ensures Holds(buf, cap, from, xs + [b])
  {
  }

  /** Storing right after held bytes, less than a capacity from their start, extends them. */
  lemma StoreExtends(buf: seq<byte>, cap: nat, from: nat, xs: seq<byte>, b: byte)
    requires cap > 0 && |buf| == cap && |xs| < cap && Holds(buf, cap, from, xs)
    ensures Holds(Store(buf, Slot(from + |xs|, cap), b), cap, from, xs + [b])
  {
    var new_ := Store(buf, Slot(from + |xs|, cap), b);
    forall i | 0 <= i < |xs| ensures Load(new_, Slot(from + i, cap)) == xs[i] {
      SlotDistinct(from + i, from + |xs|, cap);
    }
    HoldsAppend(new_, cap, from, xs, b);
  }

  lemma HoldsDrop(buf: seq<byte>, cap: nat, from: nat, xs: seq<byte>, k: nat)
    requires cap > 0 && k <= |xs| && Holds(buf, cap, from, xs)
    ensures Holds(buf, cap, from + k, xs[k..])
  {
    forall i | 0 <= i < |xs| - k ensures Load(buf, Slot(from + k + i, cap)) == xs[k..][i] {
      assert from + k + i == from + (k + i);
      assert Load(buf, Slot(from + (k + i), cap)) == xs[k + i];
    }
  }
}
