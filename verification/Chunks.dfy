/** Lists of byte chunks and lists of sizes: concatenation, totals and cutting. */
module Chunks {
  import opened Ring

  /** The bytes of a list of chunks, in order. */
  function Flatten(chunks: seq<seq<byte>>): seq<byte> {
    if chunks == [] then [] else chunks[0] + Flatten(chunks[1..])
  }

  function Total(sizes: seq<nat>): nat {
    if sizes == [] then 0 else sizes[0] + Total(sizes[1..])
  }

  function Sizes(chunks: seq<seq<byte>>): (s: seq<nat>)
    ensures |s| == |chunks|
  {
    seq(|chunks|, i requires 0 <= i < |chunks| => |chunks[i]|)
  }

  lemma {:induction false} FlattenSnoc(chunks: seq<seq<byte>>, i: nat)
    requires i < |chunks|
    ensures Flatten(chunks[..i + 1]) == Flatten(chunks[..i]) + chunks[i]
  {
    if i == 0 {
      assert chunks[..1] == [chunks[0]] && chunks[..0] == [];
      assert chunks[..1][1..] == [];
    } else {
      FlattenSnoc(chunks[1..], i - 1);
      assert chunks[..i + 1][1..] == chunks[1..][..i];
      assert chunks[..i][1..] == chunks[1..][..i - 1];
    }
  }

  lemma Associate(x: seq<byte>, y: seq<byte>, z: seq<byte>)
    ensures x + (y + z) == (x + y) + z
  {
  }

  lemma {:induction false} FlattenConcat(a: seq<seq<byte>>, b: seq<seq<byte>>)
    ensures Flatten(a + b) == Flatten(a) + Flatten(b)
  {
    if a == [] {
      assert a + b == b;
    } else {
      FlattenConcat(a[1..], b);
      assert (a + b)[1..] == a[1..] + b;
      Associate(a[0], Flatten(a[1..]), Flatten(b));
    }
  }

  lemma FlattenAppend(a: seq<seq<byte>>, x: seq<byte>)
    ensures Flatten(a + [x]) == Flatten(a) + x
  {
    FlattenConcat(a, [x]);
    assert [x][1..] == [] && x + [] == x;
  }

  lemma {:induction false} TotalSnoc(sizes: seq<nat>, i: nat)
    requires i < |sizes|
    ensures Total(sizes[..i + 1]) == Total(sizes[..i]) + sizes[i]
  {
    if i == 0 {
      assert sizes[..1] == [sizes[0]] && sizes[..0] == [];
      assert sizes[..1][1..] == [];
    } else {
      TotalSnoc(sizes[1..], i - 1);
      assert sizes[..i + 1][1..] == sizes[1..][..i];
      assert sizes[..i][1..] == sizes[1..][..i - 1];
    }
  }

  lemma {:induction false} TotalPrefix(sizes: seq<nat>, i: nat)
    requires i <= |sizes|
    ensures Total(sizes[..i]) <= Total(sizes)
    decreases |sizes| - i
  {
    if i < |sizes| {
      TotalSnoc(sizes, i);
      TotalPrefix(sizes, i + 1);
    } else {
      assert sizes[..i] == sizes;
    }
  }

  lemma {:induction false} FlattenLength(chunks: seq<seq<byte>>)
    ensures |Flatten(chunks)| == Total(Sizes(chunks))
  {
    if chunks != [] {
      FlattenLength(chunks[1..]);
      assert Sizes(chunks)[1..] == Sizes(chunks[1..]);
    }
  }

  lemma PartBounds(sizes: seq<nat>, i: nat)
    requires i < |sizes|
    ensures Total(sizes[..i]) + sizes[i] <= Total(sizes)
  {
    TotalSnoc(sizes, i);
    TotalPrefix(sizes, i + 1);
  }

  /** The `i`-th piece of `q` when it is cut at the given sizes. */
  function Part(q: seq<byte>, sizes: seq<nat>, i: nat): (p: seq<byte>)
    requires i < |sizes| && Total(sizes) <= |q|
    ensures |p| == sizes[i]
  {
    PartBounds(sizes, i);
    q[Total(sizes[..i])..Total(sizes[..i]) + sizes[i]]
  }

  lemma {:induction false} FlattenPrefix(chunks: seq<seq<byte>>, i: nat)
    requires i <= |chunks|
    ensures |Flatten(chunks[..i])| <= |Flatten(chunks)|
    decreases |chunks| - i
  {
    if i < |chunks| {
      FlattenSnoc(chunks, i);
      FlattenPrefix(chunks, i + 1);
    } else {
      assert chunks[..i] == chunks;
    }
  }
}
