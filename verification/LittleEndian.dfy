/** Integers as the bytes that `memcpy` moves, least significant first. */
module LittleEndian {
  import opened Bits
  import opened Ring

  function Pow256(k: nat): (p: nat)
    ensures p > 0
  {
    if k == 0 then 1 else 256 * Pow256(k - 1)
  }

  function ToBytes(n: nat, k: nat): (bs: seq<byte>)
    ensures |bs| == k
    decreases k, n
  {
    if k == 0 then [] else [(n % 256) as byte] + ToBytes(n / 256, k - 1)
  }

  function FromBytes(bs: seq<byte>): nat {
    if bs == [] then 0 else bs[0] as nat + 256 * FromBytes(bs[1..])
  }

  lemma {:induction false} RoundTrip(n: nat, k: nat)
    requires n < Pow256(k)
    ensures FromBytes(ToBytes(n, k)) == n
    decreases k
  {
    if k > 0 {
      RoundTrip(n / 256, k - 1);
      assert ToBytes(n, k)[1..] == ToBytes(n / 256, k - 1);
    }
  }

  /** The bytes are determined by the integer read from them. */
  lemma {:induction false} BytesRoundTrip(bs: seq<byte>)
    ensures ToBytes(FromBytes(bs), |bs|) == bs
  {
    if bs != [] {
      var rest := FromBytes(bs[1..]);
      BytesRoundTrip(bs[1..]);
      assert (bs[0] as nat + 256 * rest) % 256 == bs[0] as nat && (bs[0] as nat + 256 * rest) / 256 == rest;
      assert bs == [bs[0]] + bs[1..];
    }
  }

  /** Byte `i` is the digit of weight 256 to the power `i`. */
  lemma {:induction false} ByteAt(n: nat, k: nat, i: nat)
    requires i < k
    ensures ToBytes(n, k)[i] as nat == (n / Pow256(i)) % 256
    decreases k
  {
    if i > 0 {
      ByteAt(n / 256, k - 1, i - 1);
      DivideTwice(n, Pow256(i - 1));
    }
  }

  lemma DivideTwice(n: nat, p: nat)
    requires p > 0
    ensures n / 256 / p == n / (256 * p)
  {
    var q, r := n / (256 * p), n % (256 * p);
    assert n == 256 * (p * q) + r;
    assert n / 256 == p * q + r / 256 && r / 256 < p;
    DivModUnique(n / 256, p, q, r / 256);
  }

  lemma Widths()
    ensures Pow256(1) == 0x100 && Pow256(2) == 0x1_0000 && Pow256(4) == 0x1_0000_0000
    ensures Pow256(8) == 0x1_0000_0000_0000_0000
  {
    assert Pow256(3) == 0x100_0000;
    assert Pow256(5) == 0x100_0000_0000;
    assert Pow256(6) == 0x1_0000_0000_0000;
    assert Pow256(7) == 0x100_0000_0000_0000;
  }
}
