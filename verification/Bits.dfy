/** Machine arithmetic on natural numbers: powers of two, bitwise `and`, bit scans,
    and the remainders that the ring buffers and the line splitter rely on. */
module Bits {

  const WORD: nat := 0x1_0000_0000_0000_0000

  function Pow2(k: nat): (p: nat)
    ensures p > 0
  {
    if k == 0 then 1 else 2 * Pow2(k - 1)
  }

  ghost predicate IsPow2(n: nat) {
    exists k: nat :: n == Pow2(k)
  }

  /** Bit `i` of `x`. */
  predicate Bit(x: nat, i: nat) {
    (x / Pow2(i)) % 2 == 1
  }

  /** The `&` operator on unsigned words, as a recursion over the binary digits. */
  function BitAnd(x: nat, y: nat): nat {
    if x == 0 || y == 0 then 0
    else 2 * BitAnd(x / 2, y / 2) + (if x % 2 == 1 && y % 2 == 1 then 1 else 0)
  }

  // ---------------------------------------------------------------- remainders

  lemma MultipleBounds(d: int, m: int)
    requires m > 0
    ensures d >= 1 ==> d * m >= m
    ensures d <= 0 ==> d * m <= 0
    ensures d <= -1 ==> d * m <= -m
  {
    if d >= 1 {
      assert (d - 1) * m >= 0;
    } else if d <= -1 {
      assert (-d - 1) * m >= 0;
    }
  }

  /** Quotient and remainder are the only pair that decomposes `x`. */
  lemma DivModUnique(x: int, m: int, q: int, r: int)
    requires m > 0 && 0 <= r < m && x == q * m + r
    ensures x / m == q && x % m == r
  {
    var d := x / m - q;
    assert x == (x / m) * m + x % m;
    assert d * m == r - x % m by {
      assert (x / m - q) * m == (x / m) * m - q * m;
    }
    MultipleBounds(d, m);
  }

  lemma ModAddMultiple(x: int, m: int, k: int)
    requires m > 0
    ensures (x + k * m) % m == x % m
  {
    assert x + k * m == (x / m + k) * m + x % m by {
      assert (x / m + k) * m == (x / m) * m + k * m;
    }
    DivModUnique(x + k * m, m, x / m + k, x % m);
  }

  /** Remainders of two sums agree when the remainders of their first terms do. */
  lemma ModCongruent(x: int, y: int, d: int, m: int)
    requires m > 0 && x % m == y % m
    ensures (x + d) % m == (y + d) % m
  {
    var k := x / m - y / m;
    assert x == y + k * m by {
      assert (x / m - y / m) * m == (x / m) * m - (y / m) * m;
    }
    ModAddMultiple(y + d, m, k);
  }

  /** Two indices less than `m` apart fall into different slots. */
  lemma ModDistinct(i: int, j: int, m: int)
    requires m > 0 && i < j < i + m
    ensures i % m != j % m
  {
    var d := j / m - i / m;
    assert j - i == d * m + (j % m - i % m) by {
      assert (j / m - i / m) * m == (j / m) * m - (i / m) * m;
    }
    MultipleBounds(d, m);
    MultipleBounds(d - 1, m);
    assert (d - 1) * m == d * m - m;
  }

  /** Stepping forward by less than `m` wraps at most once. */
  lemma ModStep(x: nat, k: nat, m: nat)
    requires k < m
    ensures (x + k) % m == if k < m - x % m then x % m + k else k - (m - x % m)
  {
    var q, p := x / m, x % m;
    assert x == q * m + p;
    if k < m - p {
      DivModUnique(x + k, m, q, p + k);
    } else {
      assert (q + 1) * m == q * m + m;
      DivModUnique(x + k, m, q + 1, k - (m - p));
    }
  }

  /** A remainder survives reduction by a multiple of the modulus. */
  lemma ModOfMod(x: int, m: int, k: int)
    requires m > 0 && k > 0
    ensures k * m > 0 && (x % (k * m)) % m == x % m
  {
    assert k * m > 0 by { assert (k - 1) * m >= 0; }
    var q := x / (k * m);
    assert x % (k * m) == x + (-(q * k)) * m by {
      assert x == q * (k * m) + x % (k * m);
      assert q * (k * m) == (q * k) * m;
      assert (-(q * k)) * m == -((q * k) * m);
    }
    ModAddMultiple(x, m, -(q * k));
  }

  // ------------------------------------------------------------ powers of two

  lemma Doubled(x: nat, y: nat)
    ensures 2 * (x * y) == (2 * x) * y
  {
  }

  lemma {:induction false} Pow2Add(a: nat, b: nat)
    ensures Pow2(a + b) == Pow2(a) * Pow2(b)
  {
    if a > 0 {
      Pow2Add(a - 1, b);
      Doubled(Pow2(a - 1), Pow2(b));
      assert Pow2(a + b) == 2 * Pow2(a - 1 + b);
    }
  }

  lemma {:induction false} Pow2Monotone(a: nat, b: nat)
    requires a <= b
    ensures Pow2(a) <= Pow2(b)
  {
    if a < b {
      Pow2Monotone(a, b - 1);
    }
  }

  lemma Pow2Word()
    ensures Pow2(63) == 0x8000_0000_0000_0000 && Pow2(64) == WORD
  {
    assert Pow2(16) == 0x1_0000 by {
      assert Pow2(4) == 16 && Pow2(8) == 256 by { Pow2Add(4, 4); }
      Pow2Add(8, 8);
    }
    Pow2Add(16, 16);
    Pow2Add(32, 32);
    assert Pow2(64) == 2 * Pow2(63);
  }

  /** A power of two not above 2^63 divides the word size. */
  lemma Pow2DividesWord(cap: nat) returns (k: nat)
    requires IsPow2(cap) && cap <= 0x8000_0000_0000_0000
    ensures k > 0 && k * cap == WORD
  {
    var e: nat :| cap == Pow2(e);
    Pow2Word();
    if e > 64 {
      Pow2Monotone(64, e);
    }
    Pow2Add(64 - e, e);
    k := Pow2(64 - e);
  }

  // -------------------------------------------------------------------- masks

  lemma ModDouble(x: nat, p: nat)
    requires p > 0
    ensures x % (2 * p) == 2 * ((x / 2) % p) + x % 2
  {
    var q, r := (x / 2) / p, (x / 2) % p;
    assert x / 2 == q * p + r;
    assert x == q * (2 * p) + (2 * r + x % 2) by {
      assert x == 2 * (x / 2) + x % 2;
      assert q * (2 * p) == 2 * (q * p);
    }
    DivModUnique(x, 2 * p, q, 2 * r + x % 2);
  }

  /** `x & (2^k - 1)` is the remainder of `x` by 2^k. */
  lemma {:induction false} MaskIsMod(x: nat, k: nat)
    ensures BitAnd(x, Pow2(k) - 1) == x % Pow2(k)
    decreases k
  {
    if k > 0 {
      MaskIsMod(x / 2, k - 1);
      ModDouble(x, Pow2(k - 1));
      assert (Pow2(k) - 1) / 2 == Pow2(k - 1) - 1;
    }
  }

  lemma DivDouble(x: nat, p: nat)
    requires p > 0
    ensures x / (2 * p) == (x / 2) / p
  {
    var q, r := (x / 2) / p, (x / 2) % p;
    assert x / 2 == q * p + r;
    assert x == q * (2 * p) + (2 * r + x % 2) by {
      assert x == 2 * (x / 2) + x % 2;
      assert q * (2 * p) == 2 * (q * p);
    }
    DivModUnique(x, 2 * p, q, 2 * r + x % 2);
  }

  lemma {:induction false} ZeroBits(i: nat)
    ensures !Bit(0, i)
  {
    DivModUnique(0, Pow2(i), 0, 0);
  }

  /** The recursion computes `&`: a bit is set exactly when it is set in both operands. */
  lemma {:induction false} BitAndBits(x: nat, y: nat, i: nat)
    ensures Bit(BitAnd(x, y), i) <==> Bit(x, i) && Bit(y, i)
    decreases x
  {
    if x == 0 || y == 0 {
      ZeroBits(i);
    } else if i > 0 {
      var a := BitAnd(x, y);
      BitAndBits(x / 2, y / 2, i - 1);
      assert a / 2 == BitAnd(x / 2, y / 2);
      DivDouble(a, Pow2(i - 1));
      DivDouble(x, Pow2(i - 1));
      DivDouble(y, Pow2(i - 1));
    }
  }

  lemma {:induction false} BitAndSelf(x: nat)
    ensures BitAnd(x, x) == x
  {
    if x > 0 {
      BitAndSelf(x / 2);
    }
  }

  /** `x & (x - 1)` is zero exactly for the powers of two. */
  lemma {:induction false} ClearLowestIsZero(x: nat)
    requires x > 0
    ensures BitAnd(x, x - 1) == 0 <==> IsPow2(x)
    decreases x
  {
    if x % 2 == 1 {
      assert (x - 1) / 2 == x / 2;
      BitAndSelf(x / 2);
      if x == 1 {
        assert x == Pow2(0);
      } else {
        assert BitAnd(x, x - 1) == 2 * BitAnd(x / 2, x / 2);
        forall k: nat ensures x != Pow2(k) {
          assert k > 0 ==> Pow2(k) % 2 == 0;
        }
      }
    } else {
      assert (x - 1) / 2 == x / 2 - 1;
      ClearLowestIsZero(x / 2);
      assert BitAnd(x, x - 1) == 2 * BitAnd(x / 2, x / 2 - 1);
      if IsPow2(x / 2) {
        var k: nat :| x / 2 == Pow2(k);
        assert x == Pow2(k + 1);
      }
      if IsPow2(x) {
        var k: nat :| x == Pow2(k);
        assert k > 0 && x / 2 == Pow2(k - 1);
      }
    }
  }

  // ---------------------------------------------------------------- bit scans

  /** The number of binary digits of `x`. */
  function BitLength(x: nat): nat {
    if x == 0 then 0 else 1 + BitLength(x / 2)
  }

  lemma {:induction false} BitLengthBounds(x: nat)
    requires x > 0
    ensures BitLength(x) > 0 && Pow2(BitLength(x) - 1) <= x < Pow2(BitLength(x))
  {
    if x > 1 {
      BitLengthBounds(x / 2);
    } else {
      assert BitLength(1) == 1 + BitLength(0);
    }
  }

  lemma BitLengthWord(x: nat, k: nat)
    requires 0 < x < Pow2(k)
    ensures BitLength(x) <= k
  {
    BitLengthBounds(x);
    if BitLength(x) > k {
      Pow2Monotone(k, BitLength(x) - 1);
    }
  }

  /** `__builtin_clzll`: the zero bits above the highest set bit of a 64-bit word. */
  function CountLeadingZeros(x: nat): nat
    requires 0 < x < WORD
  {
    Pow2Word();
    BitLengthWord(x, 64);
    64 - BitLength(x)
  }

  /** src/include/femtolog/logging/impl/spsc_queue.h: the ring size for a requested size. */
  function NextPowerOf2(n: nat): nat
    requires n <= 0x8000_0000_0000_0000
  {
    if n <= 1 then 2
    else if BitAnd(n, n - 1) == 0 then n
    else Pow2(64 - CountLeadingZeros(n - 1))
  }

  /** `next_power_of_2` returns the least power of two that is at least max(n, 2). */
  lemma NextPowerOf2Least(n: nat, k: nat)
    requires n <= 0x8000_0000_0000_0000
    ensures IsPow2(NextPowerOf2(n))
    ensures 2 <= NextPowerOf2(n) <= 0x8000_0000_0000_0000 && n <= NextPowerOf2(n)
    ensures Pow2(k) >= n && Pow2(k) >= 2 ==> NextPowerOf2(n) <= Pow2(k)
  {
    Pow2Word();
    if n <= 1 {
      assert 2 == Pow2(1);
    } else {
      ClearLowestIsZero(n);
      if BitAnd(n, n - 1) != 0 {
        var e := BitLength(n - 1);
        BitLengthBounds(n - 1);
        BitLengthWord(n - 1, 63);
        Pow2Monotone(e, 63);
        assert NextPowerOf2(n) == Pow2(e);
        if Pow2(k) >= n {
          if k < e {
            Pow2Monotone(k, e - 1);
          } else {
            Pow2Monotone(e, k);
          }
        }
        Pow2Monotone(1, e);
      }
    }
  }
}
