/** src/core/base/string_util.cc: truncation of UTF-8 text to a number of characters. */
module Utf8 {
  import opened Bits
  import opened Ring
  import opened Chunks

  /** utf8_char_length: the length that a lead byte announces. */
  function CharLength(lead: byte): (n: nat)
    ensures 1 <= n <= 4
  {
    var b := lead as nat;
    if b < 0x80 then 1
    else if BitAnd(b, 0xE0) == 0xC0 then 2
    else if BitAnd(b, 0xF0) == 0xE0 then 3
    else if BitAnd(b, 0xF8) == 0xF0 then 4
    else 1
  }

  /** The same by the ranges of the lead byte. */
  function LeadLength(lead: byte): (n: nat)
    ensures 1 <= n <= 4
  {
    if 0xC0 <= lead < 0xE0 then 2 else if 0xE0 <= lead < 0xF0 then 3 else if 0xF0 <= lead < 0xF8 then 4 else 1
  }

  lemma MaskDouble(b: nat, m: nat)
    ensures BitAnd(b, 2 * m) == 2 * BitAnd(b / 2, m)
  {
    if b > 0 && m == 0 {
      assert BitAnd(b / 2, 0) == 0;
    }
  }

  lemma MaskLow(b: nat, k: nat)
    requires b < Pow2(k)
    ensures BitAnd(b, Pow2(k) - 1) == b
  {
    MaskIsMod(b, k);
    DivModUnique(b, Pow2(k), 0, b);
  }

  /** `lead & 0xF8` clears the low three bits. */
  lemma HighFive(b: nat)
    requires b < 256
    ensures BitAnd(b, 0xF8) == 8 * (b / 2 / 2 / 2)
  {
    var b2 := b / 2 / 2;
    MaskDouble(b, 124);
    MaskDouble(b / 2, 62);
    MaskDouble(b2, 31);
    assert Pow2(5) == 32;
    MaskLow(b2 / 2, 5);
  }

  lemma HighFour(b: nat)
    requires b < 256
    ensures BitAnd(b, 0xF0) == 16 * (b / 2 / 2 / 2 / 2)
  {
    var b3 := b / 2 / 2 / 2;
    MaskDouble(b, 120);
    MaskDouble(b / 2, 60);
    MaskDouble(b / 2 / 2, 30);
    MaskDouble(b3, 15);
    assert Pow2(4) == 16;
    MaskLow(b3 / 2, 4);
  }

  lemma HighThree(b: nat)
    requires b < 256
    ensures BitAnd(b, 0xE0) == 32 * (b / 2 / 2 / 2 / 2 / 2)
  {
    var b4 := b / 2 / 2 / 2 / 2;
    MaskDouble(b, 112);
    MaskDouble(b / 2, 56);
    MaskDouble(b / 2 / 2, 28);
    MaskDouble(b / 2 / 2 / 2, 14);
    MaskDouble(b4, 7);
    assert Pow2(3) == 8;
    MaskLow(b4 / 2, 3);
  }

  lemma HalvesRange(b: nat)
    requires b < 256
    ensures 8 * (b / 2 / 2 / 2) == 0xF0 <==> 0xF0 <= b < 0xF8
    ensures 16 * (b / 2 / 2 / 2 / 2) == 0xE0 <==> 0xE0 <= b < 0xF0
    ensures 32 * (b / 2 / 2 / 2 / 2 / 2) == 0xC0 <==> 0xC0 <= b < 0xE0
  {
  }

  /** The chain of mask tests computes the length that the range of the lead byte gives. */
  lemma CharLengthByRange(lead: byte)
    ensures CharLength(lead) == LeadLength(lead)
  {
    HighThree(lead as nat);
    HighFour(lead as nat);
    HighFive(lead as nat);
    HalvesRange(lead as nat);
  }

  /** Where the first `k` whole characters from byte `i` on end. */
  function TruncateEnd(s: seq<byte>, i: nat, k: nat): (e: nat)
    requires i <= |s|
    ensures i <= e <= |s|
    decreases |s| - i
  {
    if k == 0 || i == |s| || i + LeadLength(s[i]) > |s| then i
    else TruncateEnd(s, i + LeadLength(s[i]), k - 1)
  }

  /** The first `k` characters that are whole. */
  function Truncate(s: seq<byte>, k: nat): (t: seq<byte>)
    ensures t <= s
  {
    s[..TruncateEnd(s, 0, k)]
  }

  function Min(a: nat, b: nat): nat { if a < b then a else b }

  lemma {:induction false} TruncateEndTwice(s: seq<byte>, i: nat, a: nat, b: nat)
    requires i <= |s|
    ensures TruncateEnd(s[..TruncateEnd(s, i, a)], i, b) == TruncateEnd(s, i, Min(a, b))
    decreases |s| - i
  {
    if a > 0 && b > 0 && i < |s| && i + LeadLength(s[i]) <= |s| {
      TruncateEndTwice(s, i + LeadLength(s[i]), a - 1, b - 1);
      assert s[..TruncateEnd(s, i, a)][i] == s[i];
    }
  }

  /** Truncating twice is truncating to the smaller limit, on any bytes. */
  lemma TruncateTwice(s: seq<byte>, a: nat, b: nat)
    ensures Truncate(Truncate(s, a), b) == Truncate(s, Min(a, b))
  {
    TruncateEndTwice(s, 0, a, b);
  }

  /** A character of the length that its lead byte announces. */
  predicate Whole(c: seq<byte>) { c != [] && |c| == LeadLength(c[0]) }

  lemma {:induction false} WholeFrom(s: seq<byte>, i: nat, k: nat) returns (chars: seq<seq<byte>>)
    requires i <= |s|
    ensures (forall j :: 0 <= j < |chars| ==> Whole(chars[j])) && |chars| <= k
    ensures s[i..TruncateEnd(s, i, k)] == Flatten(chars)
    ensures var e := TruncateEnd(s, i, k); |chars| == k || e == |s| || e + LeadLength(s[e]) > |s|
    decreases |s| - i
  {
    chars := [];
    if k > 0 && i < |s| && i + LeadLength(s[i]) <= |s| {
      var next := i + LeadLength(s[i]);
      var rest := WholeFrom(s, next, k - 1);
      chars := [s[i..next]] + rest;
      assert chars[1..] == rest;
      assert s[i..TruncateEnd(s, i, k)] == s[i..next] + s[next..TruncateEnd(s, i, k)];
    }
  }

  /** On any bytes the result is at most `k` characters, each as long as its lead byte announces, and
      stops before `k` only at the end of the input or before a character that is cut off there. */
  lemma TruncateWhole(s: seq<byte>, k: nat) returns (chars: seq<seq<byte>>)
    ensures (forall j :: 0 <= j < |chars| ==> Whole(chars[j])) && |chars| <= k
    ensures Truncate(s, k) == Flatten(chars)
    ensures var rest := s[|Truncate(s, k)|..]; |chars| == k || rest == [] || |rest| < LeadLength(rest[0])
  {
    chars := WholeFrom(s, 0, k);
  }

  predicate Tail(b: byte) { 0x80 <= b < 0xC0 }

  /** One character of section 4 of RFC 3629 (UTF8-1 to UTF8-4). */
  predicate WellFormedChar(c: seq<byte>) {
    || (|c| == 1 && c[0] < 0x80)
    || (|c| == 2 && 0xC2 <= c[0] <= 0xDF && Tail(c[1]))
    || (|c| == 3 && Tail(c[2]) &&
         (|| (c[0] == 0xE0 && 0xA0 <= c[1] <= 0xBF)
          || (0xE1 <= c[0] <= 0xEC && Tail(c[1]))
          || (c[0] == 0xED && 0x80 <= c[1] <= 0x9F)
          || (0xEE <= c[0] <= 0xEF && Tail(c[1]))))
    || (|c| == 4 && Tail(c[2]) && Tail(c[3]) &&
         (|| (c[0] == 0xF0 && 0x90 <= c[1] <= 0xBF)
          || (0xF1 <= c[0] <= 0xF3 && Tail(c[1]))
          || (c[0] == 0xF4 && 0x80 <= c[1] <= 0x8F)))
  }

  lemma {:induction false} WholeCharacters(before: seq<byte>, chars: seq<seq<byte>>, k: nat)
    requires forall i :: 0 <= i < |chars| ==> WellFormedChar(chars[i])
    ensures TruncateEnd(before + Flatten(chars), |before|, k) == |before + Flatten(chars[..Min(k, |chars|)])|
    decreases |chars|
  {
    var m := Min(k, |chars|);
    if m == 0 {
      assert chars[..m] == [] && (chars == [] ==> Flatten(chars) == []);
    } else {
      var c, rest := chars[0], Flatten(chars[1..]);
      assert WellFormedChar(c);
      assert before + Flatten(chars) == (before + c) + rest;
      assert (before + Flatten(chars))[|before|] == c[0] && LeadLength(c[0]) == |c|;
      WholeCharacters(before + c, chars[1..], k - 1);
      assert chars[..m][0] == c && chars[..m][1..] == chars[1..][..m - 1];
    }
  }

  /** On well-formed text the result is the first min(k, n) characters, whole. */
  lemma TruncateWellFormed(chars: seq<seq<byte>>, k: nat)
    requires forall i :: 0 <= i < |chars| ==> WellFormedChar(chars[i])
    ensures Truncate(Flatten(chars), k) == Flatten(chars[..Min(k, |chars|)])
  {
    WholeCharacters([], chars, k);
    assert [] + Flatten(chars) == Flatten(chars);
    FlattenTake(chars, Min(k, |chars|));
  }

  lemma FlattenTake(chars: seq<seq<byte>>, m: nat)
    requires m <= |chars|
    ensures |[] + Flatten(chars[..m])| == |Flatten(chars[..m])| <= |Flatten(chars)|
    ensures Flatten(chars)[..|Flatten(chars[..m])|] == Flatten(chars[..m])
  {
    FlattenConcat(chars[..m], chars[m..]);
    assert chars[..m] + chars[m..] == chars;
  }

  /** utf8_truncate: the byte index and the character count advance together. */
  method Utf8Truncate(input: seq<byte>, maxChars: nat) returns (out: seq<byte>)
    ensures out == Truncate(input, maxChars)
  {
    if maxChars == 0 { return []; }
    if input == [] { return []; }
    var i, chars := 0, 0;
    while i < |input| && chars < maxChars
      invariant 0 <= i <= |input| && 0 <= chars <= maxChars
      invariant TruncateEnd(input, i, maxChars - chars) == TruncateEnd(input, 0, maxChars)
      decreases |input| - i
    {
      var len := CharLength(input[i]);
      CharLengthByRange(input[i]);
      if i + len > |input| { break; }
      i, chars := i + len, chars + 1;
    }
    out := input[..i];
  }
}
