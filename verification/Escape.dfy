/** src/core/base/string_util.cc: escaping and unescaping of control characters. */
module Escape {
  import opened Ring

  const NEWLINE: byte := 10
  const RETURN: byte := 13
  const TAB: byte := 9
  const BACKSLASH: byte := 92
  const LETTER_N: byte := 110
  const LETTER_R: byte := 114
  const LETTER_T: byte := 116

  function EncodeByte(c: byte): (e: seq<byte>)
    ensures 1 <= |e| <= 2
  {
    if c == NEWLINE then [BACKSLASH, LETTER_N]
    else if c == RETURN then [BACKSLASH, LETTER_R]
    else if c == TAB then [BACKSLASH, LETTER_T]
    else if c == BACKSLASH then [BACKSLASH, BACKSLASH]
    else [c]
  }

  function Encode(s: seq<byte>): seq<byte> {
    if s == [] then [] else EncodeByte(s[0]) + Encode(s[1..])
  }

  /** The bytes that form an escape after a backslash. */
  predicate EscapeLetter(c: byte) {
    c == LETTER_N || c == LETTER_R || c == LETTER_T || c == BACKSLASH
  }

  function Unescaped(c: byte): byte {
    if c == LETTER_N then NEWLINE else if c == LETTER_R then RETURN else if c == LETTER_T then TAB else BACKSLASH
  }

  /** A backslash that starts no escape, or ends the input, stands for itself. */
  function Decode(s: seq<byte>): seq<byte> {
    if s == [] then []
    else if s[0] == BACKSLASH && |s| > 1 && EscapeLetter(s[1]) then [Unescaped(s[1])] + Decode(s[2..])
    else [s[0]] + Decode(s[1..])
  }

  /** What escaping makes of one byte wherever it stands: \n, \r, \t, two backslashes, or itself. */
  lemma EncodeInPlace(before: seq<byte>, c: byte, after: seq<byte>)
    ensures Encode(before + ([c] + after)) ==
      Encode(before) + (
        (if c == 10 then [92, 110] else if c == 13 then [92, 114] else if c == 9 then [92, 116]
         else if c == 92 then [92, 92] else [c])
        + Encode(after))
  {
    EncodeConcat(before, [c] + after);
    assert ([c] + after)[1..] == after;
  }

  lemma Associate(x: seq<byte>, y: seq<byte>, z: seq<byte>)
    ensures x + (y + z) == (x + y) + z
  {
  }

  lemma {:induction false} EncodeConcat(a: seq<byte>, b: seq<byte>)
    ensures Encode(a + b) == Encode(a) + Encode(b)
  {
    if a == [] {
      assert a + b == b;
      assert [] + Encode(b) == Encode(b);
    } else {
      EncodeConcat(a[1..], b);
      assert (a + b)[1..] == a[1..] + b;
      Associate(EncodeByte(a[0]), Encode(a[1..]), Encode(b));
    }
  }

  /** Unescaping from the left; a backslash before any other byte, or at the end, stays. */
  lemma DecodeFirst(c: byte, rest: seq<byte>)
    ensures Decode([92, 110] + rest) == [10] + Decode(rest) && Decode([92, 114] + rest) == [13] + Decode(rest)
    ensures Decode([92, 116] + rest) == [9] + Decode(rest) && Decode([92, 92] + rest) == [92] + Decode(rest)
    ensures c !in {110, 114, 116, 92} ==> Decode([92, c] + rest) == [92] + Decode([c] + rest)
    ensures c != 92 ==> Decode([c] + rest) == [c] + Decode(rest)
    ensures Decode([92]) == [92]
  {
    assert ([92, 110] + rest)[2..] == rest && ([92, 114] + rest)[2..] == rest;
    assert ([92, 116] + rest)[2..] == rest && ([92, 92] + rest)[2..] == rest;
    assert ([92, c] + rest)[1..] == [c] + rest && ([c] + rest)[1..] == rest;
  }

  predicate Control(c: byte) {
    c == NEWLINE || c == RETURN || c == TAB
  }

  lemma {:induction false} DecodeEncode(s: seq<byte>)
    ensures Decode(Encode(s)) == s
  {
    if s != [] {
      DecodeEncode(s[1..]);
      var e := EncodeByte(s[0]);
      assert Encode(s)[|e|..] == Encode(s[1..]);
      assert s == [s[0]] + s[1..];
    }
  }

  lemma {:induction false} EncodedShape(s: seq<byte>)
    ensures |s| <= |Encode(s)| <= 2 * |s|
    ensures forall i :: 0 <= i < |Encode(s)| ==> !Control(Encode(s)[i])
  {
    if s != [] {
      EncodedShape(s[1..]);
    }
  }

  /** The strings that escaping produces: no control character, and every backslash starts one of
      the four escapes. */
  predicate IsEscaped(t: seq<byte>) {
    if t == [] then true
    else if t[0] == BACKSLASH then |t| > 1 && EscapeLetter(t[1]) && IsEscaped(t[2..])
    else !Control(t[0]) && IsEscaped(t[1..])
  }

  lemma {:induction false} EncodeIsEscaped(s: seq<byte>)
    ensures IsEscaped(Encode(s))
  {
    if s != [] {
      EncodeIsEscaped(s[1..]);
      assert Encode(s)[|EncodeByte(s[0])|..] == Encode(s[1..]);
    }
  }

  lemma {:induction false} EncodeDecodeEscaped(t: seq<byte>)
    requires IsEscaped(t)
    ensures Encode(Decode(t)) == t
  {
    if t != [] {
      if t[0] == BACKSLASH {
        EncodeDecodeEscaped(t[2..]);
        assert Decode(t)[1..] == Decode(t[2..]);
        assert t == [t[0], t[1]] + t[2..];
      } else {
        EncodeDecodeEscaped(t[1..]);
        assert Decode(t)[1..] == Decode(t[1..]);
        assert t == [t[0]] + t[1..];
      }
    }
  }

  /** Unescaping is undone by escaping exactly on the strings that escaping produces. */
  lemma {:induction false} EncodeDecode(t: seq<byte>)
    ensures Encode(Decode(t)) == t <==> IsEscaped(t)
  {
    if IsEscaped(t) {
      EncodeDecodeEscaped(t);
    } else {
      EncodeIsEscaped(Decode(t));
    }
  }

  /** `*write_ptr++ = a; *write_ptr++ = b;` */
  method PutPair(buffer: array<byte>, w: nat, a: byte, b: byte)
    requires w + 2 <= buffer.Length
    modifies buffer
    ensures buffer[..w + 2] == old(buffer[..w]) + [a, b]
  {
    buffer[w] := a;
    buffer[w + 1] := b;
  }

  method PutOne(buffer: array<byte>, w: nat, a: byte)
    requires w < buffer.Length
    modifies buffer
    ensures buffer[..w + 1] == old(buffer[..w]) + [a]
  {
    buffer[w] := a;
  }

  lemma EncodeStep(done: seq<byte>, input: seq<byte>, i: nat)
    requires i < |input|
    ensures done + Encode(input[i..]) == (done + EncodeByte(input[i])) + Encode(input[i + 1..])
  {
    assert input[i..][0] == input[i] && input[i..][1..] == input[i + 1..];
  }

  /** encode_escape: writes into a buffer of twice the input's size, then cuts it to length. */
  method EncodeEscape(input: seq<byte>) returns (out: seq<byte>)
    ensures out == Encode(input)
  {
    var buffer := new byte[|input| * 2];
    var w := 0;
    assert input[0..] == input;
    for i := 0 to |input|
      invariant 0 <= w <= 2 * i
      invariant buffer[..w] + Encode(input[i..]) == Encode(input)
    {
      EncodeStep(buffer[..w], input, i);
      var c := input[i];
      if c == NEWLINE {
        PutPair(buffer, w, BACKSLASH, LETTER_N);
        w := w + 2;
      } else if c == RETURN {
        PutPair(buffer, w, BACKSLASH, LETTER_R);
        w := w + 2;
      } else if c == TAB {
        PutPair(buffer, w, BACKSLASH, LETTER_T);
        w := w + 2;
      } else if c == BACKSLASH {
        PutPair(buffer, w, BACKSLASH, BACKSLASH);
        w := w + 2;
      } else {
        PutOne(buffer, w, c);
        w := w + 1;
      }
    }
    assert buffer[..w] + [] == buffer[..w];
    out := buffer[..w];
  }

  /** decode_escape: the output never outgrows a buffer of the input's size. */
  method DecodeEscape(input: seq<byte>) returns (out: seq<byte>)
    ensures out == Decode(input)
  {
    var buffer := new byte[|input|];
    var w, i := 0, 0;
    assert input[0..] == input;
    while i < |input|
      invariant 0 <= w <= i <= |input|
      invariant buffer[..w] + Decode(input[i..]) == Decode(input)
    {
      DecodeStep(buffer[..w], input, i);
      var c, used := input[i], 1;
      if input[i] == BACKSLASH {
        if i < |input| - 1 {
          if EscapeLetter(input[i + 1]) {
            c, used := Unescaped(input[i + 1]), 2;
          }
        }
      }
      PutOne(buffer, w, c);
      w, i := w + 1, i + used;
    }
    assert buffer[..w] + [] == buffer[..w];
    out := buffer[..w];
  }

  lemma DecodeStep(done: seq<byte>, input: seq<byte>, i: nat)
    requires i < |input|
    ensures done + Decode(input[i..]) ==
      if input[i] == BACKSLASH && i < |input| - 1 && EscapeLetter(input[i + 1])
      then (done + [Unescaped(input[i + 1])]) + Decode(input[i + 2..])
      else (done + [input[i]]) + Decode(input[i + 1..])
  {
    var rest := input[i..];
    assert rest[0] == input[i] && rest[1..] == input[i + 1..];
    assert |rest| > 1 ==> rest[1] == input[i + 1] && rest[2..] == input[i + 2..];
  }
}
