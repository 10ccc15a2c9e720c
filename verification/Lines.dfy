/** src/core/base/file_util.cc: splitting file content into lines, one byte at a time and with a
    mask of 32 comparisons at a time. */
module Lines {
  import opened Bits
  import opened Ring
  import opened Split

  const NEWLINE: byte := 10
  const RETURN: byte := 13
  const DELIMITER: seq<byte> := [NEWLINE]

  /** One carriage return before the end of a line is not part of the line. */
  function StripReturn(line: seq<byte>): seq<byte> {
    if line != [] && line[|line| - 1] == RETURN then line[..|line| - 1] else line
  }

  function Stripped(tokens: seq<seq<byte>>): seq<seq<byte>> {
    if tokens == [] then [] else [StripReturn(tokens[0])] + Stripped(tokens[1..])
  }

  /** The lines from `start` on: what splitting at newlines gives, each line stripped. */
  ghost function LinesFrom(content: seq<byte>, start: nat): seq<seq<byte>> {
    Stripped(Tokens(content, DELIMITER, start))
  }

  lemma LinesStep(done: seq<seq<byte>>, content: seq<byte>, start: nat)
    requires start < |content|
    ensures var end := Find(content, DELIMITER, start);
            done + LinesFrom(content, start)
              == (done + [StripReturn(content[start..end])]) + LinesFrom(content, end + 1)
  {
    var end := Find(content, DELIMITER, start);
    var line := content[start..end];
    var ts := Tokens(content, DELIMITER, end + 1);
    assert Tokens(content, DELIMITER, start) == [line] + ts by {
      if end == |content| {
        assert content[start..] == line && ts == [];
      }
    }
    assert ([line] + ts)[1..] == ts;
    Regroup(done, StripReturn(line), Stripped(ts));
  }

  lemma NoMoreLines(content: seq<byte>)
    ensures LinesFrom(content, |content|) == []
  {
  }

  /** The length of a line after the carriage return test of the source. */
  method LineLength(content: seq<byte>, start: nat, end: nat) returns (n: nat)
    requires start <= end <= |content|
    ensures start + n <= end && content[start..start + n] == StripReturn(content[start..end])
  {
    n := end - start;
    if n > 0 && content[start + n - 1] == RETURN {
      n := n - 1;
    }
  }

  /** read_lines_default. */
  method ReadLinesDefault(content: seq<byte>) returns (lines: seq<seq<byte>>)
    ensures lines == LinesFrom(content, 0)
  {
    lines := [];
    NoMoreLines(content);
    if content == [] { return; }
    var current := 0;
    while current < |content|
      invariant 0 <= current <= |content|
      invariant lines + LinesFrom(content, current) == LinesFrom(content, 0)
    {
      LinesStep(lines, content, current);
      var next := FindFrom(content, DELIMITER, current);
      var n := LineLength(content, current, next);
      lines := lines + [content[current..current + n]];
      if next < |content| {
        current := next + 1;
      } else {
        AfterLast(content);
        current := |content|;
      }
    }
    assert lines + [] == lines;
  }

  lemma AfterLast(content: seq<byte>)
    ensures LinesFrom(content, |content| + 1) == LinesFrom(content, |content|)
  {
  }

  // ------------------------------------------------------------------ lines put together

  datatype Line = Line(text: seq<byte>, crlf: bool)

  predicate EndsInReturn(text: seq<byte>) { text != [] && text[|text| - 1] == 13 }

  /** A line has no newline, and a carriage return at its end only before a carriage return. */
  predicate Clean(l: Line) { 10 !in l.text && (l.crlf || !EndsInReturn(l.text)) }

  /** The lines as a file holds them. */
  function Written(ls: seq<Line>): seq<byte> {
    if ls == [] then [] else ls[0].text + (if ls[0].crlf then [13, 10] else [10]) + Written(ls[1..])
  }

  function Texts(ls: seq<Line>): (texts: seq<seq<byte>>)
    ensures |texts| == |ls|
  {
    if ls == [] then [] else [ls[0].text] + Texts(ls[1..])
  }

  function Token(l: Line): seq<byte> { if l.crlf then l.text + [13] else l.text }

  function TokensOf(ls: seq<Line>): (tokens: seq<seq<byte>>)
    ensures |tokens| == |ls|
  {
    if ls == [] then [] else [Token(ls[0])] + TokensOf(ls[1..])
  }

  lemma NoNewline(token: seq<byte>)
    requires 10 !in token
    ensures EndsAtDelimiter(token, DELIMITER) && !Contains(token, DELIMITER)
  {
    forall m: nat | m < |token| ensures !OccursAt(token + DELIMITER, DELIMITER, m) {
      NewlineOccurs(token + DELIMITER, m);
    }
    forall m: nat | m <= |token| ensures !OccursAt(token, DELIMITER, m) {
      if m < |token| {
        NewlineOccurs(token, m);
      }
    }
  }

  lemma {:induction false} WrittenTokens(ls: seq<Line>)
    requires forall k :: 0 <= k < |ls| ==> Clean(ls[k])
    ensures Written(ls) == Terminated(TokensOf(ls), DELIMITER) && AllEnd(TokensOf(ls), DELIMITER)
  {
    if ls != [] {
      WrittenTokens(ls[1..]);
      NoNewline(Token(ls[0]));
      assert TokensOf(ls)[1..] == TokensOf(ls[1..]);
      assert Written(ls) == Token(ls[0]) + DELIMITER + Written(ls[1..]);
    }
  }

  lemma StripToken(l: Line)
    requires Clean(l)
    ensures StripReturn(Token(l)) == l.text
  {
  }

  lemma StrippedCons(token: seq<byte>, rest: seq<seq<byte>>)
    ensures Stripped([token] + rest) == [StripReturn(token)] + Stripped(rest)
  {
    assert ([token] + rest)[1..] == rest;
  }

  lemma ConsConcat<T>(x: T, a: seq<T>, b: seq<T>)
    ensures ([x] + a) + b == [x] + (a + b)
  {
  }

  lemma {:induction false} StrippedTokens(ls: seq<Line>, tail: seq<seq<byte>>)
    requires forall k :: 0 <= k < |ls| ==> Clean(ls[k])
    ensures Stripped(TokensOf(ls) + tail) == Texts(ls) + Stripped(tail)
  {
    if ls == [] {
      assert TokensOf(ls) + tail == tail && Texts(ls) + Stripped(tail) == Stripped(tail);
    } else {
      var rest := TokensOf(ls[1..]) + tail;
      StripToken(ls[0]);
      StrippedTokens(ls[1..], tail);
      ConsConcat(Token(ls[0]), TokensOf(ls[1..]), tail);
      StrippedCons(Token(ls[0]), rest);
      ConsConcat(ls[0].text, Texts(ls[1..]), Stripped(tail));
    }
  }

  /** The last piece of the file as a list of tokens. */
  function LastToken(last: Line): seq<seq<byte>> { if Token(last) == [] then [] else [Token(last)] }

  lemma StripLast(last: Line)
    requires Clean(last)
    ensures Stripped(LastToken(last)) == if last.text == [] && !last.crlf then [] else [last.text]
  {
    if Token(last) != [] {
      StripToken(last);
      StrippedCons(Token(last), []);
      assert [Token(last)] + [] == [Token(last)];
    }
  }

  /** Reading a file gives back the lines written into it, each ended by a newline or by a carriage
      return and a newline, then the last one, which ends with the file or with a carriage return. */
  lemma LinesRoundTrip(ls: seq<Line>, last: Line, content: seq<byte>)
    requires (forall k :: 0 <= k < |ls| ==> Clean(ls[k])) && Clean(last)
    requires content == Written(ls) + if last.crlf then last.text + [13] else last.text
    ensures LinesFrom(content, 0) == Texts(ls) + if last.text == [] && !last.crlf then [] else [last.text]
  {
    WrittenTokens(ls);
    NoNewline(Token(last));
    SplitRoundTrip(TokensOf(ls), DELIMITER, Token(last));
    StrippedTokens(ls, LastToken(last));
    StripLast(last);
  }

  lemma {:induction false} FirstNewline(content: seq<byte>) returns (i: nat)
    ensures i <= |content| && 10 !in content[..i] && (i < |content| ==> content[i] == 10)
  {
    if content == [] || content[0] == 10 {
      i := 0;
    } else {
      i := FirstNewline(content[1..]);
      assert content[..i + 1] == [content[0]] + content[1..][..i];
      i := i + 1;
    }
  }

  lemma TokenLine(token: seq<byte>) returns (l: Line)
    requires 10 !in token
    ensures Clean(l) && token == Token(l)
  {
    if EndsInReturn(token) {
      l := Line(token[..|token| - 1], true);
    } else {
      l := Line(token, false);
    }
  }

  /** Every file is such lines followed by such a last one, so the round trip describes every read. */
  lemma {:induction false} EveryFileIsLines(content: seq<byte>) returns (ls: seq<Line>, last: Line)
    ensures (forall k :: 0 <= k < |ls| ==> Clean(ls[k])) && Clean(last)
    ensures content == Written(ls) + if last.crlf then last.text + [13] else last.text
    decreases |content|
  {
    var i := FirstNewline(content);
    var first := TokenLine(content[..i]);
    if i == |content| {
      ls, last := [], first;
    } else {
      var rest;
      rest, last := EveryFileIsLines(content[i + 1..]);
      ls := [first] + rest;
      assert content == Token(first) + [10] + content[i + 1..];
      WrittenCons(first, rest);
    }
  }

  lemma WrittenCons(first: Line, rest: seq<Line>)
    ensures Written([first] + rest) == Token(first) + [10] + Written(rest)
  {
    assert ([first] + rest)[1..] == rest;
  }

  // --------------------------------------------------------------- newline positions

  /** The positions of the newlines from `p` on. */
  function Newlines(content: seq<byte>, p: nat): seq<nat>
    requires p <= |content|
    decreases |content| - p
  {
    if p == |content| then []
    else if content[p] == NEWLINE then [p] + Newlines(content, p + 1)
    else Newlines(content, p + 1)
  }

  /** They are exactly the newline positions, in ascending order. */
  lemma {:induction false} NewlinesExact(content: seq<byte>, p: nat)
    requires p <= |content|
    ensures forall i :: i in Newlines(content, p) <==> p <= i < |content| && content[i] == NEWLINE
    ensures forall j, k :: 0 <= j < k < |Newlines(content, p)| ==> Newlines(content, p)[j] < Newlines(content, p)[k]
    decreases |content| - p
  {
    if p < |content| {
      NewlinesExact(content, p + 1);
      var rest := Newlines(content, p + 1);
      assert forall k :: 0 <= k < |rest| ==> rest[k] in rest;
    }
  }

  /** The next newline is the end of the next line. */
  lemma {:induction false} NewlinesFind(content: seq<byte>, p: nat)
    requires p <= |content|
    ensures var ps, end := Newlines(content, p), Find(content, DELIMITER, p);
            if ps == [] then end == |content|
            else end == ps[0] < |content| && ps[1..] == Newlines(content, end + 1)
    decreases |content| - p
  {
    if p < |content| {
      NewlineOccurs(content, p);
      if content[p] != NEWLINE {
        NewlinesFind(content, p + 1);
        FindSkips(content, p);
      }
    }
  }

  lemma NewlineOccurs(content: seq<byte>, p: nat)
    requires p < |content|
    ensures OccursAt(content, DELIMITER, p) <==> content[p] == NEWLINE
  {
    assert content[p..p + 1] == [content[p]];
  }

  lemma FindSkips(content: seq<byte>, p: nat)
    requires p < |content| && !OccursAt(content, DELIMITER, p)
    ensures Find(content, DELIMITER, p) == Find(content, DELIMITER, p + 1)
  {
    var i := Find(content, DELIMITER, p);
    assert i > p;
    FirstIsUnique(content, DELIMITER, p + 1, i, Find(content, DELIMITER, p + 1));
  }

  // ---------------------------------------------------------------------- the masks

  /** `movemask(cmpeq(chunk, '\n'))` over `k` bytes: bit `i` is set when byte `p + i` is a newline. */
  function MoveMask(content: seq<byte>, p: nat, k: nat): (m: nat)
    requires p + k <= |content|
    ensures m < Pow2(k)
    decreases k
  {
    if k == 0 then 0 else (if content[p] == NEWLINE then 1 else 0) + 2 * MoveMask(content, p + 1, k - 1)
  }

  /** The lowest set bit. */
  function CountTrailingZeros(m: nat): nat
    requires m > 0
  {
    if m % 2 == 1 then 0 else 1 + CountTrailingZeros(m / 2)
  }

  /** The set bits in ascending order, counted from `base`. */
  function SetBits(m: nat, base: nat): seq<nat>
    decreases m, base
  {
    if m == 0 then []
    else if m % 2 == 1 then [base] + SetBits(m / 2, base + 1)
    else SetBits(m / 2, base + 1)
  }

  lemma {:induction false} ClearLowest(m: nat, base: nat)
    requires m > 0
    ensures BitAnd(m, m - 1) < m
    ensures SetBits(m, base) == [base + CountTrailingZeros(m)] + SetBits(BitAnd(m, m - 1), base)
    decreases m, base
  {
    var h := m / 2;
    if m % 2 == 1 {
      assert (m - 1) / 2 == h;
      BitAndSelf(h);
      assert BitAnd(m, m - 1) == 2 * h;
      assert h == 0 ==> SetBits(h, base + 1) == [];
    } else {
      assert (m - 1) / 2 == h - 1;
      var rest := BitAnd(h, h - 1);
      assert BitAnd(m, m - 1) == 2 * rest;
      ClearLowest(h, base + 1);
      SetBitsDouble(rest, base);
    }
  }

  lemma SetBitsDouble(m: nat, base: nat)
    ensures SetBits(2 * m, base) == SetBits(m, base + 1)
  {
    assert (2 * m) / 2 == m && (2 * m) % 2 == 0;
  }

  /** The set bits of a block's mask are the newline positions of the block. */
  lemma {:induction false} MaskPositions(content: seq<byte>, p: nat, k: nat)
    requires p + k <= |content|
    ensures Newlines(content, p) == SetBits(MoveMask(content, p, k), p) + Newlines(content, p + k)
    decreases k
  {
    if k > 0 {
      var rest := MoveMask(content, p + 1, k - 1);
      MaskPositions(content, p + 1, k - 1);
      if content[p] == NEWLINE {
        assert (1 + 2 * rest) / 2 == rest && (1 + 2 * rest) % 2 == 1;
      } else {
        SetBitsDouble(rest, p);
      }
    } else {
      assert [] + Newlines(content, p) == Newlines(content, p);
    }
  }

  /** `while (mask) { offset = ctz(mask); push_back(pos + offset); mask &= mask - 1; }` */
  method PushSetBits(positions: seq<nat>, mask: nat, pos: nat) returns (out: seq<nat>)
    ensures out == positions + SetBits(mask, pos)
  {
    out := positions;
    var m := mask;
    while m != 0
      invariant out + SetBits(m, pos) == positions + SetBits(mask, pos)
      decreases m
    {
      ClearLowest(m, pos);
      Regroup(out, pos + CountTrailingZeros(m), SetBits(BitAnd(m, m - 1), pos));
      var offset := CountTrailingZeros(m);
      out := out + [pos + offset];
      m := BitAnd(m, m - 1);
    }
    assert out + [] == out;
  }

  lemma Regroup3(a: seq<nat>, b: seq<nat>, c: seq<nat>)
    ensures a + (b + c) == (a + b) + c
  {
  }

  method NewlinePositions(content: seq<byte>) returns (positions: seq<nat>)
    ensures positions == Newlines(content, 0)
  {
    positions := [];
    var pos := 0;
    while pos + 32 <= |content|
      invariant 0 <= pos <= |content|
      invariant positions + Newlines(content, pos) == Newlines(content, 0)
    {
      MaskPositions(content, pos, 32);
      var mask := MoveMask(content, pos, 32);
      Regroup3(positions, SetBits(mask, pos), Newlines(content, pos + 32));
      positions := PushSetBits(positions, mask, pos);
      pos := pos + 32;
    }
    while pos < |content|
      invariant 0 <= pos <= |content|
      invariant positions + Newlines(content, pos) == Newlines(content, 0)
    {
      if content[pos] == NEWLINE {
        Regroup(positions, pos, Newlines(content, pos + 1));
        positions := positions + [pos];
      }
      pos := pos + 1;
    }
    assert positions + [] == positions;
  }

  /** read_lines_with_avx2: the same lines as read_lines_default. */
  method ReadLinesAvx2(content: seq<byte>) returns (lines: seq<seq<byte>>)
    ensures lines == LinesFrom(content, 0)
  {
    lines := [];
    NoMoreLines(content);
    if content == [] { return; }
    var positions := NewlinePositions(content);
    var lineStart := 0;
    for j := 0 to |positions|
      invariant 0 <= lineStart <= |content| && positions[j..] == Newlines(content, lineStart)
      invariant lines + LinesFrom(content, lineStart) == LinesFrom(content, 0)
    {
      NewlinesFind(content, lineStart);
      var newline := positions[j];
      assert positions[j..][0] == newline && positions[j..][1..] == positions[j + 1..];
      LinesStep(lines, content, lineStart);
      var n := LineLength(content, lineStart, newline);
      lines := lines + [content[lineStart..lineStart + n]];
      lineStart := newline + 1;
    }
    if lineStart < |content| {
      NewlinesFind(content, lineStart);
      LinesStep(lines, content, lineStart);
      var n := LineLength(content, lineStart, |content|);
      lines := lines + [content[lineStart..lineStart + n]];
      AfterLast(content);
    }
    assert lines + [] == lines;
  }
}
