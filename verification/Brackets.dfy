/** src/core/base/string_util.cc: removal of bracketed text with a bounded stack. */
module Brackets {
  import opened Ring

  /** bracket_map: positive for opening, negative for closing, zero for everything else. */
  function Kind(c: byte): (k: int)
    ensures -4 <= k <= 4
  {
    if c == 40 then 1 else if c == 41 then -1        // ( )
    else if c == 123 then 2 else if c == 125 then -2 // { }
    else if c == 91 then 3 else if c == 93 then -3   // [ ]
    else if c == 60 then 4 else if c == 62 then -4   // < >
    else 0
  }

  function Min(a: nat, b: nat): nat { if a < b then a else b }
  function Max(a: nat, b: nat): nat { if a < b then b else a }

  // ---------------------------------------------------------- the scan, step by step

  /** The open brackets that were stored, the number of open brackets, and the text kept. */
  datatype State = State(stack: seq<int>, depth: nat, out: seq<byte>)

  const INIT: State := State([], 0, [])

  predicate StackOk(st: State, limit: nat) {
    |st.stack| == Min(st.depth, limit)
  }

  function Step(st: State, c: byte, limit: nat): (t: State)
    requires StackOk(st, limit)
    ensures StackOk(t, limit)
  {
    var k := Kind(c);
    if k > 0 then
      if st.depth < limit then st.(stack := st.stack + [k], depth := st.depth + 1)
      else st.(depth := st.depth + 1)
    else if k < 0 then
      if st.depth == 0 then st
      else if st.depth <= limit && st.stack[st.depth - 1] == -k then
        st.(stack := st.stack[..st.depth - 1], depth := st.depth - 1)
      else if st.depth > limit then st.(depth := st.depth - 1)
      else st
    else if st.depth == 0 then st.(out := st.out + [c])
    else st
  }

  function Run(s: seq<byte>, st: State, limit: nat): (t: State)
    requires StackOk(st, limit)
    ensures StackOk(t, limit)
  {
    if s == [] then st else Run(s[1..], Step(st, s[0], limit), limit)
  }

  /** The most brackets stored at any moment: one more than the highest stack index written. */
  function Peak(s: seq<byte>, st: State, limit: nat): (p: nat)
    requires StackOk(st, limit)
    ensures |st.stack| <= p <= limit
  {
    if s == [] then |st.stack| else Max(|st.stack|, Peak(s[1..], Step(st, s[0], limit), limit))
  }

  lemma {:induction false} RunConcat(a: seq<byte>, b: seq<byte>, st: State, limit: nat)
    requires StackOk(st, limit)
    ensures Run(a + b, st, limit) == Run(b, Run(a, st, limit), limit)
    ensures Peak(a + b, st, limit) == Max(Peak(a, st, limit), Peak(b, Run(a, st, limit), limit))
  {
    if a == [] {
      assert a + b == b;
    } else {
      assert (a + b)[1..] == a[1..] + b;
      RunConcat(a[1..], b, Step(st, a[0], limit), limit);
    }
  }

  // ----------------------------------------------------------------- bracketed text

  /** ( { [ < */
  predicate Opens(c: byte) { c == 40 || c == 123 || c == 91 || c == 60 }

  /** ) } ] > */
  predicate Closes(c: byte) { c == 41 || c == 125 || c == 93 || c == 62 }

  predicate Ordinary(c: byte) { !Opens(c) && !Closes(c) }

  predicate Pair(open: byte, close: byte) {
    || (open == 40 && close == 41) || (open == 123 && close == 125)
    || (open == 91 && close == 93) || (open == 60 && close == 62)
  }

  lemma KindPairs(c: byte, d: byte)
    ensures (Kind(c) > 0 <==> Opens(c)) && (Kind(c) < 0 <==> Closes(c)) && (Kind(c) == 0 <==> Ordinary(c))
    ensures Opens(c) && Closes(d) ==> (Kind(d) == -Kind(c) <==> Pair(c, d))
    ensures Pair(c, d) ==> Opens(c) && Closes(d)
  {
  }

  /** Text as bracketed parts, nested to any depth, with closing brackets that close nothing and
      opening ones that are never closed. */
  datatype Nested =
    | End
    | Plain(c: byte, rest: Nested)
    | Group(open: byte, inside: Nested, close: byte, rest: Nested)
    | Stray(close: byte, rest: Nested)
    | Unclosed(open: byte, inside: Nested)

  /** Only matching brackets of the four kinds. */
  predicate WellNested(t: Nested) {
    match t
    case End => true
    case Plain(c, rest) => Ordinary(c) && WellNested(rest)
    case Group(open, inside, close, rest) => Pair(open, close) && WellNested(inside) && WellNested(rest)
    case _ => false
  }

  function Text(t: Nested): seq<byte> {
    match t
    case End => []
    case Plain(c, rest) => [c] + Text(rest)
    case Group(open, inside, close, rest) => [open] + (Text(inside) + ([close] + Text(rest)))
    case Stray(close, rest) => [close] + Text(rest)
    case Unclosed(open, inside) => [open] + Text(inside)
  }

  /** The characters outside all brackets. */
  function LevelZero(t: Nested): seq<byte> {
    match t
    case End => []
    case Plain(c, rest) => [c] + LevelZero(rest)
    case Group(_, _, _, rest) => LevelZero(rest)
    case Stray(_, rest) => LevelZero(rest)
    case Unclosed(_, _) => []
  }

  function Kept(st: State, t: Nested): State {
    if st.depth == 0 then st.(out := st.out + LevelZero(t)) else st
  }

  lemma Head(c: byte, s: seq<byte>, st: State, limit: nat)
    requires StackOk(st, limit)
    ensures Run([c] + s, st, limit) == Run(s, Step(st, c, limit), limit)
    ensures Peak([c] + s, st, limit) == Max(|st.stack|, Peak(s, Step(st, c, limit), limit))
  {
    assert ([c] + s)[1..] == s;
  }

  /** A group is closed by the matching bracket, and beyond the limit by any. */
  predicate ClosesGroup(open: byte, close: byte, level: nat, limit: nat) {
    Opens(open) && Closes(close) && (level < limit ==> Pair(open, close))
  }

  /** A closing bracket undoes the opening one of its group, below the limit or above it. */
  lemma OpenThenClose(open: byte, close: byte, st: State, limit: nat)
    requires StackOk(st, limit) && ClosesGroup(open, close, st.depth, limit)
    ensures Step(Step(st, open, limit), close, limit) == st
    ensures Step(st, open, limit).depth > 0 && Step(st, open, limit).out == st.out
    ensures |st.stack| <= |Step(st, open, limit).stack| <= |st.stack| + 1
  {
    KindPairs(open, close);
    KindPairs(close, open);
    assert st.depth < limit ==> (st.stack + [Kind(open)])[..st.depth] == st.stack;
  }

  /** A bracketed part that leaves the stack as it found it can be dropped from the scan. */
  lemma GroupRun(open: byte, inside: seq<byte>, close: byte, rest: seq<byte>, st: State, limit: nat)
    requires StackOk(st, limit) && ClosesGroup(open, close, st.depth, limit)
    requires Run(inside, Step(st, open, limit), limit) == Step(st, open, limit)
    ensures var s := [open] + (inside + ([close] + rest));
            && Run(s, st, limit) == Run(rest, st, limit)
            && Peak(s, st, limit) == Max(|st.stack|,
                 Max(Peak(inside, Step(st, open, limit), limit),
                     Max(|Step(st, open, limit).stack|, Peak(rest, st, limit))))
  {
    OpenThenClose(open, close, st, limit);
    Head(open, inside + ([close] + rest), st, limit);
    RunConcat(inside, [close] + rest, Step(st, open, limit), limit);
    Head(close, rest, Step(st, open, limit), limit);
  }

  lemma Associate(x: seq<byte>, y: seq<byte>, z: seq<byte>)
    ensures x + (y + z) == (x + y) + z
  {
  }

  lemma PlainKept(c: byte, rest: Nested, st: State, limit: nat)
    requires StackOk(st, limit) && Ordinary(c)
    ensures Step(st, c, limit) == if st.depth == 0 then st.(out := st.out + [c]) else st
    ensures Kept(Step(st, c, limit), rest) == Kept(st, Plain(c, rest))
  {
    if st.depth == 0 {
      Associate(st.out, [c], LevelZero(rest));
    }
  }

  /** Well-nested text leaves the stack as it was, whatever the limit, and keeps exactly the
      characters at level zero. */
  lemma {:induction false} WellNestedRun(t: Nested, st: State, limit: nat)
    requires WellNested(t) && StackOk(st, limit)
    ensures Run(Text(t), st, limit) == Kept(st, t)
  {
    match t
    case End => assert st.out + [] == st.out;
    case Plain(c, rest) =>
      Head(c, Text(rest), st, limit);
      WellNestedRun(rest, Step(st, c, limit), limit);
      PlainKept(c, rest, st, limit);
    case Group(open, inside, close, rest) =>
      OpenThenClose(open, close, st, limit);
      WellNestedRun(inside, Step(st, open, limit), limit);
      GroupRun(open, Text(inside), close, Text(rest), st, limit);
      WellNestedRun(rest, st, limit);
  }

  // ------------------------------------------------------------------------- any text

  /** No bracket at the top of the text is left open. */
  predicate Closed(t: Nested) {
    match t
    case End => true
    case Plain(_, rest) => Closed(rest)
    case Group(_, _, _, rest) => Closed(rest)
    case Stray(_, rest) => Closed(rest)
    case Unclosed(_, _) => false
  }

  /** The text as it is read inside `level` open brackets, the innermost of them `inner`: a closing
      bracket is stray outside all brackets, or when it does not match an innermost one within the limit. */
  predicate Reading(t: Nested, level: nat, inner: byte, limit: nat) {
    match t
    case End => true
    case Plain(c, rest) => Ordinary(c) && Reading(rest, level, inner, limit)
    case Group(open, inside, close, rest) =>
      && ClosesGroup(open, close, level, limit) && Closed(inside)
      && Reading(inside, level + 1, open, limit) && Reading(rest, level, inner, limit)
    case Stray(close, rest) => IsStray(close, level, inner, limit) && Reading(rest, level, inner, limit)
    case Unclosed(open, inside) => Opens(open) && Reading(inside, level + 1, open, limit)
  }

  predicate IsStray(close: byte, level: nat, inner: byte, limit: nat) {
    Closes(close) && (level == 0 || (level <= limit && !Pair(inner, close)))
  }

  /** The innermost open bracket is on top of the stack, if it was stored. */
  predicate OnTop(st: State, inner: byte, limit: nat)
    requires StackOk(st, limit)
  {
    0 < st.depth <= limit ==> Opens(inner) && st.stack[st.depth - 1] == Kind(inner)
  }

  lemma StrayIgnored(close: byte, st: State, inner: byte, limit: nat)
    requires StackOk(st, limit) && OnTop(st, inner, limit) && IsStray(close, st.depth, inner, limit)
    ensures Step(st, close, limit) == st
  {
    KindPairs(inner, close);
    KindPairs(close, inner);
  }

  lemma OpenStep(open: byte, st: State, limit: nat)
    requires StackOk(st, limit) && Opens(open)
    ensures var t := Step(st, open, limit); t.depth == st.depth + 1 && t.out == st.out && OnTop(t, open, limit)
  {
    KindPairs(open, open);
  }

  /** What the scan does with a text read from where it stands. */
  ghost predicate Scans(t: Nested, st: State, limit: nat)
    requires StackOk(st, limit)
  {
    var u := Run(Text(t), st, limit);
    u.out == Kept(st, t).out && (Closed(t) ==> u == Kept(st, t))
  }

  lemma GroupScans(open: byte, inside: Nested, close: byte, rest: Nested, st: State, limit: nat)
    requires StackOk(st, limit) && ClosesGroup(open, close, st.depth, limit) && Closed(inside)
    requires Scans(inside, Step(st, open, limit), limit) && Scans(rest, st, limit)
    ensures Scans(Group(open, inside, close, rest), st, limit)
  {
    OpenStep(open, st, limit);
    GroupRun(open, Text(inside), close, Text(rest), st, limit);
  }

  lemma UnclosedScans(open: byte, inside: Nested, st: State, limit: nat)
    requires StackOk(st, limit) && Opens(open) && Scans(inside, Step(st, open, limit), limit)
    ensures Scans(Unclosed(open, inside), st, limit)
  {
    OpenStep(open, st, limit);
    Head(open, Text(inside), st, limit);
    assert st.out + [] == st.out;
  }

  /** The scan keeps the level-zero text, ignores stray brackets and drops an unclosed part; a text
      that leaves nothing open leaves the stack as it was. */
  lemma {:induction false} ReadingRun(t: Nested, st: State, inner: byte, limit: nat)
    requires StackOk(st, limit) && OnTop(st, inner, limit) && Reading(t, st.depth, inner, limit)
    ensures Scans(t, st, limit)
  {
    match t
    case End => assert st.out + [] == st.out;
    case Plain(c, rest) =>
      Head(c, Text(rest), st, limit);
      PlainKept(c, rest, st, limit);
      ReadingRun(rest, Step(st, c, limit), inner, limit);
    case Group(open, inside, close, rest) =>
      OpenStep(open, st, limit);
      ReadingRun(inside, Step(st, open, limit), open, limit);
      ReadingRun(rest, st, inner, limit);
      GroupScans(open, inside, close, rest, st, limit);
    case Stray(close, rest) =>
      StrayIgnored(close, st, inner, limit);
      Head(close, Text(rest), st, limit);
      ReadingRun(rest, st, inner, limit);
    case Unclosed(open, inside) =>
      OpenStep(open, st, limit);
      ReadingRun(inside, Step(st, open, limit), open, limit);
      UnclosedScans(open, inside, st, limit);
  }

  /** `s` is read as `t`, up to the bracket that closes the group it stands in, if there is one. */
  predicate ReadsAs(s: seq<byte>, t: Nested, rest: seq<byte>, level: nat, inner: byte, limit: nat) {
    && s == Text(t) + rest && Reading(t, level, inner, limit)
    && (rest != [] ==> Closed(t) && Closes(rest[0]) && !IsStray(rest[0], level, inner, limit))
  }

  lemma GroupReads(open: byte, inside: Nested, close: byte, after: Nested, rest: seq<byte>, level: nat, inner: byte,
                   limit: nat, s: seq<byte>)
    requires Opens(open) && s == [open] + (Text(inside) + ([close] + (Text(after) + rest)))
    requires Closes(close) && !IsStray(close, level + 1, open, limit)
    requires Closed(inside) && Reading(inside, level + 1, open, limit)
    requires ReadsAs(Text(after) + rest, after, rest, level, inner, limit)
    ensures ReadsAs(s, Group(open, inside, close, after), rest, level, inner, limit)
  {
    assert s == Text(Group(open, inside, close, after)) + rest;
  }

  /** Every text can be read so. */
  lemma {:induction false} Read(s: seq<byte>, level: nat, inner: byte, limit: nat)
      returns (t: Nested, rest: seq<byte>)
    ensures ReadsAs(s, t, rest, level, inner, limit)
    decreases |s|
  {
    if s == [] {
      t, rest := End, [];
    } else if Ordinary(s[0]) {
      t, rest := Read(s[1..], level, inner, limit);
      t := Plain(s[0], t);
    } else if IsStray(s[0], level, inner, limit) {
      t, rest := Read(s[1..], level, inner, limit);
      t := Stray(s[0], t);
    } else if Closes(s[0]) {
      t, rest := End, s;
    } else {
      var inside, more := Read(s[1..], level + 1, s[0], limit);
      if more == [] {
        t, rest := Unclosed(s[0], inside), [];
      } else {
        t, rest := Read(more[1..], level, inner, limit);
        GroupReads(s[0], inside, more[0], t, rest, level, inner, limit, s);
        t := Group(s[0], inside, more[0], t);
      }
    }
  }

  /** For every text and every limit: there is such a reading, and the result of the scan is the
      level-zero text of it. */
  lemma EveryTextRead(s: seq<byte>, limit: nat) returns (t: Nested)
    ensures Text(t) == s && Reading(t, 0, 0, limit) && Run(s, INIT, limit).out == LevelZero(t)
  {
    var rest: seq<byte>;
    t, rest := Read(s, 0, 0, limit);
    assert Text(t) + [] == Text(t);
    ReadingStripped(t, limit);
  }

  /** Whichever reading it is. */
  lemma ReadingStripped(t: Nested, limit: nat)
    requires Reading(t, 0, 0, limit)
    ensures Run(Text(t), INIT, limit).out == LevelZero(t)
  {
    ReadingRun(t, INIT, 0, limit);
    assert [] + LevelZero(t) == LevelZero(t);
  }

  // ------------------------------------------------------------------- the stack it needs

  lemma GroupPeak(open: byte, inside: seq<byte>, close: byte, rest: seq<byte>, st: State, limit: nat)
    requires StackOk(st, limit) && ClosesGroup(open, close, st.depth, limit)
    requires Run(inside, Step(st, open, limit), limit) == Step(st, open, limit)
    requires 2 * Peak(inside, Step(st, open, limit), limit) <= 2 * |Step(st, open, limit).stack| + |inside|
    requires 2 * Peak(rest, st, limit) <= 2 * |st.stack| + |rest|
    ensures var s := [open] + (inside + ([close] + rest)); 2 * Peak(s, st, limit) <= 2 * |st.stack| + |s|
  {
    OpenThenClose(open, close, st, limit);
    GroupRun(open, inside, close, rest, st, limit);
  }

  /** It stores no more brackets than half its length. */
  lemma {:induction false} WellNestedPeak(t: Nested, st: State, limit: nat)
    requires WellNested(t) && StackOk(st, limit)
    ensures 2 * Peak(Text(t), st, limit) <= 2 * |st.stack| + |Text(t)|
  {
    match t
    case End =>
    case Plain(c, rest) =>
      Head(c, Text(rest), st, limit);
      PlainKept(c, rest, st, limit);
      WellNestedPeak(rest, Step(st, c, limit), limit);
    case Group(open, inside, close, rest) =>
      OpenThenClose(open, close, st, limit);
      WellNestedRun(inside, Step(st, open, limit), limit);
      WellNestedPeak(inside, Step(st, open, limit), limit);
      WellNestedPeak(rest, st, limit);
      GroupPeak(open, Text(inside), close, Text(rest), st, limit);
  }

  /** For every well-nested text and every limit, even below the real nesting depth: the result is
      the level-zero text, and every index stays within the stack. */
  lemma WellNestedStripped(t: Nested, limit: nat)
    requires WellNested(t)
    ensures Run(Text(t), INIT, limit).out == LevelZero(t)
    ensures Peak(Text(t), INIT, limit) <= Min(|Text(t)| / 2, limit)
  {
    WellNestedRun(t, INIT, limit);
    WellNestedPeak(t, INIT, limit);
    assert [] + LevelZero(t) == LevelZero(t);
  }

  // ------------------------------------------------------- when the stack is large enough

  lemma {:induction false} BelowBothLimits(s: seq<byte>, st: State, a: nat, b: nat, h: nat)
    requires h < a && h < b && StackOk(st, a) && StackOk(st, b)
    requires Peak(s, st, a) <= h
    ensures Peak(s, st, b) <= h
  {
    if s != [] {
      assert Step(st, s[0], a) == Step(st, s[0], b);
      BelowBothLimits(s[1..], Step(st, s[0], a), a, b, h);
    }
  }

  /** The scan stays within its stack of min(length / 2, limit) entries. */
  predicate StackSuffices(s: seq<byte>, limit: nat) {
    Peak(s, INIT, limit) <= Min(|s| / 2, limit)
  }

  /** On arbitrary text the stack suffices exactly when the limit is at most half the length, or no
      point of the text has more than half its length in brackets pending. */
  lemma StackSufficesExactly(s: seq<byte>, limit: nat)
    ensures StackSuffices(s, limit) <==> limit <= |s| / 2 || Peak(s, INIT, |s|) <= |s| / 2
  {
    var h := |s| / 2;
    if h < limit && h < |s| {
      if Peak(s, INIT, limit) <= h {
        BelowBothLimits(s, INIT, limit, |s|, h);
      }
      if Peak(s, INIT, |s|) <= h {
        BelowBothLimits(s, INIT, |s|, limit, h);
      }
    }
  }

  lemma {:induction false} OpeningPeak(s: seq<byte>, st: State, limit: nat)
    requires StackOk(st, limit) && forall i :: 0 <= i < |s| ==> Kind(s[i]) > 0
    ensures Peak(s, st, limit) == Min(st.depth + |s|, limit)
  {
    if s != [] {
      OpeningPeak(s[1..], Step(st, s[0], limit), limit);
    }
  }

  /** On opening brackets alone the stack is overrun by every limit above half the length. */
  lemma OnlyOpeningBrackets(s: seq<byte>, limit: nat)
    requires s != [] && forall i :: 0 <= i < |s| ==> Kind(s[i]) > 0
    ensures StackSuffices(s, limit) <==> limit <= |s| / 2
  {
    OpeningPeak(s, INIT, limit);
  }

  /** The opening brackets of the text. */
  function Openings(s: seq<byte>): nat {
    if s == [] then 0 else (if Kind(s[0]) > 0 then 1 else 0) + Openings(s[1..])
  }

  lemma {:induction false} PeakBelowOpenings(s: seq<byte>, st: State, limit: nat)
    requires StackOk(st, limit)
    ensures Peak(s, st, limit) <= |st.stack| + Openings(s)
  {
    if s != [] {
      PeakBelowOpenings(s[1..], Step(st, s[0], limit), limit);
    }
  }

  /** A test without a scan of the nesting: at most half the characters open a bracket. */
  lemma FewOpeningsSuffice(s: seq<byte>, limit: nat)
    requires Openings(s) <= |s| / 2
    ensures StackSuffices(s, limit)
  {
    PeakBelowOpenings(s, INIT, limit);
  }

  // ----------------------------------------------------------------- remove_bracket

  lemma RunStep(s: seq<byte>, i: nat, st: State, limit: nat)
    requires i < |s| && StackOk(st, limit)
    ensures Run(s[i..], st, limit) == Run(s[i + 1..], Step(st, s[i], limit), limit)
    ensures Peak(s[i..], st, limit) >= Peak(s[i + 1..], Step(st, s[i], limit), limit)
  {
    assert s[i..][0] == s[i] && s[i..][1..] == s[i + 1..];
  }

  /** The stored brackets are the start of the stack's memory. */
  ghost predicate Stored(st: State, memory: seq<int>, depth: nat) {
    depth == st.depth && st.stack <= memory
  }

  /** The two bracket branches: push or only count, pop or only count, or ignore. */
  method Bracket(stack: array<int>, depth: nat, bracketType: int, limit: nat, ghost st: State, ghost c: byte)
      returns (d: nat)
    requires StackOk(st, limit) && bracketType == Kind(c) != 0 && Stored(st, stack[..], depth)
    requires |Step(st, c, limit).stack| <= stack.Length
    modifies stack
    ensures Stored(Step(st, c, limit), stack[..], d) && Step(st, c, limit).out == st.out
  {
    d := depth;
    if bracketType > 0 {
      if depth < limit {
        stack[depth] := bracketType;
        assert stack[..depth] == st.stack;
      }
      d := depth + 1;
    } else if depth > 0 {
      if depth <= limit && stack[depth - 1] == -bracketType {
        d := depth - 1;
      } else if depth > limit {
        d := depth - 1;
      }
    }
  }

  /** One round of the scan. */
  method ScanByte(stack: array<int>, output: array<byte>, depth: nat, w: nat, c: byte, limit: nat, ghost st: State)
      returns (d: nat, v: nat)
    requires StackOk(st, limit) && Stored(st, stack[..], depth) && w < output.Length && st.out == output[..w]
    requires |Step(st, c, limit).stack| <= stack.Length
    modifies stack, output
    ensures Stored(Step(st, c, limit), stack[..], d) && v <= w + 1 && Step(st, c, limit).out == output[..v]
  {
    d, v := depth, w;
    if Kind(c) != 0 {
      d := Bracket(stack, depth, Kind(c), limit, st, c);
    } else if depth == 0 {
      output[w] := c;
      v := w + 1;
    }
  }

  method RemoveBracket(input: seq<byte>, limit: nat) returns (out: seq<byte>)
    requires limit <= |input| / 2 || Peak(input, INIT, |input|) <= |input| / 2
    ensures out == Run(input, INIT, limit).out
    ensures forall t :: Reading(t, 0, 0, limit) && Text(t) == input ==> out == LevelZero(t)
  {
    forall t | Reading(t, 0, 0, limit) && Text(t) == input ensures Run(input, INIT, limit).out == LevelZero(t) {
      ReadingStripped(t, limit);
    }
    if input == [] { return []; }
    StackSufficesExactly(input, limit);
    var output := new byte[|input|];
    var stack := new int[Min(|input| / 2, limit)];
    var depth, w := 0, 0;
    ghost var st := INIT;
    assert input[0..] == input;
    for i := 0 to |input|
      invariant 0 <= depth && 0 <= w <= i
      invariant StackOk(st, limit) && Stored(st, stack[..], depth) && st.out == output[..w]
      invariant Peak(input[i..], st, limit) <= stack.Length
      invariant Run(input[i..], st, limit) == Run(input, INIT, limit)
    {
      RunStep(input, i, st, limit);
      depth, w := ScanByte(stack, output, depth, w, input[i], limit, st);
      st := Step(st, input[i], limit);
    }
    out := output[..w];
  }
}
