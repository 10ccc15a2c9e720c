/** src/core/base/string_util.cc: splitting a string at a delimiter. */
module Split {
  import opened Ring

  predicate OccursAt(input: seq<byte>, d: seq<byte>, i: nat) {
    i + |d| <= |input| && input[i..i + |d|] == d
  }

  predicate Contains(input: seq<byte>, d: seq<byte>) {
    exists i: nat :: i <= |input| && OccursAt(input, d, i)
  }

  /** `i` is the first occurrence at or after `pos`, or the input's length if there is none. */
  ghost predicate IsFirst(input: seq<byte>, d: seq<byte>, pos: nat, i: nat) {
    && pos <= i <= |input| && (i < |input| ==> OccursAt(input, d, i))
    && forall k :: pos <= k < i ==> !OccursAt(input, d, k)
  }

  lemma {:induction false} FirstExists(input: seq<byte>, d: seq<byte>, pos: nat) returns (i: nat)
    requires pos <= |input|
    ensures IsFirst(input, d, pos, i)
    decreases |input| - pos
  {
    if pos == |input| || OccursAt(input, d, pos) {
      i := pos;
    } else {
      i := FirstExists(input, d, pos + 1);
    }
  }

  lemma SomeFirst(input: seq<byte>, d: seq<byte>, pos: nat)
    requires pos <= |input|
    ensures exists i: nat :: IsFirst(input, d, pos, i)
  {
    var i := FirstExists(input, d, pos);
  }

  /** `input.find(d, pos)`, with the input's length for `npos`. */
  ghost function Find(input: seq<byte>, d: seq<byte>, pos: nat): (i: nat)
    requires pos <= |input|
    ensures IsFirst(input, d, pos, i)
  {
    SomeFirst(input, d, pos);
    var i: nat :| IsFirst(input, d, pos, i);
    i
  }

  lemma FirstIsUnique(input: seq<byte>, d: seq<byte>, pos: nat, i: nat, j: nat)
    requires IsFirst(input, d, pos, i) && IsFirst(input, d, pos, j)
    ensures i == j
  {
  }

  method FindFrom(input: seq<byte>, d: seq<byte>, pos: nat) returns (i: nat)
    requires pos <= |input|
    ensures i == Find(input, d, pos)
  {
    i := pos;
    while i < |input| && !OccursAt(input, d, i)
      invariant pos <= i <= |input|
      invariant forall k :: pos <= k < i ==> !OccursAt(input, d, k)
    {
      i := i + 1;
    }
    assert IsFirst(input, d, pos, i);
  }

  /** The tokens of the input from `pos` on. */
  ghost function Tokens(input: seq<byte>, d: seq<byte>, pos: nat): seq<seq<byte>>
    requires |d| > 0
    decreases if pos <= |input| then |input| - pos else 0
  {
    if pos >= |input| then []
    else
      var i := Find(input, d, pos);
      if i == |input| then [input[pos..]] else [input[pos..i]] + Tokens(input, d, i + |d|)
  }

  function Join(tokens: seq<seq<byte>>, d: seq<byte>): seq<byte> {
    if tokens == [] then []
    else if |tokens| == 1 then tokens[0]
    else tokens[0] + d + Join(tokens[1..], d)
  }

  /** The scan cuts its last token off right before a delimiter that ends the input. */
  ghost predicate EndsCut(input: seq<byte>, d: seq<byte>, pos: nat)
    requires |d| > 0
    decreases if pos <= |input| then |input| - pos else 0
  {
    pos < |input| &&
    var i := Find(input, d, pos);
    i < |input| && (i + |d| == |input| || EndsCut(input, d, i + |d|))
  }

  lemma JoinStep(whole: seq<byte>, x: seq<byte>, d: seq<byte>, rest: seq<byte>, tokens: seq<seq<byte>>,
        extra: seq<byte>)
    requires whole == x + d + rest && rest == Join(tokens, d) + extra && tokens != []
    ensures whole == Join([x] + tokens, d) + extra
  {
    assert ([x] + tokens)[1..] == tokens;
  }

  lemma CutAt(input: seq<byte>, d: seq<byte>, pos: nat)
    requires pos <= |input| && Find(input, d, pos) < |input|
    ensures var i := Find(input, d, pos); input[pos..] == input[pos..i] + d + input[i + |d|..]
  {
  }

  ghost function Cut(input: seq<byte>, d: seq<byte>, pos: nat): seq<byte>
    requires |d| > 0
  {
    if EndsCut(input, d, pos) then d else []
  }

  lemma ScanStep(input: seq<byte>, d: seq<byte>, pos: nat)
    requires |d| > 0 && pos < |input| && Find(input, d, pos) + |d| < |input|
    ensures var i := Find(input, d, pos);
            && Tokens(input, d, pos) == [input[pos..i]] + Tokens(input, d, i + |d|)
            && Tokens(input, d, i + |d|) != [] && Cut(input, d, pos) == Cut(input, d, i + |d|)
  {
  }

  lemma ScanEnd(input: seq<byte>, d: seq<byte>, pos: nat)
    requires |d| > 0 && pos <= |input|
    requires pos < |input| ==> Find(input, d, pos) == |input| || Find(input, d, pos) + |d| == |input|
    ensures input[pos..] == Join(Tokens(input, d, pos), d) + Cut(input, d, pos)
  {
    if pos < |input| && Find(input, d, pos) < |input| {
      CutAt(input, d, pos);
      assert Tokens(input, d, |input|) == [] && input[|input|..] == [];
    }
  }

  /** The input is its tokens joined by the delimiter, plus one delimiter when the scan ends cut. */
  lemma {:induction false} JoinTokens(input: seq<byte>, d: seq<byte>, pos: nat)
    requires |d| > 0 && pos <= |input|
    ensures input[pos..] == Join(Tokens(input, d, pos), d) + Cut(input, d, pos)
    decreases |input| - pos
  {
    if pos < |input| && Find(input, d, pos) + |d| < |input| {
      var i := Find(input, d, pos);
      var next := i + |d|;
      var rest, cut := Tokens(input, d, next), Cut(input, d, next);
      JoinTokens(input, d, next);
      CutAt(input, d, pos);
      ScanStep(input, d, pos);
      JoinStep(input[pos..], input[pos..i], d, input[next..], rest, cut);
    } else {
      ScanEnd(input, d, pos);
    }
  }

  lemma SliceOfSlice(s: seq<byte>, a: nat, b: nat, c: nat, e: nat)
    requires a <= b <= |s| && c <= e <= b - a
    ensures s[a..b][c..e] == s[a + c..a + e]
  {
    var x, y := s[a..b][c..e], s[a + c..a + e];
    assert |x| == |y|;
    forall i | 0 <= i < |x| ensures x[i] == y[i] {
      assert x[i] == s[a..b][c + i] == s[a + c + i];
    }
  }

  lemma NoOccurrenceInside(input: seq<byte>, d: seq<byte>, pos: nat)
    requires |d| > 0 && pos <= |input|
    ensures !Contains(input[pos..Find(input, d, pos)], d)
  {
    var token := input[pos..Find(input, d, pos)];
    forall m: nat | m <= |token| ensures !OccursAt(token, d, m) {
      if m + |d| <= |token| {
        SliceOfSlice(input, pos, pos + |token|, m, m + |d|);
        assert !OccursAt(input, d, pos + m);
      }
    }
  }

  predicate NoneContains(tokens: seq<seq<byte>>, d: seq<byte>) {
    forall k :: 0 <= k < |tokens| ==> !Contains(tokens[k], d)
  }

  lemma {:induction false} NoTokenContains(input: seq<byte>, d: seq<byte>, pos: nat)
    requires |d| > 0 && pos <= |input|
    ensures NoneContains(Tokens(input, d, pos), d)
    decreases |input| - pos
  {
    if pos < |input| {
      var i := Find(input, d, pos);
      NoOccurrenceInside(input, d, pos);
      if i < |input| {
        NoTokenContains(input, d, i + |d|);
      } else {
        assert input[pos..] == input[pos..|input|];
      }
    }
  }

  /** Splitting loses nothing but at most one trailing delimiter, and splits completely. */
  lemma SplitLosesNothing(input: seq<byte>, d: seq<byte>)
    requires |d| > 0
    ensures var tokens := Tokens(input, d, 0);
            && (input == Join(tokens, d) || input == Join(tokens, d) + d)
            && NoneContains(tokens, d)
  {
    JoinTokens(input, d, 0);
    assert input[0..] == input;
    assert Join(Tokens(input, d, 0), d) + [] == Join(Tokens(input, d, 0), d);
    NoTokenContains(input, d, 0);
  }

  // ---------------------------------------------------------------- tokens put together

  /** Each token followed by the delimiter. */
  function Terminated(tokens: seq<seq<byte>>, d: seq<byte>): seq<byte> {
    if tokens == [] then [] else tokens[0] + d + Terminated(tokens[1..], d)
  }

  /** With the delimiter behind it, the token does not meet it any earlier. */
  ghost predicate EndsAtDelimiter(token: seq<byte>, d: seq<byte>) {
    forall m: nat :: m < |token| ==> !OccursAt(token + d, d, m)
  }

  ghost predicate AllEnd(tokens: seq<seq<byte>>, d: seq<byte>) {
    forall k :: 0 <= k < |tokens| ==> EndsAtDelimiter(tokens[k], d)
  }

  lemma OccursInside(input: seq<byte>, d: seq<byte>, pos: nat, part: seq<byte>, m: nat)
    requires pos + |part| <= |input| && input[pos..pos + |part|] == part && m + |d| <= |part|
    ensures OccursAt(input, d, pos + m) <==> OccursAt(part, d, m)
  {
    SliceOfSlice(input, pos, pos + |part|, m, m + |d|);
  }

  lemma FindsDelimiter(input: seq<byte>, d: seq<byte>, pos: nat, token: seq<byte>, rest: seq<byte>)
    requires |d| > 0 && pos <= |input| && input[pos..] == token + d + rest && EndsAtDelimiter(token, d)
    ensures Find(input, d, pos) == pos + |token|
    ensures input[pos..pos + |token|] == token && input[pos + |token| + |d|..] == rest
  {
    assert input[pos..pos + |token + d|] == token + d by {
      assert input[pos..pos + |token + d|] == input[pos..][..|token + d|];
    }
    forall m: nat | m <= |token| ensures OccursAt(input, d, pos + m) <==> OccursAt(token + d, d, m) {
      OccursInside(input, d, pos, token + d, m);
    }
    assert (token + d)[|token|..|token| + |d|] == d;
    forall k | pos <= k < pos + |token| ensures !OccursAt(input, d, k) {
      assert !OccursAt(token + d, d, k - pos);
    }
    assert OccursAt(input, d, pos + |token|);
    FirstIsUnique(input, d, pos, Find(input, d, pos), pos + |token|);
  }

  lemma FindsNothing(input: seq<byte>, d: seq<byte>, pos: nat)
    requires |d| > 0 && pos <= |input| && !Contains(input[pos..], d)
    ensures Find(input, d, pos) == |input|
  {
    var i := Find(input, d, pos);
    if i < |input| {
      OccursInside(input, d, pos, input[pos..], i - pos);
    }
  }

  lemma {:induction false} SplitRest(input: seq<byte>, d: seq<byte>, pos: nat, tokens: seq<seq<byte>>,
                                     last: seq<byte>)
    requires |d| > 0 && pos <= |input| && input[pos..] == Terminated(tokens, d) + last
    requires AllEnd(tokens, d) && !Contains(last, d)
    ensures Tokens(input, d, pos) == tokens + if last == [] then [] else [last]
    decreases |tokens|
  {
    if tokens == [] {
      assert input[pos..] == last;
      FindsNothing(input, d, pos);
    } else {
      var rest := Terminated(tokens[1..], d) + last;
      assert input[pos..] == tokens[0] + d + rest;
      assert EndsAtDelimiter(tokens[0], d);
      FindsDelimiter(input, d, pos, tokens[0], rest);
      SplitRest(input, d, pos + |tokens[0]| + |d|, tokens[1..], last);
    }
  }

  /** Splitting what was put together gives the pieces back; an empty last piece is not a token. */
  lemma SplitRoundTrip(tokens: seq<seq<byte>>, d: seq<byte>, last: seq<byte>)
    requires |d| > 0 && AllEnd(tokens, d) && !Contains(last, d)
    ensures Tokens(Terminated(tokens, d) + last, d, 0) == tokens + if last == [] then [] else [last]
  {
    var input := Terminated(tokens, d) + last;
    assert input[0..] == input;
    SplitRest(input, d, 0, tokens, last);
  }

  lemma Regroup<T>(a: seq<T>, x: T, b: seq<T>)
    ensures a + ([x] + b) == (a + [x]) + b
  {
  }

  /** The delimiter of length zero: every character becomes a token. */
  method Characters(input: seq<byte>) returns (tokens: seq<seq<byte>>)
    ensures |tokens| == |input| && forall k :: 0 <= k < |input| ==> tokens[k] == [input[k]]
  {
    tokens := [];
    for i := 0 to |input|
      invariant |tokens| == i && forall k :: 0 <= k < i ==> tokens[k] == [input[k]]
    {
      tokens := tokens + [[input[i]]];
    }
  }

  /** split_string. */
  method SplitString(input: seq<byte>, d: seq<byte>) returns (tokens: seq<seq<byte>>)
    ensures |d| > 0 ==> tokens == Tokens(input, d, 0)
    ensures d == [] ==> |tokens| == |input| && forall k :: 0 <= k < |input| ==> tokens[k] == [input[k]]
  {
    if |d| == 0 {
      tokens := Characters(input);
      return;
    }
    tokens := [];
    var pos := 0;
    while pos < |input|
      invariant 0 <= pos
      invariant tokens + Tokens(input, d, pos) == Tokens(input, d, 0)
      decreases |input| - pos
    {
      var next := FindFrom(input, d, pos);
      if next == |input| {
        tokens := tokens + [input[pos..]];
        return;
      }
      Regroup(tokens, input[pos..next], Tokens(input, d, next + |d|));
      tokens := tokens + [input[pos..next]];
      pos := next + |d|;
    }
    assert tokens + [] == tokens;
  }
}
