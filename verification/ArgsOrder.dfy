/** src/include/femtolog/logging/impl/args_deserializer.h: the reader for five and more arguments
    advances a captured offset inside the arguments of `make_tuple`, whose order of evaluation C++
    leaves open. What the reader returns when the calls run from right to left. */
module ArgsOrder {
  import opened Ring
  import opened LittleEndian
  import opened ArgsCodec

  function Reverse<T>(xs: seq<T>): (ys: seq<T>)
    ensures |ys| == |xs|
  {
    if xs == [] then [] else Reverse(xs[1..]) + [xs[0]]
  }

  lemma {:induction false} ReverseAt<T>(xs: seq<T>, i: nat)
    requires i < |xs|
    ensures Reverse(xs)[i] == xs[|xs| - 1 - i]
  {
    if i < |xs| - 1 {
      ReverseAt(xs[1..], i);
    }
  }

  lemma ReverseTwice<T>(xs: seq<T>)
    ensures Reverse(Reverse(xs)) == xs
  {
    forall i | 0 <= i < |xs| ensures Reverse(Reverse(xs))[i] == xs[i] {
      ReverseAt(Reverse(xs), i);
      ReverseAt(xs, |xs| - 1 - i);
    }
  }

  /** The last argument is read at offset 0. */
  function ReadRightToLeft(refMode: bool, ts: seq<ArgType>, data: seq<byte>): Option<seq<Arg>> {
    match ReadAll(refMode, Reverse(ts), data, 0)
    case None => None
    case Some((args, _)) => Some(Reverse(args))
  }

  // -------------------------------------------------- a read determines what it consumed

  lemma ReadArgDetermines(refMode: bool, v: Value, t: ArgType, data: seq<byte>, offset: nat)
    requires HasType(v, t) && ReadArg(refMode, t, data, offset).Some?
    requires ReadArg(refMode, t, data, offset).value.0 == Passed(refMode, v)
    ensures var end := ReadArg(refMode, t, data, offset).value.1;
            offset <= end <= |data| && data[offset..end] == EncodeArg(refMode, v)
  {
    if v.Text? {
      BytesRoundTrip(data[offset..offset + 8]);
      var mid := offset + 8;
      if refMode {
        BytesRoundTrip(data[mid..mid + 8]);
        SliceBoth(data, offset, mid, mid + 8);
      } else {
        SliceBoth(data, offset, mid, mid + |v.chars|);
      }
    }
  }

  lemma SliceBoth(data: seq<byte>, a: nat, b: nat, c: nat)
    requires a <= b <= c <= |data|
    ensures data[a..c] == data[a..b] + data[b..c]
  {
  }

  lemma {:induction false} ReadAllDetermines(refMode: bool, vs: seq<Value>, ts: seq<ArgType>, data: seq<byte>,
        offset: nat)
    requires HaveTypes(vs, ts) && offset <= |data| && ReadAll(refMode, ts, data, offset).Some?
    requires ReadAll(refMode, ts, data, offset).value.0 == PassedAll(refMode, vs)
    ensures var end := ReadAll(refMode, ts, data, offset).value.1;
            offset <= end <= |data| && data[offset..end] == EncodeArgs(refMode, vs)
    decreases |vs|
  {
    if vs != [] {
      var (arg, next) := ReadArg(refMode, ts[0], data, offset).value;
      var (rest, end) := ReadAll(refMode, ts[1..], data, next).value;
      FirstAndRest(arg, rest, Passed(refMode, vs[0]), PassedAll(refMode, vs[1..]));
      ReadArgDetermines(refMode, vs[0], ts[0], data, offset);
      ReadAllDetermines(refMode, vs[1..], ts[1..], data, next);
      SliceBoth(data, offset, next, end);
    }
  }

  lemma FirstAndRest<T>(a: T, x: seq<T>, b: T, y: seq<T>)
    requires [a] + x == [b] + y
    ensures a == b && x == y
  {
    assert ([a] + x)[0] == ([b] + y)[0];
    assert ([a] + x)[1..] == x && ([b] + y)[1..] == y;
  }

  // ------------------------------------------------------------------- reversed lists

  lemma {:induction false} PassedSnoc(refMode: bool, vs: seq<Value>, v: Value)
    ensures PassedAll(refMode, vs + [v]) == PassedAll(refMode, vs) + [Passed(refMode, v)]
    ensures |EncodeArgs(refMode, vs + [v])| == |EncodeArgs(refMode, vs)| + |EncodeArg(refMode, v)|
  {
    if vs == [] {
      assert vs + [v] == [v] && [v][1..] == [];
    } else {
      PassedSnoc(refMode, vs[1..], v);
      assert (vs + [v])[1..] == vs[1..] + [v];
    }
  }

  lemma {:induction false} PassedReverse(refMode: bool, vs: seq<Value>)
    ensures PassedAll(refMode, Reverse(vs)) == Reverse(PassedAll(refMode, vs))
    ensures |EncodeArgs(refMode, Reverse(vs))| == |EncodeArgs(refMode, vs)|
  {
    if vs != [] {
      PassedReverse(refMode, vs[1..]);
      PassedSnoc(refMode, Reverse(vs[1..]), vs[0]);
      assert PassedAll(refMode, vs)[1..] == PassedAll(refMode, vs[1..]);
    }
  }

  lemma TypesReverse(vs: seq<Value>, ts: seq<ArgType>)
    requires HaveTypes(vs, ts)
    ensures HaveTypes(Reverse(vs), Reverse(ts))
  {
    forall i | 0 <= i < |vs| ensures HasType(Reverse(vs)[i], Reverse(ts)[i]) {
      ReverseAt(vs, i);
      ReverseAt(ts, i);
    }
  }

  lemma ReadsBack(refMode: bool, vs: seq<Value>, ts: seq<ArgType>)
    requires HaveTypes(vs, ts)
    ensures ReadAll(refMode, ts, EncodeArgs(refMode, vs), 0)
         == Some((PassedAll(refMode, vs), |EncodeArgs(refMode, vs)|))
  {
    ReadWritten(refMode, vs, ts, [], []);
    assert [] + EncodeArgs(refMode, vs) + [] == EncodeArgs(refMode, vs);
  }

  /** For every argument list, strings and mixed sizes included: read from right to left, the
      arguments come back as passed exactly when the reversed list has the same encoding. */
  lemma RightToLeftExactly(refMode: bool, vs: seq<Value>, ts: seq<ArgType>)
    requires HaveTypes(vs, ts)
    ensures ReadRightToLeft(refMode, ts, EncodeArgs(refMode, vs)) == Some(PassedAll(refMode, vs))
       <==> EncodeArgs(refMode, Reverse(vs)) == EncodeArgs(refMode, vs)
  {
    var data, us := EncodeArgs(refMode, vs), Reverse(vs);
    TypesReverse(vs, ts);
    PassedReverse(refMode, vs);
    ReverseTwice(PassedAll(refMode, vs));
    if EncodeArgs(refMode, us) == data {
      ReadsBack(refMode, us, Reverse(ts));
    }
    var r := ReadAll(refMode, Reverse(ts), data, 0);
    if r.Some? && Reverse(r.value.0) == PassedAll(refMode, vs) {
      ReverseTwice(r.value.0);
      ReadAllDetermines(refMode, us, Reverse(ts), data, 0);
      assert r.value.1 == |data| && data[0..|data|] == data;
    }
  }

  lemma {:induction false} ReverseSame<T>(xs: seq<T>, x: T)
    requires forall i :: 0 <= i < |xs| ==> xs[i] == x
    ensures Reverse(xs) == xs
  {
    if xs != [] {
      ReverseSame(xs[1..], x);
    }
  }

  /** Arguments of one fixed-size type come back in reverse, so they come back as passed exactly
      when the list is its own reverse. */
  lemma RightToLeftReverses(refMode: bool, vs: seq<Value>, size: nat)
    requires forall i :: 0 <= i < |vs| ==> HasType(vs[i], Trivial(size))
    ensures var got := ReadRightToLeft(refMode, seq(|vs|, _ => Trivial(size)), EncodeArgs(refMode, vs));
            && got == Some(Reverse(PassedAll(refMode, vs)))
            && (got == Some(PassedAll(refMode, vs)) <==> PassedAll(refMode, vs) == Reverse(PassedAll(refMode, vs)))
  {
    var ts := seq(|vs|, _ => Trivial(size));
    ReverseSame(ts, Trivial(size));
    ReadsBack(refMode, vs, ts);
  }
}
