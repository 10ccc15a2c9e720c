/** src/include/femtolog/logging/impl/args_serializer.h and args_deserializer.h: how argument
    lists become bytes and how the worker reads them back. */
module ArgsCodec {
  import opened Bits
  import opened Ring
  import opened LittleEndian

  datatype Option<+T> = None | Some(value: T)

  /** The two kinds of argument types the serializer accepts. */
  datatype ArgType = StringLike | Trivial(size: nat)

  /** An argument as passed: a string view (address and characters) or an object representation. */
  datatype Value = Text(ptr: nat, chars: seq<byte>) | Plain(bytes: seq<byte>)

  /** An argument as read back: an owned string, a view, or an object representation. */
  datatype Arg = Owned(chars: seq<byte>) | View(ptr: nat, len: nat) | Scalar(bytes: seq<byte>)

  predicate HasType(v: Value, t: ArgType) {
    match v
    case Text(ptr, chars) => t.StringLike? && ptr < WORD && |chars| < WORD
    case Plain(bytes) => t == Trivial(|bytes|)
  }

  predicate HaveTypes(vs: seq<Value>, ts: seq<ArgType>) {
    |vs| == |ts| && forall i :: 0 <= i < |vs| ==> HasType(vs[i], ts[i])
  }

  /** What reading an argument back should give. */
  function Passed(refMode: bool, v: Value): Arg {
    match v
    case Text(ptr, chars) => if refMode then View(ptr, |chars|) else Owned(chars)
    case Plain(bytes) => Scalar(bytes)
  }

  function PassedAll(refMode: bool, vs: seq<Value>): (args: seq<Arg>)
    ensures |args| == |vs|
  {
    if vs == [] then [] else [Passed(refMode, vs[0])] + PassedAll(refMode, vs[1..])
  }

  // -------------------------------------------------------------------------- writing

  /** The bytes that `write_arg` stores. */
  function EncodeArg(refMode: bool, v: Value): seq<byte> {
    match v
    case Text(ptr, chars) =>
      if refMode then ToBytes(ptr, 8) + ToBytes(|chars|, 8) else ToBytes(|chars|, 8) + chars
    case Plain(bytes) => bytes
  }

  function EncodeArgs(refMode: bool, vs: seq<Value>): seq<byte> {
    if vs == [] then [] else EncodeArg(refMode, vs[0]) + EncodeArgs(refMode, vs[1..])
  }

  /** Where the parts of an argument stand: the address before the length, the length before the
      characters, each in eight bytes. */
  lemma ArgLayout(refMode: bool, v: Value)
    ensures var bs := EncodeArg(refMode, v);
            match v
            case Plain(bytes) => bs == bytes
            case Text(ptr, chars) =>
              if refMode then |bs| == 16 && bs[..8] == ToBytes(ptr, 8) && bs[8..] == ToBytes(|chars|, 8)
              else |bs| == 8 + |chars| && bs[..8] == ToBytes(|chars|, 8) && bs[8..] == chars
  {
  }

  const HEADER_SIZE: nat := 16

  function FixedSize(refMode: bool, t: ArgType): nat {
    match t
    case StringLike => if refMode then 16 else 0
    case Trivial(size) => size
  }

  /** `calculate_min_serialized_size`, without the header. */
  function FixedSizes(refMode: bool, ts: seq<ArgType>): nat {
    if ts == [] then 0 else FixedSize(refMode, ts[0]) + FixedSizes(refMode, ts[1..])
  }

  /** `add_dynamic_string_length`. */
  function DynamicSize(v: Value): nat {
    if v.Text? then 8 + |v.chars| else 0
  }

  function DynamicSizes(vs: seq<Value>): nat {
    if vs == [] then 0 else DynamicSize(vs[0]) + DynamicSizes(vs[1..])
  }

  /** The size computed before anything is written. */
  function PlannedSize(refMode: bool, ts: seq<ArgType>, vs: seq<Value>): nat {
    HEADER_SIZE + FixedSizes(refMode, ts) + if refMode then 0 else DynamicSizes(vs)
  }

  /** The precomputed size is exactly the number of bytes written. */
  lemma {:induction false} PlannedSizeIsExact(refMode: bool, ts: seq<ArgType>, vs: seq<Value>)
    requires HaveTypes(vs, ts)
    ensures PlannedSize(refMode, ts, vs) == HEADER_SIZE + |EncodeArgs(refMode, vs)|
  {
    if vs != [] {
      PlannedSizeIsExact(refMode, ts[1..], vs[1..]);
    }
  }

  /** What an argument takes in an entry: an address and a length, a length and the characters, or
      the object itself. */
  function ArgBytes(refMode: bool, v: Value): nat {
    match v
    case Text(_, chars) => if refMode then 8 + 8 else 8 + |chars|
    case Plain(bytes) => |bytes|
  }

  function ArgsBytes(refMode: bool, vs: seq<Value>): nat {
    if vs == [] then 0 else ArgBytes(refMode, vs[0]) + ArgsBytes(refMode, vs[1..])
  }

  lemma {:induction false} EncodedSize(refMode: bool, vs: seq<Value>)
    ensures |EncodeArgs(refMode, vs)| == ArgsBytes(refMode, vs)
  {
    if vs != [] {
      EncodedSize(refMode, vs[1..]);
    }
  }

  // -------------------------------------------------------------------------- reading

  /** `n` bytes at an offset; None stands for a read outside the data. */
  function Bytes(data: seq<byte>, offset: nat, n: nat): Option<seq<byte>> {
    if offset + n <= |data| then Some(data[offset..offset + n]) else None
  }

  /** `read_arg`: the argument and the offset after it. */
  function ReadArg(refMode: bool, t: ArgType, data: seq<byte>, offset: nat): Option<(Arg, nat)> {
    match t
    case Trivial(size) => (
      match Bytes(data, offset, size)
      case Some(bs) => Some((Scalar(bs), offset + size))
      case None => None)
    case StringLike =>
      if refMode then (
        match (Bytes(data, offset, 8), Bytes(data, offset + 8, 8))
        case (Some(p), Some(n)) => Some((View(FromBytes(p), FromBytes(n)), offset + 8 + 8))
        case _ => None)
      else (
        match Bytes(data, offset, 8)
        case Some(n) => (
          var len := FromBytes(n);
          match Bytes(data, offset + 8, len)
          case Some(chars) => Some((Owned(chars), offset + 8 + len))
          case None => None)
        case None => None)
  }

  function Prepend(args: seq<Arg>, r: Option<(seq<Arg>, nat)>): Option<(seq<Arg>, nat)> {
    if r.None? then None else Some((args + r.value.0, r.value.1))
  }

  /** The general reader: one argument after the other, from left to right. */
  function ReadAll(refMode: bool, ts: seq<ArgType>, data: seq<byte>, offset: nat): Option<(seq<Arg>, nat)>
    decreases |ts|
  {
    if ts == [] then Some(([], offset))
    else
      match ReadArg(refMode, ts[0], data, offset)
      case None => None
      case Some((arg, next)) =>
        Prepend([arg], ReadAll(refMode, ts[1..], data, next))
  }

  lemma BytesAt(before: seq<byte>, x: seq<byte>, after: seq<byte>)
    ensures Bytes(before + x + after, |before|, |x|) == Some(x)
  {
    assert (before + x + after)[|before|..|before| + |x|] == x;
  }

  /** Two fields in a row are found one after the other. */
  lemma TwoFieldsAt(before: seq<byte>, x: seq<byte>, y: seq<byte>, after: seq<byte>)
    ensures Bytes(before + (x + y) + after, |before|, |x|) == Some(x)
    ensures Bytes(before + (x + y) + after, |before| + |x|, |y|) == Some(y)
  {
    var data := before + (x + y) + after;
    assert data == before + x + (y + after);
    BytesAt(before, x, y + after);
    assert data == (before + x) + y + after;
    BytesAt(before + x, y, after);
  }

  lemma WordRoundTrip(n: nat)
    requires n < WORD
    ensures FromBytes(ToBytes(n, 8)) == n
  {
    Widths();
    RoundTrip(n, 8);
  }

  lemma ReadWrittenArg(refMode: bool, v: Value, t: ArgType, before: seq<byte>, after: seq<byte>)
    requires HasType(v, t)
    ensures ReadArg(refMode, t, before + EncodeArg(refMode, v) + after, |before|)
         == Some((Passed(refMode, v), |before| + |EncodeArg(refMode, v)|))
  {
    match v {
      case Plain(bytes) => BytesAt(before, bytes, after);
      case Text(ptr, chars) =>
        WordRoundTrip(|chars|);
        if refMode {
          WordRoundTrip(ptr);
          TwoFieldsAt(before, ToBytes(ptr, 8), ToBytes(|chars|, 8), after);
        } else {
          TwoFieldsAt(before, ToBytes(|chars|, 8), chars, after);
        }
    }
  }

  /** Reading back what was written returns the list that was passed and stops exactly where the
      writer stopped, whatever surrounds it. */
  lemma {:induction false} ReadWritten(refMode: bool, vs: seq<Value>, ts: seq<ArgType>, before: seq<byte>,
        after: seq<byte>)
    requires HaveTypes(vs, ts)
    ensures ReadAll(refMode, ts, before + EncodeArgs(refMode, vs) + after, |before|)
         == Some((PassedAll(refMode, vs), |before| + |EncodeArgs(refMode, vs)|))
    decreases |vs|
  {
    var data := before + EncodeArgs(refMode, vs) + after;
    if vs != [] {
      var first, rest := EncodeArg(refMode, vs[0]), EncodeArgs(refMode, vs[1..]);
      assert data == before + first + (rest + after);
      ReadWrittenArg(refMode, vs[0], ts[0], before, rest + after);
      assert data == (before + first) + rest + after;
      ReadWritten(refMode, vs[1..], ts[1..], before + first, after);
    }
  }

  // ------------------------------------------------------------- the unrolled readers

  /** `format_directly` with one to four arguments: each read starts at the previous end. */
  function ReadUnrolled(refMode: bool, ts: seq<ArgType>, data: seq<byte>): Option<seq<Arg>>
    requires 1 <= |ts| <= 4
  {
    var a0 := ReadArg(refMode, ts[0], data, 0);
    if a0.None? then None
    else if |ts| == 1 then Some([a0.value.0])
    else
      var a1 := ReadArg(refMode, ts[1], data, a0.value.1);
      if a1.None? then None
      else if |ts| == 2 then Some([a0.value.0, a1.value.0])
      else
        var a2 := ReadArg(refMode, ts[2], data, a1.value.1);
        if a2.None? then None
        else if |ts| == 3 then Some([a0.value.0, a1.value.0, a2.value.0])
        else
          var a3 := ReadArg(refMode, ts[3], data, a2.value.1);
          if a3.None? then None
          else Some([a0.value.0, a1.value.0, a2.value.0, a3.value.0])
  }

  function ArgsOf(r: Option<(seq<Arg>, nat)>): Option<seq<Arg>> {
    if r.None? then None else Some(r.value.0)
  }

  lemma UnrolledAgrees(refMode: bool, ts: seq<ArgType>, data: seq<byte>)
    requires 1 <= |ts| <= 4
    ensures ReadUnrolled(refMode, ts, data) == ArgsOf(ReadAll(refMode, ts, data, 0))
  {
    ReadStart(refMode, ts, data);
    var a0 := ReadNext(refMode, ts, data, [], 0, 0);
    if a0.Some? {
      var (x0, o0) := a0.value;
      assert [] + [x0] == [x0];
      if |ts| == 1 {
        ReadEnd(refMode, ts, data, [x0], o0);
      } else {
        var a1 := ReadNext(refMode, ts, data, [x0], 1, o0);
        if a1.Some? {
          var (x1, o1) := a1.value;
          assert [x0] + [x1] == [x0, x1];
          if |ts| == 2 {
            ReadEnd(refMode, ts, data, [x0, x1], o1);
          } else {
            UnrolledTail(refMode, ts, data, x0, x1, o1);
          }
        }
      }
    }
  }

  lemma UnrolledTail(refMode: bool, ts: seq<ArgType>, data: seq<byte>, x0: Arg, x1: Arg, o1: nat)
    requires 3 <= |ts| <= 4
    requires ReadAll(refMode, ts, data, 0) == Prepend([x0, x1], ReadAll(refMode, ts[2..], data, o1))
    ensures ArgsOf(ReadAll(refMode, ts, data, 0)) ==
      var a2 := ReadArg(refMode, ts[2], data, o1);
      if a2.None? then None
      else if |ts| == 3 then Some([x0, x1, a2.value.0])
      else
        var a3 := ReadArg(refMode, ts[3], data, a2.value.1);
        if a3.None? then None else Some([x0, x1, a2.value.0, a3.value.0])
  {
    var a2 := ReadNext(refMode, ts, data, [x0, x1], 2, o1);
    if a2.Some? {
      var (x2, o2) := a2.value;
      assert [x0, x1] + [x2] == [x0, x1, x2];
      if |ts| == 3 {
        ReadEnd(refMode, ts, data, [x0, x1, x2], o2);
      } else {
        var a3 := ReadNext(refMode, ts, data, [x0, x1, x2], 3, o2);
        if a3.Some? {
          assert [x0, x1, x2] + [a3.value.0] == [x0, x1, x2, a3.value.0];
          ReadEnd(refMode, ts, data, [x0, x1, x2, a3.value.0], a3.value.1);
        }
      }
    }
  }

  lemma ReadStart(refMode: bool, ts: seq<ArgType>, data: seq<byte>)
    ensures ReadAll(refMode, ts, data, 0) == Prepend([], ReadAll(refMode, ts[0..], data, 0))
  {
    assert ts[0..] == ts;
    var r := ReadAll(refMode, ts, data, 0);
    assert r.Some? ==> [] + r.value.0 == r.value.0;
  }

  /** The general reader, after `k` arguments, reads the next one. */
  lemma ReadNext(refMode: bool, ts: seq<ArgType>, data: seq<byte>, done: seq<Arg>, k: nat, offset: nat)
    returns (a: Option<(Arg, nat)>)
    requires k < |ts|
    requires ReadAll(refMode, ts, data, 0) == Prepend(done, ReadAll(refMode, ts[k..], data, offset))
    ensures a == ReadArg(refMode, ts[k], data, offset)
    ensures a.None? ==> ReadAll(refMode, ts, data, 0) == None
    ensures a.Some? ==>
      ReadAll(refMode, ts, data, 0) == Prepend(done + [a.value.0], ReadAll(refMode, ts[k + 1..], data, a.value.1))
  {
    a := ReadArg(refMode, ts[k], data, offset);
    assert ts[k..][0] == ts[k] && ts[k..][1..] == ts[k + 1..];
    if a.Some? {
      var r := ReadAll(refMode, ts[k + 1..], data, a.value.1);
      assert r.Some? ==> done + ([a.value.0] + r.value.0) == (done + [a.value.0]) + r.value.0;
    }
  }

  lemma ReadEnd(refMode: bool, ts: seq<ArgType>, data: seq<byte>, done: seq<Arg>, offset: nat)
    requires ReadAll(refMode, ts, data, 0) == Prepend(done, ReadAll(refMode, ts[|ts|..], data, offset))
    ensures ReadAll(refMode, ts, data, 0) == Some((done, offset))
  {
    assert ts[|ts|..] == [] && done + [] == done;
  }

  /** `deserialize_and_format_impl`: the fast path for one small trivially copyable argument, the
      unrolled readers, and the general reader, as the argument list selects them. */
  function Deserialize(refMode: bool, ts: seq<ArgType>, data: seq<byte>): Option<seq<Arg>> {
    if |ts| == 1 && ts[0].Trivial? && ts[0].size <= 8 then
      match Bytes(data, 0, ts[0].size)
      case Some(bs) => Some([Scalar(bs)])
      case None => None
    else if 1 <= |ts| <= 4 then ReadUnrolled(refMode, ts, data)
    else ArgsOf(ReadAll(refMode, ts, data, 0))
  }

  /** Every reader the dispatch can choose agrees with the general one, on any data. */
  lemma DeserializeIsReadAll(refMode: bool, ts: seq<ArgType>, data: seq<byte>)
    ensures Deserialize(refMode, ts, data) == ArgsOf(ReadAll(refMode, ts, data, 0))
  {
    if 1 <= |ts| <= 4 {
      UnrolledAgrees(refMode, ts, data);
    }
  }

  /** What each argument is read back as: an address and a length, a string of its own, or the object. */
  lemma {:induction false} PassedAt(refMode: bool, vs: seq<Value>, i: nat)
    requires i < |vs|
    ensures PassedAll(refMode, vs)[i] ==
      match vs[i]
      case Text(ptr, chars) => if refMode then View(ptr, |chars|) else Owned(chars)
      case Plain(bytes) => Scalar(bytes)
  {
    if i > 0 {
      PassedAt(refMode, vs[1..], i - 1);
    }
  }

  lemma DeserializeRoundTrip(refMode: bool, vs: seq<Value>, ts: seq<ArgType>)
    requires HaveTypes(vs, ts)
    ensures Deserialize(refMode, ts, EncodeArgs(refMode, vs)) == Some(PassedAll(refMode, vs))
  {
    ReadWritten(refMode, vs, ts, [], []);
    assert [] + EncodeArgs(refMode, vs) + [] == EncodeArgs(refMode, vs);
    DeserializeIsReadAll(refMode, ts, EncodeArgs(refMode, vs));
  }

  /** The general reader as the code runs it: a captured offset advanced argument by argument. */
  method ReadLoop(refMode: bool, ts: seq<ArgType>, data: seq<byte>) returns (args: Option<seq<Arg>>)
    ensures args == ArgsOf(ReadAll(refMode, ts, data, 0))
  {
    var offset, done := 0, [];
    ReadStart(refMode, ts, data);
    for i := 0 to |ts|
      invariant ReadAll(refMode, ts, data, 0) == Prepend(done, ReadAll(refMode, ts[i..], data, offset))
    {
      ghost var a := ReadNext(refMode, ts, data, done, i, offset);
      match ReadArg(refMode, ts[i], data, offset) {
        case None => return None;
        case Some((arg, next)) => done, offset := done + [arg], next;
      }
    }
    ReadEnd(refMode, ts, data, done, offset);
    return Some(done);
  }
}
