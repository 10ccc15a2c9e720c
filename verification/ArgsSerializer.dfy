/** src/include/femtolog/logging/impl/args_serializer.h: the serializer object, which writes the
    header and the arguments through a moving position into its fixed buffer. */
module ArgsSerializers {
  import opened Bits
  import opened Ring
  import opened RingCopy
  import opened LittleEndian
  import opened ArgsCodec

  /** `memcpy(pos, ...); pos += ...`. */
  method Put(buffer: array<byte>, pos: nat, bytes: seq<byte>) returns (next: nat)
    requires pos + |bytes| <= buffer.Length
    modifies buffer
    ensures next == pos + |bytes| && buffer[..next] == old(buffer[..pos]) + bytes
  {
    Memcpy(buffer, pos, bytes);
    next := pos + |bytes|;
  }

  /** Two fields in a row; nothing is copied for an empty second one. */
  method PutBoth(buffer: array<byte>, pos: nat, x: seq<byte>, y: seq<byte>) returns (next: nat)
    requires pos + |x + y| <= buffer.Length
    modifies buffer
    ensures next == pos + |x + y| && buffer[..next] == old(buffer[..pos]) + (x + y)
  {
    ghost var was := buffer[..pos];
    next := Put(buffer, pos, x);
    if |y| > 0 {
      next := Put(buffer, next, y);
    }
    assert (was + x) + y == was + (x + y);
  }

  /** `write_arg`: store one argument at `pos` and return the position after it. */
  method WriteArg(refMode: bool, buffer: array<byte>, pos: nat, v: Value) returns (next: nat)
    requires pos + |EncodeArg(refMode, v)| <= buffer.Length
    modifies buffer
    ensures next == pos + |EncodeArg(refMode, v)|
    ensures buffer[..next] == old(buffer[..pos]) + EncodeArg(refMode, v)
  {
    match v {
      case Plain(bytes) => next := Put(buffer, pos, bytes);
      case Text(ptr, chars) =>
        if refMode {
          next := PutBoth(buffer, pos, ToBytes(ptr, 8), ToBytes(|chars|, 8));
        } else {
          next := PutBoth(buffer, pos, ToBytes(|chars|, 8), chars);
        }
    }
  }

  /** The writes of a whole argument list, one after the other. */
  method WriteArgs(refMode: bool, buffer: array<byte>, start: nat, vs: seq<Value>)
    requires start + |EncodeArgs(refMode, vs)| <= buffer.Length
    modifies buffer
    ensures buffer[..start + |EncodeArgs(refMode, vs)|] == old(buffer[..start]) + EncodeArgs(refMode, vs)
  {
    var pos := start;
    ghost var goal := buffer[..start] + EncodeArgs(refMode, vs);
    assert vs[0..] == vs;
    for i := 0 to |vs|
      invariant 0 <= pos && pos + |EncodeArgs(refMode, vs[i..])| == |goal| <= buffer.Length
      invariant buffer[..pos] + EncodeArgs(refMode, vs[i..]) == goal
    {
      ghost var rest := EncodeArgs(refMode, vs[i + 1..]);
      assert EncodeArgs(refMode, vs[i..]) == EncodeArg(refMode, vs[i]) + rest by {
        assert vs[i..][0] == vs[i] && vs[i..][1..] == vs[i + 1..];
      }
      assert buffer[..pos] + (EncodeArg(refMode, vs[i]) + rest) == (buffer[..pos] + EncodeArg(refMode, vs[i])) + rest;
      pos := WriteArg(refMode, buffer, pos, vs[i]);
    }
    assert buffer[..pos] + [] == buffer[..pos];
  }

  class ArgsSerializer {
    const buffer: array<byte>
    var size: nat

    constructor (capacity: nat)
      requires capacity >= HEADER_SIZE
      ensures fresh(buffer) && buffer.Length == capacity && size == 0
    {
      buffer := new byte[capacity](_ => 0);
      size := 0;
    }

    /** Value mode gives up, with size 0, when the planned size reaches the capacity; otherwise the
        buffer starts with the header and the encoded arguments and `size` is their length. */
    method Serialize(refMode: bool, header: seq<byte>, ts: seq<ArgType>, vs: seq<Value>)
      requires |header| == HEADER_SIZE && HaveTypes(vs, ts)
      requires HEADER_SIZE + FixedSizes(refMode, ts) <= buffer.Length
      modifies this`size, buffer
      ensures !refMode && PlannedSize(refMode, ts, vs) >= buffer.Length ==> size == 0
      ensures refMode || PlannedSize(refMode, ts, vs) < buffer.Length ==>
                size <= buffer.Length && buffer[..size] == header + EncodeArgs(refMode, vs)
    {
      PlannedSizeIsExact(refMode, ts, vs);
      var dynamicLength := 0;
      if !refMode {
        dynamicLength := DynamicLength(vs);
        if HEADER_SIZE + FixedSizes(refMode, ts) + dynamicLength >= buffer.Length {
          size := 0;
          return;
        }
      }
      Memcpy(buffer, 0, header);
      assert buffer[..HEADER_SIZE] == header;
      WriteArgs(refMode, buffer, HEADER_SIZE, vs);
      size := HEADER_SIZE + FixedSizes(refMode, ts) + dynamicLength;
    }
  }

  /** The `+=` over the string arguments. */
  method DynamicLength(vs: seq<Value>) returns (n: nat)
    ensures n == DynamicSizes(vs)
  {
    n := 0;
    for i := 0 to |vs|
      invariant n + DynamicSizes(vs[i..]) == DynamicSizes(vs)
    {
      assert vs[i..][1..] == vs[i + 1..];
      n := n + DynamicSize(vs[i]);
    }
  }
}
