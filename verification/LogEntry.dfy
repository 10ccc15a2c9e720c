/** src/include/femtolog/base/log_entry.h: the frame that travels through the queue, a 24-byte
    header with the payload length first, then the payload. */
module LogEntries {
  import opened Ring
  import opened RingCopy
  import opened LittleEndian

  /** sizeof(LogEntry): the five fields and seven bytes of padding after the level. */
  const ENTRY_SIZE: nat := 24

  const MAX_PAYLOAD_SIZE: nat := 1000

  /** kLiteralLogStringId. */
  const LITERAL_ID: nat := 0xFFFF

  datatype Header = Header(payloadLen: nat, formatId: nat, threadId: nat, timestamp: nat, level: nat)

  predicate HeaderFits(h: Header) {
    && h.payloadLen < 0x1_0000 && h.formatId < 0x1_0000 && h.threadId < 0x1_0000_0000
    && h.timestamp < 0x1_0000_0000_0000_0000 && h.level < 0x100
  }

  function EncodeHeader(h: Header, padding: seq<byte>): (bs: seq<byte>)
    ensures |bs| == 17 + |padding|
  {
    ToBytes(h.payloadLen, 2) + ToBytes(h.formatId, 2) + ToBytes(h.threadId, 4)
    + ToBytes(h.timestamp, 8) + ToBytes(h.level, 1) + padding
  }

  function DecodeHeader(bs: seq<byte>): Header
    requires |bs| >= ENTRY_SIZE
  {
    Header(FromBytes(bs[..2]), FromBytes(bs[2..4]), FromBytes(bs[4..8]), FromBytes(bs[8..16]), FromBytes(bs[16..17]))
  }

  lemma HeaderRoundTrip(h: Header, padding: seq<byte>, payload: seq<byte>)
    requires HeaderFits(h) && |padding| == 7
    ensures DecodeHeader(EncodeHeader(h, padding) + payload) == h
  {
    var bs := EncodeHeader(h, padding) + payload;
    Widths();
    assert bs[..2] == ToBytes(h.payloadLen, 2);
    assert bs[2..4] == ToBytes(h.formatId, 2);
    assert bs[4..8] == ToBytes(h.threadId, 4);
    assert bs[8..16] == ToBytes(h.timestamp, 8);
    assert bs[16..17] == ToBytes(h.level, 1);
    RoundTrip(h.payloadLen, 2);
    RoundTrip(h.formatId, 2);
    RoundTrip(h.threadId, 4);
    RoundTrip(h.timestamp, 8);
    RoundTrip(h.level, 1);
  }

  /** The offsets of the fields, as the struct is laid out. */
  lemma HeaderLayout(h: Header, padding: seq<byte>)
    requires |padding| == 7
    ensures var bs := EncodeHeader(h, padding);
            && |bs| == 24
            && bs[0..2] == ToBytes(h.payloadLen, 2) && bs[2..4] == ToBytes(h.formatId, 2)
            && bs[4..8] == ToBytes(h.threadId, 4) && bs[8..16] == ToBytes(h.timestamp, 8)
            && bs[16..17] == ToBytes(h.level, 1)
  {
  }

  /** `LogEntry::create`'s frame; `static_cast<uint16_t>` keeps the low 16 bits of the length. */
  function Frame(threadId: nat, formatId: nat, level: nat, timestamp: nat, padding: seq<byte>,
        payload: seq<byte>): seq<byte> {
    EncodeHeader(Header(|payload| % 0x1_0000, formatId, threadId, timestamp, level), padding) + payload
  }

  /** `total_size()` as the worker computes it from the two bytes it peeks. */
  function TotalSize(lengthField: seq<byte>): nat {
    ENTRY_SIZE + FromBytes(lengthField)
  }

  /** A byte string that is one whole entry: its length field gives its own length. */
  predicate IsFrame(bs: seq<byte>) {
    |bs| >= ENTRY_SIZE && |bs| == TotalSize(bs[..2])
  }

  lemma FrameIsFrame(threadId: nat, formatId: nat, level: nat, timestamp: nat, padding: seq<byte>, payload: seq<byte>)
    requires |payload| < 0x1_0000 && |padding| == 7
    ensures IsFrame(Frame(threadId, formatId, level, timestamp, padding, payload))
    ensures |Frame(threadId, formatId, level, timestamp, padding, payload)| == ENTRY_SIZE + |payload|
  {
    var f := Frame(threadId, formatId, level, timestamp, padding, payload);
    Widths();
    assert f[..2] == ToBytes(|payload|, 2);
    RoundTrip(|payload|, 2);
  }

  /** Writes the fields and the payload in place; the padding keeps whatever was there. */
  method Create(buffer: array<byte>, threadId: nat, formatId: nat, level: nat, timestamp: nat, payload: seq<byte>)
    requires ENTRY_SIZE + |payload| <= buffer.Length
    modifies buffer
    ensures buffer[..ENTRY_SIZE + |payload|]
         == Frame(threadId, formatId, level, timestamp, old(buffer[17..ENTRY_SIZE]), payload)
    ensures buffer[ENTRY_SIZE + |payload|..] == old(buffer[ENTRY_SIZE + |payload|..])
  {
    Memcpy(buffer, 8, ToBytes(timestamp, 8));
    Memcpy(buffer, 4, ToBytes(threadId, 4));
    Memcpy(buffer, 2, ToBytes(formatId, 2));
    Memcpy(buffer, 0, ToBytes(|payload| % 0x1_0000, 2));
    Memcpy(buffer, 16, ToBytes(level, 1));
    Memcpy(buffer, ENTRY_SIZE, payload);
    assert buffer[..ENTRY_SIZE] == EncodeHeader(
      Header(|payload| % 0x1_0000, formatId, threadId, timestamp, level), old(buffer[17..ENTRY_SIZE]));
    assert buffer[ENTRY_SIZE..ENTRY_SIZE + |payload|] == payload;
  }

  /** `copy_raw_payload`: at most `dstSize` bytes of the payload. */
  method CopyRawPayload(entry: seq<byte>, dst: array<byte>, dstSize: nat) returns (n: nat)
    requires IsFrame(entry) && dstSize <= dst.Length
    modifies dst
    ensures n == if dstSize < |entry| - ENTRY_SIZE then dstSize else |entry| - ENTRY_SIZE
    ensures dst[..n] == entry[ENTRY_SIZE..ENTRY_SIZE + n] && dst[n..] == old(dst[n..])
  {
    var len := FromBytes(entry[..2]);
    n := if dstSize < len then dstSize else len;
    Memcpy(dst, 0, entry[ENTRY_SIZE..ENTRY_SIZE + n]);
  }
}
