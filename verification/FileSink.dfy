/** src/include/femtolog/sinks/file_sink.h: a write-combining buffer in front of a file descriptor. */
module FileSinks {
  import opened Ring
  import opened RingCopy
  import opened Chunks

  const CAPACITY: nat := 4096
  const SEPARATOR: seq<byte> := [58, 32]

  function Chars(s: string): (bs: seq<byte>)
    requires forall i :: 0 <= i < |s| ==> s[i] < 128 as char
    ensures |bs| == |s|
  {
    seq(|s|, i requires 0 <= i < |s| => s[i] as int as byte)
  }

  /** log_level_to_lower_str. */
  function LevelName(level: nat): seq<byte> {
    match level
    case 0 => Chars("raw")
    case 1 => Chars("fatal")
    case 2 => Chars("error")
    case 3 => Chars("warn")
    case 4 => Chars("info")
    case 5 => Chars("debug")
    case 6 => Chars("trace")
    case _ => Chars("unknown")
  }

  /** One call of `on_log`, with the formatted timestamp. */
  datatype LogRecord = LogRecord(timestamp: seq<byte>, level: nat, content: seq<byte>)

  function Line(r: LogRecord): seq<byte> {
    r.timestamp + LevelName(r.level) + SEPARATOR + r.content
  }

  /** The names as bytes. */
  lemma LevelNames(level: nat)
    ensures LevelName(0) == [114, 97, 119] && LevelName(1) == [102, 97, 116, 97, 108]
    ensures LevelName(2) == [101, 114, 114, 111, 114] && LevelName(3) == [119, 97, 114, 110]
    ensures LevelName(4) == [105, 110, 102, 111] && LevelName(5) == [100, 101, 98, 117, 103]
    ensures LevelName(6) == [116, 114, 97, 99, 101]
    ensures level > 6 ==> LevelName(level) == [117, 110, 107, 110, 111, 119, 110]
  {
  }

  /** A record is its timestamp, its level, a colon and a space, and its content. */
  lemma LineParts(r: LogRecord)
    ensures var line, t := Line(r), |r.timestamp|;
            var n := t + |LevelName(r.level)|;
            && |line| == n + 2 + |r.content|
            && line[..t] == r.timestamp && line[t..n] == LevelName(r.level)
            && line[n] == 58 && line[n + 1] == 32 && line[n + 2..] == r.content
  {
    var line, t := Line(r), |r.timestamp|;
    var n := t + |LevelName(r.level)|;
    assert line[..t] == r.timestamp;
    assert line[t..n] == LevelName(r.level);
    assert line[n] == SEPARATOR[0] && line[n + 1] == SEPARATOR[1];
    assert line[n + 2..] == r.content;
  }

  // ------------------------------------------------------------------- specification

  /** Whether the descriptor is open, the bytes written to it and the bytes still buffered. */
  datatype Sink = Sink(open: bool, file: seq<byte>, buffered: seq<byte>) {
    /** Everything the sink holds, in log order. */
    function Stream(): seq<byte> { file + buffered }
  }

  function Flushed(s: Sink): Sink {
    if s.open then Sink(true, s.file + s.buffered, []) else s
  }

  function Logged(s: Sink, line: seq<byte>): Sink {
    var t := if |s.buffered| + |line| > CAPACITY then Flushed(s) else s;
    if |line| <= CAPACITY then t.(buffered := t.buffered + line)
    else if t.open then t.(file := t.file + line)
    else t
  }

  function LoggedAll(s: Sink, lines: seq<seq<byte>>): Sink
    decreases |lines|
  {
    if lines == [] then s else LoggedAll(Logged(s, lines[0]), lines[1..])
  }

  /** The copies of one call stay within the buffer. */
  predicate Fits(s: Sink, line: seq<byte>) {
    s.open || |line| > CAPACITY || |s.buffered| + |line| <= CAPACITY
  }

  lemma LoggedFits(s: Sink, line: seq<byte>)
    requires |s.buffered| <= CAPACITY
    ensures |Logged(s, line).buffered| <= CAPACITY <==> Fits(s, line)
  {
  }

  /** A record reaches the file, or pushes others there, exactly when it would overfill 4096 buffered
      bytes; then the buffered bytes go first, and a larger record goes after them directly. */
  lemma WritesOnlyWhenFull(s: Sink, line: seq<byte>)
    requires s.open && |s.buffered| <= 4096
    ensures var t := Logged(s, line);
            && (t == Sink(true, s.file, s.buffered + line) <==> |s.buffered| + |line| <= 4096)
            && (|s.buffered| + |line| > 4096 ==>
                  t == if |line| <= 4096 then Sink(true, s.file + s.buffered, line)
                       else Sink(true, s.file + s.buffered + line, []))
  {
    assert [] + line == line;
    if |s.buffered| + |line| > 4096 {
      assert |Logged(s, line).file| + |Logged(s, line).buffered| == |s.file| + |s.buffered| + |line|;
    }
  }

  /** With an open descriptor nothing is lost or reordered by any mix of small and oversized
      records, the cursor stays in the buffer, and a final flush writes everything. */
  lemma {:induction false} Conservation(s: Sink, lines: seq<seq<byte>>)
    requires s.open && |s.buffered| <= CAPACITY
    ensures LoggedAll(s, lines).open && |LoggedAll(s, lines).buffered| <= CAPACITY
    ensures LoggedAll(s, lines).Stream() == s.Stream() + Flatten(lines)
    ensures Flushed(LoggedAll(s, lines)) == Sink(true, s.Stream() + Flatten(lines), [])
    decreases |lines|
  {
    if lines == [] {
      assert s.Stream() + [] == s.Stream();
    } else {
      LoggedStream(s, lines[0]);
      Conservation(Logged(s, lines[0]), lines[1..]);
      assert (s.Stream() + lines[0]) + Flatten(lines[1..]) == s.Stream() + (lines[0] + Flatten(lines[1..]));
    }
  }

  lemma LoggedStream(s: Sink, line: seq<byte>)
    requires s.open && |s.buffered| <= CAPACITY
    ensures var t := Logged(s, line); t.open && |t.buffered| <= CAPACITY && t.Stream() == s.Stream() + line
  {
    var t := Logged(s, line);
    assert s.file + s.buffered + [] == s.file + s.buffered;
    assert s.file + (s.buffered + line) == s.file + s.buffered + line;
    assert (s.file + s.buffered + line) + [] == s.file + s.buffered + line;
    assert [] + line == line;
  }

  /** The file always ends at a record boundary: it holds the first `k` records whole and the buffer
      holds the others. */
  ghost predicate Boundary(s: Sink, lines: seq<seq<byte>>, k: nat) {
    k <= |lines| && s.file == Flatten(lines[..k]) && s.buffered == Flatten(lines[k..])
  }

  lemma BoundaryStep(s: Sink, lines: seq<seq<byte>>, k: nat, line: seq<byte>) returns (m: nat)
    requires s.open && Boundary(s, lines, k) && |s.buffered| <= CAPACITY
    ensures Boundary(Logged(s, line), lines + [line], m)
  {
    var all := lines + [line];
    var n := |lines|;
    FlattenConcat(lines[..k], lines[k..]);
    FlattenConcat(lines[k..], [line]);
    FlattenConcat(lines, [line]);
    assert Flatten([line]) == line by { assert [line][1..] == []; assert line + [] == line; }
    assert lines[..k] + lines[k..] == lines;
    assert all[..k] == lines[..k] && all[k..] == lines[k..] + [line];
    assert all[..n] == lines && all[n..] == [line] && all[..n + 1] == all && all[n + 1..] == [];
    m := if |line| > CAPACITY then n + 1 else if |s.buffered| + |line| > CAPACITY then n else k;
    assert [] + line == line;
    if |line| > CAPACITY && |s.buffered| + |line| <= CAPACITY {
      assert false;
    }
  }

  lemma {:induction false} WholeRecords(s: Sink, before: seq<seq<byte>>, k: nat, lines: seq<seq<byte>>) returns (m: nat)
    requires s.open && Boundary(s, before, k) && |s.buffered| <= CAPACITY
    ensures Boundary(LoggedAll(s, lines), before + lines, m)
    decreases |lines|
  {
    if lines == [] {
      assert before + lines == before;
      m := k;
    } else {
      var j := BoundaryStep(s, before, k, lines[0]);
      LoggedStream(s, lines[0]);
      m := WholeRecords(Logged(s, lines[0]), before + [lines[0]], j, lines[1..]);
      assert (before + [lines[0]]) + lines[1..] == before + lines;
    }
  }

  // ------------------------------------------------------------- without a descriptor

  /** The records that are buffered rather than written directly. */
  function Small(lines: seq<seq<byte>>): seq<seq<byte>> {
    if lines == [] then []
    else (if |lines[0]| <= CAPACITY then [lines[0]] else []) + Small(lines[1..])
  }

  predicate AllFit(s: Sink, lines: seq<seq<byte>>)
    decreases |lines|
  {
    lines == [] || (Fits(s, lines[0]) && AllFit(Logged(s, lines[0]), lines[1..]))
  }

  /** With a closed descriptor nothing is ever written, and the copies stay within the buffer exactly
      as long as the small records fit into it together. */
  lemma {:induction false} ClosedFits(s: Sink, lines: seq<seq<byte>>)
    requires !s.open && |s.buffered| <= CAPACITY
    ensures AllFit(s, lines) <==> |s.buffered| + |Flatten(Small(lines))| <= CAPACITY
    ensures LoggedAll(s, lines).file == s.file
    decreases |lines|
  {
    if lines != [] {
      var t := Logged(s, lines[0]);
      var rest := Small(lines[1..]);
      SmallStep(lines);
      if |t.buffered| <= CAPACITY {
        ClosedFits(t, lines[1..]);
      } else {
        ClosedFile(t, lines[1..]);
      }
    }
  }

  lemma SmallStep(lines: seq<seq<byte>>)
    requires lines != []
    ensures |Flatten(Small(lines))|
      == (if |lines[0]| <= CAPACITY then |lines[0]| else 0) + |Flatten(Small(lines[1..]))|
  {
    var rest := Small(lines[1..]);
    if |lines[0]| <= CAPACITY {
      assert ([lines[0]] + rest)[1..] == rest;
    } else {
      assert [] + rest == rest;
    }
  }

  lemma {:induction false} ClosedFile(s: Sink, lines: seq<seq<byte>>)
    requires !s.open
    ensures LoggedAll(s, lines).file == s.file
    decreases |lines|
  {
    if lines != [] {
      ClosedFile(Logged(s, lines[0]), lines[1..]);
    }
  }

  // ----------------------------------------------------------------------- the object

  class FileSink {
    const buffer: array<byte>
    var cursor: nat
    var fdOpen: bool
    // The bytes the descriptor has received
    var file: seq<byte>

    ghost predicate Valid()
      reads this
    {
      buffer.Length == CAPACITY && cursor <= CAPACITY
    }

    ghost function Contents(): Sink
      requires Valid()
      reads this, buffer
    {
      Sink(fdOpen, file, buffer[..cursor])
    }

    constructor (descriptor: bool)
      ensures Valid() && fresh(buffer) && Contents() == Sink(descriptor, [], [])
    {
      buffer := new byte[CAPACITY](_ => 0);
      cursor, fdOpen, file := 0, descriptor, [];
    }

    method Flush()
      requires Valid()
      modifies this`cursor, this`file
      ensures Valid() && Contents() == Flushed(old(Contents()))
    {
      if cursor == 0 || !fdOpen {
        assert file + [] == file;
        return;
      }
      file := file + buffer[..cursor];
      cursor := 0;
    }

    /** `memcpy(buffer + cursor_, ...); cursor_ += ...`. */
    method Append(bytes: seq<byte>)
      requires Valid() && cursor + |bytes| <= CAPACITY
      modifies buffer, this`cursor
      ensures Valid() && cursor == old(cursor) + |bytes|
      ensures buffer[..cursor] == old(buffer[..cursor]) + bytes
    {
      Memcpy(buffer, cursor, bytes);
      cursor := cursor + |bytes|;
    }

    method WriteDirect(timestamp: seq<byte>, level: seq<byte>, content: seq<byte>)
      requires Valid()
      modifies this`file
      ensures file == if fdOpen then old(file) + (timestamp + level + SEPARATOR + content) else old(file)
    {
      if !fdOpen { return; }
      file := file + (timestamp + level + SEPARATOR + content);
    }

    /** The four copies of a buffered record. */
    method AppendAll(timestamp: seq<byte>, level: seq<byte>, content: seq<byte>)
      requires Valid() && cursor + |timestamp + level + SEPARATOR + content| <= CAPACITY
      modifies buffer, this`cursor
      ensures Valid() && buffer[..cursor] == old(buffer[..cursor]) + (timestamp + level + SEPARATOR + content)
    {
      ghost var was := buffer[..cursor];
      Append(timestamp);
      Append(level);
      Append(SEPARATOR);
      Append(content);
      assert was + (timestamp + level + SEPARATOR + content) == was + timestamp + level + SEPARATOR + content;
    }

    method OnLog(r: LogRecord)
      requires Valid() && Fits(Contents(), Line(r))
      modifies this`cursor, this`file, buffer
      ensures Valid() && Contents() == Logged(old(Contents()), Line(r))
    {
      var level := LevelName(r.level);
      var total := |r.timestamp| + |level| + |SEPARATOR| + |r.content|;
      if cursor + total > CAPACITY {
        Flush();
      }
      if total > CAPACITY {
        WriteDirect(r.timestamp, level, r.content);
        return;
      }
      AppendAll(r.timestamp, level, r.content);
    }

    /** The destructor. */
    method Close()
      requires Valid()
      modifies this`cursor, this`file, this`fdOpen
      ensures Valid() && !fdOpen && file == Flushed(old(Contents())).file
    {
      Flush();
      if fdOpen {
        fdOpen := false;
      }
    }
  }
}
