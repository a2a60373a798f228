/** The lines of a byte stream, and the record each becomes. */
module LogLines {
  import opened Common

  const NEWLINE: byte := 10

  /** With its newline, a record is no longer than this. */
  const MAX_RECORD_BYTES: nat := 64 * 1024

  /** The lines a newline ended, in order. */
  function Lines(s: seq<byte>): seq<seq<byte>> {
    if s == [] then []
    else
      var before := s[..|s| - 1];
      if s[|s| - 1] == NEWLINE then Lines(before) + [Tail(before)] else Lines(before)
  }

  /** What follows the last newline. */
  function Tail(s: seq<byte>): seq<byte> {
    if s == [] || s[|s| - 1] == NEWLINE then []
    else Tail(s[..|s| - 1]) + [s[|s| - 1]]
  }

  datatype Record = Line(bytes: seq<byte>) | Oversized(len: nat)

  /** A line too long for one record is replaced, its length kept. */
  function RecordOf(line: seq<byte>): Record {
    if |line| + 1 > MAX_RECORD_BYTES then Oversized(|line|) else Line(line)
  }

  function RecordsOf(lines: seq<seq<byte>>): seq<Record> {
    if lines == [] then [] else RecordsOf(lines[..|lines| - 1]) + [RecordOf(lines[|lines| - 1])]
  }

  /** One record for each line, in order. */
  lemma {:induction false} RecordOfEach(lines: seq<seq<byte>>)
    ensures |RecordsOf(lines)| == |lines|
    ensures forall i | 0 <= i < |lines| :: RecordsOf(lines)[i] == RecordOf(lines[i])
  {
    if lines != [] {
      RecordOfEach(lines[..|lines| - 1]);
    }
  }

  predicate IsPlain(s: seq<byte>) {
    NEWLINE !in s
  }

  lemma {:induction false} AppendPlain(s: seq<byte>, c: seq<byte>)
    requires IsPlain(c)
    ensures Lines(s + c) == Lines(s) && Tail(s + c) == Tail(s) + c
  {
    if c == [] {
      Empty(s);
      Empty(Tail(s));
    } else {
      var n := |c| - 1;
      AppendPlain(s, c[..n]);
      assert (s + c)[..|s| + n] == s + c[..n];
      assert c == c[..n] + [c[n]];
      Assoc(Tail(s), c[..n], [c[n]]);
    }
  }

  lemma AppendNewline(s: seq<byte>)
    ensures Lines(s + [NEWLINE]) == Lines(s) + [Tail(s)] && Tail(s + [NEWLINE]) == []
  {
    assert (s + [NEWLINE])[..|s|] == s;
  }

  lemma AppendRecord(lines: seq<seq<byte>>, line: seq<byte>)
    ensures RecordsOf(lines + [line]) == RecordsOf(lines) + [RecordOf(line)]
  {
    assert (lines + [line])[..|lines|] == lines;
  }

  /** What a framer has handed on and what it keeps. */
  datatype Frame = Frame(handed: seq<Record>, pending: seq<byte>, discarding: bool, lineLen: nat)

  /** One byte more: a newline hands on the line it ends; a line that outgrows a
      record is counted and its bytes dropped. */
  function NextFrame(f: Frame, b: byte): Frame {
    if b == NEWLINE then
      Frame(f.handed + [if f.discarding then Oversized(f.lineLen) else Line(f.pending)], [], false, 0)
    else
      var discards := f.lineLen + 2 > MAX_RECORD_BYTES;
      Frame(f.handed, if discards then [] else f.pending + [b], discards, f.lineLen + 1)
  }

  function FrameOf(received: seq<byte>): Frame
    decreases |received|, 1
  {
    if received == [] then Frame([], [], false, 0) else FrameToLast(received)
  }

  function FrameToLast(received: seq<byte>): Frame
    requires received != []
    decreases |received|, 0
  {
    NextFrame(FrameOf(received[..|received| - 1]), received[|received| - 1])
  }

  /** Byte by byte, a stream becomes the records of its lines; of the rest, its bytes
      while they fit in a record, and its length. */
  lemma {:induction false} FrameMeans(received: seq<byte>)
    ensures var tail := Tail(received);
            var discards := |tail| + 1 > MAX_RECORD_BYTES;
            FrameOf(received) == Frame(RecordsOf(Lines(received)), if discards then [] else tail, discards, |tail|)
  {
    if received != [] {
      var n := |received| - 1;
      FrameMeans(received[..n]);
      assert FrameOf(received) == FrameToLast(received);
      AppendRecord(Lines(received[..n]), Tail(received[..n]));
    }
  }

  /** A newline ends one record more, and nothing is kept. */
  lemma FrameAfterNewline(received: seq<byte>, f: Frame)
    requires f == FrameOf(received)
    ensures FrameOf(received + [NEWLINE])
         == Frame(f.handed + [if f.discarding then Oversized(f.lineLen) else Line(f.pending)], [], false, 0)
    ensures !f.discarding ==> |f.pending| + 1 <= MAX_RECORD_BYTES
  {
    FrameMeans(received);
    FrameMeans(received + [NEWLINE]);
    AppendNewline(received);
    AppendRecord(Lines(received), Tail(received));
  }

  /** Bytes without a newline add to what is kept, until it outgrows a record. */
  lemma FrameAfterPlain(received: seq<byte>, f: Frame, bytes: seq<byte>)
    requires f == FrameOf(received) && IsPlain(bytes)
    ensures var discards := f.discarding || |f.pending| + |bytes| + 1 > MAX_RECORD_BYTES;
            FrameOf(received + bytes)
            == Frame(f.handed, if discards then [] else f.pending + bytes, discards, f.lineLen + |bytes|)
  {
    FrameMeans(received);
    FrameMeans(received + bytes);
    AppendPlain(received, bytes);
  }

  function Joined(lines: seq<seq<byte>>): seq<byte> {
    if lines == [] then [] else Joined(lines[..|lines| - 1]) + lines[|lines| - 1] + [NEWLINE]
  }

  /** The lines and the tail are the stream, cut at its newlines. */
  lemma {:induction false} LinesAreTheStream(s: seq<byte>)
    ensures Joined(Lines(s)) + Tail(s) == s
    ensures IsPlain(Tail(s)) && forall i | 0 <= i < |Lines(s)| :: IsPlain(Lines(s)[i])
  {
    if s != [] {
      var n := |s| - 1;
      LinesAreTheStream(s[..n]);
      assert s == s[..n] + [s[n]];
      if s[n] == NEWLINE {
        assert Lines(s)[..|Lines(s)| - 1] == Lines(s[..n]);
      } else {
        Assoc(Joined(Lines(s)), Tail(s[..n]), [s[n]]);
      }
    }
  }
}
