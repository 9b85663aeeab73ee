/**
 Newline-terminated lines of a transcript file, found the way the ingester
 finds them: one pass over the bytes that remembers where the current line
 started.
 */
module Lines {

  type Byte = b: int | 0 <= b < 256
  type Bytes = seq<Byte>

  const NEWLINE: Byte := 10

  /** A complete line: where it starts in the file, and its bytes without the newline. */
  datatype Line = Line(offset: nat, text: Bytes)

  /** The complete lines of a prefix, and where the unfinished line after them starts. */
  datatype Scanned = Scanned(lines: seq<Line>, start: nat)

  function Scan(buf: Bytes): (r: Scanned)
    ensures r.start <= |buf|
  {
    if buf == [] then Scanned([], 0) else
    var last := |buf| - 1;
    var before := Scan(buf[..last]);
    if buf[last] == NEWLINE then
      Scanned(before.lines + [Line(before.start, buf[before.start..last])], |buf|)
    else
      before
  }

  function Shift(lines: seq<Line>, base: nat): (r: seq<Line>)
    ensures |r| == |lines|
    ensures forall i | 0 <= i < |lines| :: r[i] == Line(lines[i].offset + base, lines[i].text)
  {
    seq(|lines|, i requires 0 <= i < |lines| => Line(lines[i].offset + base, lines[i].text))
  }

  /** Offset `at` is 0 or the byte after a newline. */
  predicate AtBoundary(file: Bytes, at: nat) {
    at <= |file| && (at == 0 || file[at - 1] == NEWLINE)
  }

  /** The scan ends on a boundary, and on every boundary nothing is left unfinished. */
  lemma {:induction false} BoundaryIsStart(file: Bytes)
    ensures AtBoundary(file, Scan(file).start)
    ensures AtBoundary(file, |file|) <==> Scan(file).start == |file|
    ensures NEWLINE !in file[Scan(file).start..]
  {
    if file != [] {
      BoundaryIsStart(file[..|file| - 1]);
    }
  }

  lemma ShiftAppend(lines: seq<Line>, line: Line, base: nat)
    ensures Shift(lines + [line], base) == Shift(lines, base) + [Line(line.offset + base, line.text)]
  {
  }

  lemma ScanSnoc(buf: Bytes, b: Byte)
    ensures Scan(buf + [b]) ==
            if b == NEWLINE
            then Scanned(Scan(buf).lines + [Line(Scan(buf).start, buf[Scan(buf).start..])], |buf| + 1)
            else Scan(buf)
  {
    assert (buf + [b])[..|buf|] == buf;
    assert (buf + [b])[Scan(buf).start..|buf|] == buf[Scan(buf).start..];
  }

  lemma ScanConcatStep(a: Bytes, front: Bytes, byte: Byte)
    requires Scan(a + front).lines == Scan(a).lines + Shift(Scan(front).lines, |a|)
    requires Scan(a + front).start == |a| + Scan(front).start
    ensures Scan(a + front + [byte]).lines == Scan(a).lines + Shift(Scan(front + [byte]).lines, |a|)
    ensures Scan(a + front + [byte]).start == |a| + Scan(front + [byte]).start
  {
    hide Scan, Shift;
    ScanSnoc(front, byte);
    ScanSnoc(a + front, byte);
    if byte == NEWLINE {
      var start := Scan(front).start;
      ScanWithin(front);
      assert (a + front)[|a| + start..] == front[start..];
      ShiftAppend(Scan(front).lines, Line(start, front[start..]), |a|);
    }
  }

  lemma ScanWithin(file: Bytes)
    ensures Scan(file).start <= |file|
  {
  }

  /** Reading from a line boundary finds the lines that a read of the whole file finds there. */
  lemma {:induction false} ScanConcat(a: Bytes, b: Bytes)
    requires Scan(a).start == |a|
    ensures Scan(a + b).lines == Scan(a).lines + Shift(Scan(b).lines, |a|)
    ensures Scan(a + b).start == |a| + Scan(b).start
  {
    if b == [] {
      assert a + b == a;
    } else {
      var front, byte := b[..|b| - 1], b[|b| - 1];
      ScanConcat(a, front);
      hide Scan, Shift;
      ScanConcatStep(a, front, byte);
      assert b == front + [byte] && a + b == a + front + [byte];
    }
  }

  /** Appending bytes only adds lines. */
  lemma {:induction false} ScanMonotone(a: Bytes, b: Bytes)
    ensures Scan(a).lines <= Scan(a + b).lines
    ensures Scan(a).start <= Scan(a + b).start
  {
    if b == [] {
      assert a + b == a;
    } else {
      var last := |b| - 1;
      ScanMonotone(a, b[..last]);
      assert (a + b)[..|a| + last] == a + b[..last];
    }
  }

  /** Cutting off the unfinished line changes nothing. */
  lemma {:induction false} ScanToStart(file: Bytes)
    ensures Scan(file[..Scan(file).start]) == Scan(file)
  {
    if file != [] {
      var front := file[..|file| - 1];
      ScanToStart(front);
      assert front[..Scan(front).start] == file[..Scan(front).start];
      assert file[..|file|] == file;
    }
  }

  /** What a line is: it starts at a boundary, ends before a newline, and holds no newline. */
  ghost predicate IsLineOf(file: Bytes, line: Line) {
    && line.offset + |line.text| < |file|
    && AtBoundary(file, line.offset)
    && file[line.offset..line.offset + |line.text|] == line.text
    && file[line.offset + |line.text|] == NEWLINE
    && NEWLINE !in line.text
  }

  /** One more byte ends at most one more line: the one that was unfinished. */
  lemma LinesOfSnoc(front: Bytes, byte: Byte, line: Line)
    ensures IsLineOf(front + [byte], line) <==>
            IsLineOf(front, line) || (byte == NEWLINE && line == Line(Scan(front).start, front[Scan(front).start..]))
  {
    BoundaryIsStart(front);
    hide Scan;
    var file, start, end := front + [byte], Scan(front).start, line.offset + |line.text|;
    if end < |front| {
      assert file[line.offset..end] == front[line.offset..end];
    } else if end == |front| {
      assert file[line.offset..end] == front[line.offset..];
      if line.offset < start {
        assert file[line.offset..end][start - 1 - line.offset] == front[start - 1];
      }
    }
  }

  /** The scan finds every line of the file, in order, and nothing else. */
  lemma {:induction false} ScanFindsTheLines(file: Bytes)
    ensures forall line :: line in Scan(file).lines <==> IsLineOf(file, line)
    ensures forall i, j | 0 <= i < j < |Scan(file).lines| ::
              Scan(file).lines[i].offset < Scan(file).lines[j].offset
    ensures forall i | 0 <= i < |Scan(file).lines| ::
              Scan(file).lines[i].offset + |Scan(file).lines[i].text| < Scan(file).start
  {
    if file != [] {
      var front, byte := file[..|file| - 1], file[|file| - 1];
      ScanFindsTheLines(front);
      assert file == front + [byte];
      hide Scan, IsLineOf;
      ScanSnoc(front, byte);
      ScanWithin(front);
      forall line ensures line in Scan(file).lines <==> IsLineOf(file, line) {
        LinesOfSnoc(front, byte, line);
      }
    }
  }
}
