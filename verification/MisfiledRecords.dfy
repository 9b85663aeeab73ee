/**
 Why schedule independence asks that no Codex line be misfiled: for every such
 record there is a file on which two schedules store different columns.
 */
module MisfiledRecords {
  import opened Wrappers
  import opened Lines
  import opened CodexContext
  import opened Ingester
  import opened Schedule
  import opened TranscriptStore

  const PROBE: Json := Obj(map["type" := Str("response_item")])

  function Terminated(line: Bytes): Bytes { line + [NEWLINE] }

  lemma {:induction false} ScanUnterminated(line: Bytes)
    requires NEWLINE !in line
    ensures Scan(line) == Scanned([], 0)
  {
    if line != [] {
      ScanUnterminated(line[..|line| - 1]);
    }
  }

  lemma ScanOneMore(file: Bytes, line: Bytes)
    requires Scan(file).start == |file| && NEWLINE !in line
    ensures Scan(file + Terminated(line)) ==
            Scanned(Scan(file).lines + [Line(|file|, line)], |file| + |line| + 1)
  {
    ScanUnterminated(line);
    ScanSnoc(line, NEWLINE);
    hide Scan;
    assert line[0..] == line;
    ScanConcat(file, Terminated(line));
  }

  lemma ProbeAnchor(s: Session, at: nat, ctx: Context)
    requires s.source.Codex?
    ensures MakeRow(s, PROBE, at, Some(ctx)).cols.parentEventUuid == Some(Anchor(ctx))
  {
  }

  lemma FileOfTwo(one: Bytes, two: Bytes)
    requires NEWLINE !in one && NEWLINE !in two
    ensures Scan(Terminated(one) + Terminated(two)) ==
            Scanned([Line(0, one), Line(|one| + 1, two)], |one| + |two| + 2)
  {
    TailScan(one);
    hide Scan;
    ScanOneMore(Terminated(one), two);
    assert [Line(0, one)] + [Line(|one| + 1, two)] == [Line(0, one), Line(|one| + 1, two)];
  }

  lemma RecordsOfTwo(s: Session, a: Line, b: Line)
    requires Record(s, a.text).Some? && Record(s, b.text).Some?
    ensures Records(s, [a, b]) == [Record(s, a.text).value, Record(s, b.text).value]
    ensures Offsets(s, [a, b]) == [a.offset, b.offset]
  {
    var first, both := [a], [a, b];
    assert first[..|first| - 1] == [];
    assert Records(s, first) == [Record(s, a.text).value] && Offsets(s, first) == [a.offset];
    assert both[..|both| - 1] == first;
  }

  /** The whole file in one tick: its last line is stored with the context of the lines before it. */
  function Together(head: Bytes, line: Bytes): seq<Action> {
    [Append(head + Terminated(line))] + FullTick(|Scan(head).lines| + 1)
  }

  lemma LastTogether(s: Session, head: Bytes, line: Bytes, v: Json)
    requires Scan(head).start == |head| && NEWLINE !in line && Record(s, line) == Some(v)
    ensures var st := Run(s, START, Together(head, line));
      && st.file == head + Terminated(line) && Settled(st)
      && |head| in st.db.rows && st.db.rows[|head|] == MakeRow(s, v, |head|, CleanContext(s, Scan(head).lines))
  {
    hide Clean, Run, FullTick, Record, InsertEvent, MakeRow, Scan, SetParent, CleanContext;
    var file, n := head + Terminated(line), |Scan(head).lines|;
    ScanOneMore(head, line);
    SingleTickIsClean(s, file);
    OrderedLines(file);
    var ls := Scan(file).lines;
    assert ls[..n] == Scan(head).lines && ls[n] == Line(|head|, line) && ls[..n + 1] == ls;
    CleanStep(s, ls, n);
    UnstoredLine(s, ls, n, Clean(s, ls[..n]));
    InsertedRow(s, Clean(s, ls[..n]), v, |head|, CleanContext(s, ls[..n]));
  }

  /** The last line in a tick of its own: it is stored with the context read back from the rows. */
  function Apart(head: Bytes, line: Bytes): seq<Action> {
    [Append(head)] + FullTick(|Scan(head).lines|) + [Append(Terminated(line))] + FullTick(1)
  }

  /** The state a tick over the last line alone starts from. */
  function BeforeLast(s: Session, head: Bytes, line: Bytes): State {
    State(head + Terminated(line), Clean(s, Scan(head).lines).(offset := Scan(head).start), Idle)
  }

  lemma ApartReaches(s: Session, head: Bytes, line: Bytes)
    ensures Run(s, START, Apart(head, line)) == Run(s, BeforeLast(s, head, line), FullTick(1))
  {
    hide Clean, Run, FullTick, Scan;
    var first := [Append(head)] + FullTick(|Scan(head).lines|);
    SingleTickIsClean(s, head);
    RunConcat(s, START, first + [Append(Terminated(line))], FullTick(1));
    RunConcat(s, START, first, [Append(Terminated(line))]);
    RunOne(s, Run(s, START, first), Append(Terminated(line)));
  }

  lemma LastApart(s: Session, head: Bytes, line: Bytes, v: Json)
    requires Scan(head).start == |head| && NEWLINE !in line && Record(s, line) == Some(v)
    ensures var st, db := Run(s, START, Apart(head, line)), BeforeLast(s, head, line).db;
      && st.file == head + Terminated(line) && Settled(st)
      && |head| in st.db.rows && st.db.rows[|head|] == MakeRow(s, v, |head|, LoadContext(s, db))
  {
    hide Clean, Run, FullTick, Record, InsertEvent, MakeRow, Reached, Scan, LoadContext, SetParent;
    var start := BeforeLast(s, head, line);
    var db, ctx, at := start.db, LoadContext(s, start.db), |head|;
    ApartReaches(s, head, line);
    TailScan(line);
    assert start.file[at..] == Terminated(line);
    LastIsNew(s, head, line);
    ReachedStart(s, start);
    ReachedNext(s, start, 0, db, ctx, Line(0, line));
    InsertedRow(s, db, v, at, ctx);
    InsertedEvent(s, db, v, at, ctx);
    var stored := InsertEvent(s, db, v, at, ctx);
    ReachedEnd(s, start, stored.(parent := SetParent(s, stored.parent, v)), Advance(s, ctx, v));
    ScanOneMore(head, line);
  }

  lemma TailScan(line: Bytes)
    requires NEWLINE !in line
    ensures Scan(Terminated(line)) == Scanned([Line(0, line)], |line| + 1)
  {
    assert Scan([]) == Scanned([], 0);
    hide Scan;
    ScanOneMore([], line);
    assert [] + Terminated(line) == Terminated(line);
  }

  lemma LastIsNew(s: Session, head: Bytes, line: Bytes)
    requires Scan(head).start == |head| && NEWLINE !in line
    ensures |head| !in Clean(s, Scan(head).lines).rows
  {
    hide Clean, Scan;
    var n := |Scan(head).lines|;
    ScanOneMore(head, line);
    OrderedLines(head + Terminated(line));
    var ls := Scan(head + Terminated(line)).lines;
    assert ls[..n] == Scan(head).lines;
    UnstoredLine(s, ls, n, Clean(s, ls[..n]));
  }

  /** Reading all three lines in one tick, or the third in a tick of its own. */
  lemma MisfiledBreaksIndependence(s: Session, v: Json, one: Bytes, two: Bytes, three: Bytes)
    returns (together: seq<Action>, apart: seq<Action>)
    requires s.source.Codex? && Misfiled(v)
    requires NEWLINE !in one && NEWLINE !in two && NEWLINE !in three
    requires Record(s, one) == Some(Hidden(v, s.id)) && Record(s, two) == Some(v) && Record(s, three) == Some(PROBE)
    ensures Run(s, START, together).file == Run(s, START, apart).file
    ensures Settled(Run(s, START, together)) && Settled(Run(s, START, apart))
    ensures Run(s, START, together).db.rows != Run(s, START, apart).db.rows
  {
    hide Clean, Run, Together, Apart, Record, MakeRow, Scan, LoadContext, CleanContext, Hidden, Anchor, Misfiled;
    var head := Terminated(one) + Terminated(two);
    FileOfTwo(one, two);
    together, apart := Together(head, three), Apart(head, three);
    LastTogether(s, head, three, PROBE);
    LastApart(s, head, three, PROBE);
    ContextsDiffer(s, v, one, two);
    var db := BeforeLast(s, head, three).db;
    ProbeAnchor(s, |head|, CleanContext(s, Scan(head).lines).value);
    ProbeAnchor(s, |head|, LoadContext(s, db).value);
  }

  lemma ContextsDiffer(s: Session, v: Json, one: Bytes, two: Bytes)
    requires s.source.Codex? && Misfiled(v) && NEWLINE !in one && NEWLINE !in two
    requires Record(s, one) == Some(Hidden(v, s.id)) && Record(s, two) == Some(v)
    ensures var ls := Scan(Terminated(one) + Terminated(two)).lines;
      && CleanContext(s, ls).Some?
      && forall db: Db | db.rows == Clean(s, ls).rows ::
           LoadContext(s, db).Some? &&
           Anchor(LoadContext(s, db).value) != Anchor(CleanContext(s, ls).value)
  {
    hide Scan, Record, Hidden, Clean, Load, FoldFrom, Records, Offsets, Table, Latest, Anchor;
    FileOfTwo(one, two);
    var a, b := Line(0, one), Line(|one| + 1, two);
    RecordsOfTwo(s, a, b);
    OrderedLines(Terminated(one) + Terminated(two));
    CleanTable(s, [a, b]);
    MisfiledHidesContext(a.offset, b.offset, v, s.id);
  }
}
