/**
 What every schedule of appends, ticks and crashes keeps, and where it ends.
 */
module Schedule {
  import opened Wrappers
  import opened Lines
  import opened CodexContext
  import opened Ingester

  /******* Clean ingests *******/

  lemma {:induction false} RecordsConcat(s: Session, a: seq<Line>, b: seq<Line>)
    ensures Records(s, a + b) == Records(s, a) + Records(s, b)
  {
    if b == [] {
      assert a + b == a;
    } else {
      var last := |b| - 1;
      assert (a + b)[..|a| + last] == a + b[..last];
      RecordsConcat(s, a, b[..last]);
    }
  }

  lemma CleanStep(s: Session, ls: seq<Line>, n: nat)
    requires n < |ls|
    ensures Records(s, ls[..n + 1]) ==
            Records(s, ls[..n]) + (if Record(s, ls[n].text).Some? then [Record(s, ls[n].text).value] else [])
    ensures Clean(s, ls[..n + 1]) ==
            match Record(s, ls[n].text)
            case None => Clean(s, ls[..n])
            case Some(v) =>
              InsertEvent(s, Clean(s, ls[..n]), v, ls[n].offset, CleanContext(s, ls[..n]))
                .(parent := SetParent(s, Clean(s, ls[..n]).parent, v))
  {
    assert ls[..n + 1][..n] == ls[..n];
  }

  lemma InsertedRow(s: Session, db: Db, v: Json, at: nat, ctx: Option<Context>)
    requires at !in db.rows
    ensures InsertEvent(s, db, v, at, ctx).rows == db.rows[at := MakeRow(s, v, at, ctx)]
  {
    hide Parse;
  }

  /** One row per decodable line, at the line's start, holding its record. */
  ghost predicate RowsOf(s: Session, ls: seq<Line>, rows: map<nat, Row>) {
    && (forall at :: at in rows <==> exists i :: 0 <= i < |ls| && ls[i].offset == at && Record(s, ls[i].text).Some?)
    && (forall i | 0 <= i < |ls| && Record(s, ls[i].text).Some? ::
          var row := rows[ls[i].offset];
          row.payload == Record(s, ls[i].text).value && row.kind == Kind(s.source, row.payload) &&
          row.agent == s.source.AgentId())
  }

  lemma NoRows(s: Session)
    ensures RowsOf(s, [], map[])
  {
  }

  lemma RowsSkip(s: Session, front: seq<Line>, line: Line, rows: map<nat, Row>)
    requires RowsOf(s, front, rows) && Record(s, line.text).None?
    ensures RowsOf(s, front + [line], rows)
  {
    hide Record, Kind;
    var ls := front + [line];
    forall at ensures at in rows <==> exists i :: 0 <= i < |ls| && ls[i].offset == at && Record(s, ls[i].text).Some? {
      if at in rows {
        var i :| 0 <= i < |front| && front[i].offset == at && Record(s, front[i].text).Some?;
        assert ls[i] == front[i];
      }
      if exists i :: 0 <= i < |ls| && ls[i].offset == at && Record(s, ls[i].text).Some? {
        var i :| 0 <= i < |ls| && ls[i].offset == at && Record(s, ls[i].text).Some?;
        assert front[i] == ls[i];
      }
    }
    forall i | 0 <= i < |ls| && Record(s, ls[i].text).Some? ensures i < |front| && ls[i] == front[i] {
    }
  }

  lemma RowsAdd(s: Session, front: seq<Line>, line: Line, rows: map<nat, Row>, row: Row)
    requires RowsOf(s, front, rows) && Ordered(front + [line]) && Record(s, line.text) == Some(row.payload)
    requires row.kind == Kind(s.source, row.payload) && row.agent == s.source.AgentId()
    ensures RowsOf(s, front + [line], rows[line.offset := row])
  {
    hide Record, Kind;
    var ls, after := front + [line], rows[line.offset := row];
    assert ls[|front|] == line;
    forall at ensures at in after <==> exists i :: 0 <= i < |ls| && ls[i].offset == at && Record(s, ls[i].text).Some? {
      if at in rows {
        var i :| 0 <= i < |front| && front[i].offset == at && Record(s, front[i].text).Some?;
        assert ls[i] == front[i];
      }
      if exists i :: 0 <= i < |ls| && ls[i].offset == at && Record(s, ls[i].text).Some? {
        var i :| 0 <= i < |ls| && ls[i].offset == at && Record(s, ls[i].text).Some?;
        assert i < |front| ==> front[i] == ls[i];
      }
    }
    forall i | 0 <= i < |front| ensures ls[i] == front[i] && front[i].offset != line.offset {
    }
  }

  /** A clean ingest has one row per decodable line, at the line's start, holding its record. */
  lemma CleanRows(s: Session, ls: seq<Line>)
    requires Ordered(ls)
    ensures forall at :: at in Clean(s, ls).rows <==>
              exists i :: 0 <= i < |ls| && ls[i].offset == at && Record(s, ls[i].text).Some?
    ensures forall i | 0 <= i < |ls| && Record(s, ls[i].text).Some? ::
              var row := Clean(s, ls).rows[ls[i].offset];
              row.payload == Record(s, ls[i].text).value && row.kind == Kind(s.source, row.payload) &&
              row.agent == s.source.AgentId()
  {
    CleanRowsOf(s, ls);
    hide Clean, Record, Kind;
  }

  lemma {:induction false} CleanRowsOf(s: Session, ls: seq<Line>)
    requires Ordered(ls)
    ensures RowsOf(s, ls, Clean(s, ls).rows)
  {
    hide InsertEvent, Parse, Derived, Kind, Record, SetParent, RowsOf;
    if ls == [] {
      NoRows(s);
    } else {
      var front, line := ls[..|ls| - 1], ls[|ls| - 1];
      assert ls == front + [line] && ls[..|front| + 1] == ls;
      CleanRowsOf(s, front);
      CleanStep(s, ls, |front|);
      var before := Clean(s, front);
      hide Clean;
      var r := Record(s, line.text);
      if r.Some? {
        NewRow(s, front, line, before.rows);
        InsertedRow(s, before, r.value, line.offset, CleanContext(s, front));
        RowsAdd(s, front, line, before.rows, MakeRow(s, r.value, line.offset, CleanContext(s, front)));
      } else {
        RowsSkip(s, front, line, before.rows);
      }
    }
  }

  lemma NewRow(s: Session, front: seq<Line>, line: Line, rows: map<nat, Row>)
    requires RowsOf(s, front, rows) && Ordered(front + [line])
    ensures line.offset !in rows
  {
    hide Record, Kind;
    var ls := front + [line];
    assert ls[|front|] == line && forall i | 0 <= i < |front| :: ls[i] == front[i];
  }

  lemma InsertedEvent(s: Session, db: Db, v: Json, at: nat, ctx: Option<Context>)
    ensures var after := InsertEvent(s, db, v, at, ctx); after.parent == db.parent && after.offset == db.offset
    ensures at in db.rows ==> InsertEvent(s, db, v, at, ctx) == db
    ensures at !in db.rows ==>
              Events(InsertEvent(s, db, v, at, ctx).rows) ==
              Events(db.rows)[at := Stored(s.source.AgentId(), Kind(s.source, v), v)]
  {
  }

  lemma {:induction false} CleanEvents(s: Session, ls: seq<Line>)
    requires Ordered(ls) && ls != []
    ensures var last := |ls| - 1;
      Events(Clean(s, ls).rows) ==
      match Record(s, ls[last].text)
      case None => Events(Clean(s, ls[..last]).rows)
      case Some(v) =>
        Events(Clean(s, ls[..last]).rows)[ls[last].offset := Stored(s.source.AgentId(), Kind(s.source, v), v)]
  {
    var last := |ls| - 1;
    assert ls[..last + 1] == ls;
    CleanStep(s, ls, last);
    if Record(s, ls[last].text).Some? {
      CleanRows(s, ls[..last]);
      InsertedEvent(s, Clean(s, ls[..last]), Record(s, ls[last].text).value, ls[last].offset,
                    CleanContext(s, ls[..last]));
    }
  }

  lemma {:induction false} OffsetsIncrease(s: Session, ls: seq<Line>)
    requires Ordered(ls)
    ensures Increasing(Offsets(s, ls))
    ensures forall o | o in Offsets(s, ls) :: exists i :: 0 <= i < |ls| && ls[i].offset == o
  {
    if ls != [] {
      var last := |ls| - 1;
      var front := ls[..last];
      assert forall i | 0 <= i < last :: front[i] == ls[i];
      OffsetsIncrease(s, front);
      var offs := Offsets(s, ls);
      if Record(s, ls[last].text).Some? {
        forall j | 0 <= j < |offs| - 1 ensures offs[j] < offs[|offs| - 1] {
          assert offs[j] == Offsets(s, front)[j] && offs[j] in Offsets(s, front);
        }
      }
    }
  }

  lemma {:induction false} CleanTable(s: Session, ls: seq<Line>)
    requires Ordered(ls) && s.source.Codex?
    ensures Events(Clean(s, ls).rows) == Table(Offsets(s, ls), Records(s, ls))
  {
    if ls != [] {
      var last := |ls| - 1;
      CleanTable(s, ls[..last]);
      CleanEvents(s, ls);
      var offs, vs := Offsets(s, ls), Records(s, ls);
      if Record(s, ls[last].text).Some? {
        assert offs[..|offs| - 1] == Offsets(s, ls[..last]) && vs[..|vs| - 1] == Records(s, ls[..last]);
      } else {
        assert offs == Offsets(s, ls[..last]) && vs == Records(s, ls[..last]);
      }
    }
  }

  /** A context read back from a clean ingest is the context that ingest holds. */
  lemma CleanReload(s: Session, ls: seq<Line>, db: Db)
    requires Ordered(ls) && WellFiled(s, ls) && db.rows == Clean(s, ls).rows
    ensures LoadContext(s, db) == CleanContext(s, ls)
  {
    if s.source.Codex? {
      CleanTable(s, ls);
      OffsetsIncrease(s, ls);
      ReloadIsFold(Offsets(s, ls), Records(s, ls));
    }
  }

  /******* Where a tick is in the file *******/

  function AllLines(st: State): seq<Line> { Scan(st.file).lines }

  /** The number of complete lines before offset `at`. */
  function CountBefore(file: Bytes, at: nat): nat
    requires at <= |file|
  {
    |Scan(file[..at]).lines|
  }

  /** The offset is a line boundary; a tick's bytes are the file's bytes from there. */
  ghost predicate Placed(st: State) {
    && st.db.offset <= |st.file|
    && Scan(st.file[..st.db.offset]).start == st.db.offset
    && (st.tick.Reading? ==>
          && st.tick.base == st.db.offset
          && st.tick.base + |st.tick.buf| <= |st.file|
          && st.file[st.tick.base..st.tick.base + |st.tick.buf|] == st.tick.buf
          && st.tick.next <= |Scan(st.tick.buf).lines|)
  }

  /** The index, among all lines of the file, of the line the tick is at. */
  ghost function Position(st: State): nat
    requires Placed(st)
  {
    CountBefore(st.file, st.db.offset) + if st.tick.Reading? then st.tick.next else 0
  }

  /** The lines a read from a boundary finds are lines of the file. */
  lemma ReadLines(before: Bytes, buf: Bytes, rest: Bytes)
    requires Scan(before).start == |before|
    ensures var all := Scan(before + buf + rest).lines;
      var c := |Scan(before).lines|;
      && c + |Scan(buf).lines| <= |all| && all[..c] == Scan(before).lines
      && forall j | 0 <= j < |Scan(buf).lines| ::
           all[c + j] == Line(|before| + Scan(buf).lines[j].offset, Scan(buf).lines[j].text)
  {
    hide Scan;
    ScanConcat(before, buf);
    ScanMonotone(before + buf, rest);
    var all, some := Scan(before + buf + rest).lines, Scan(before + buf).lines;
    assert all[..|some|] == some;
    assert all[..|Scan(before).lines|] == some[..|Scan(before).lines|];
  }

  lemma TickLines(st: State)
    requires Placed(st)
    ensures CountBefore(st.file, st.db.offset) <= |AllLines(st)|
    ensures AllLines(st)[..CountBefore(st.file, st.db.offset)] == Scan(st.file[..st.db.offset]).lines
    ensures st.tick.Reading? ==>
              var read := Scan(st.tick.buf).lines;
              && CountBefore(st.file, st.db.offset) + |read| <= |AllLines(st)|
              && forall j | 0 <= j < |read| ::
                   AllLines(st)[CountBefore(st.file, st.db.offset) + j] ==
                   Line(st.tick.base + read[j].offset, read[j].text)
  {
    hide Scan;
    var before := st.file[..st.db.offset];
    var buf := if st.tick.Reading? then st.tick.buf else [];
    assert before + buf + st.file[st.db.offset + |buf|..] == st.file;
    ReadLines(before, buf, st.file[st.db.offset + |buf|..]);
  }

  lemma OrderedLines(file: Bytes)
    ensures Ordered(Scan(file).lines)
  {
    ScanFindsTheLines(file);
  }

  /** After an append, every boundary and every line found so far is where it was. */
  lemma PlacedAfterAppend(st: State, bytes: Bytes)
    requires Placed(st)
    ensures var after := st.(file := st.file + bytes);
      && Placed(after) && Position(after) == Position(st) && AllLines(st) <= AllLines(after)
  {
    var after := st.(file := st.file + bytes);
    assert after.file[..st.db.offset] == st.file[..st.db.offset];
    if st.tick.Reading? {
      var end := st.tick.base + |st.tick.buf|;
      assert after.file[st.tick.base..end] == st.file[st.tick.base..end];
    }
    ScanMonotone(st.file, bytes);
  }

  lemma CommitPoint(before: Bytes, buf: Bytes, rest: Bytes)
    requires Scan(before).start == |before|
    ensures var at := |before| + Scan(buf).start;
      && Scan((before + buf + rest)[..at]).start == at
      && |Scan((before + buf + rest)[..at]).lines| == |Scan(before).lines| + |Scan(buf).lines|
  {
    var start := Scan(buf).start;
    assert (before + buf + rest)[..|before| + start] == before + buf[..start];
    ScanToStart(buf);
    ScanConcat(before, buf[..start]);
  }

  lemma PlacedAfterCommit(s: Session, st: State)
    requires Placed(st) && st.tick.Reading? && !st.tick.stored && st.tick.next == |Scan(st.tick.buf).lines|
    ensures Placed(Apply(s, st, Commit)) && Position(Apply(s, st, Commit)) == Position(st)
  {
    hide Scan;
    var before := st.file[..st.tick.base];
    var rest := st.file[st.tick.base + |st.tick.buf|..];
    assert before + st.tick.buf + rest == st.file;
    CommitPoint(before, st.tick.buf, rest);
    ScanWithin(st.tick.buf);
  }

  /******* Coverage: which lines are stored *******/

  /**
   The rows are those of the first `h` lines, the parent link is that of the first
   `k`; a crash between a line's two writes is the only way they differ.
   */
  ghost predicate Covering(s: Session, st: State, h: nat, k: nat) {
    && Placed(st)
    && k <= h <= k + 1 && h <= |AllLines(st)|
    && Events(st.db.rows) == Events(Clean(s, AllLines(st)[..h]).rows)
    && st.db.parent == Clean(s, AllLines(st)[..k]).parent
    && Position(st) <= k
    && (st.tick.Reading? && st.tick.stored ==>
          && Position(st) < h && st.tick.next < |Scan(st.tick.buf).lines|
          && Record(s, Scan(st.tick.buf).lines[st.tick.next].text).Some?)
  }

  lemma EventsKeys(rows: map<nat, Row>)
    ensures forall at :: at in rows <==> at in Events(rows)
  {
  }

  /** Storing a line a second time changes nothing. */
  lemma StoreAgain(s: Session, ls: seq<Line>, n: nat, h: nat, db: Db, ctx: Option<Context>)
    requires Ordered(ls) && n < h <= |ls| && Record(s, ls[n].text).Some?
    requires Events(db.rows) == Events(Clean(s, ls[..h]).rows)
    ensures InsertEvent(s, db, Record(s, ls[n].text).value, ls[n].offset, ctx) == db
  {
    EventsKeys(db.rows);
    EventsKeys(Clean(s, ls[..h]).rows);
    CleanRows(s, ls[..h]);
    assert ls[..h][n] == ls[n];
    InsertedEvent(s, db, Record(s, ls[n].text).value, ls[n].offset, ctx);
  }

  lemma UnstoredLine(s: Session, ls: seq<Line>, n: nat, db: Db)
    requires Ordered(ls) && n < |ls|
    requires Events(db.rows) == Events(Clean(s, ls[..n]).rows)
    ensures ls[n].offset !in db.rows && ls[n].offset !in Clean(s, ls[..n]).rows
  {
    EventsKeys(db.rows);
    EventsKeys(Clean(s, ls[..n]).rows);
    CleanRows(s, ls[..n]);
  }

  /** Storing the first unstored line adds its row. */
  lemma StoreNew(s: Session, ls: seq<Line>, n: nat, db: Db, ctx: Option<Context>)
    requires Ordered(ls) && n < |ls| && Record(s, ls[n].text).Some?
    requires Events(db.rows) == Events(Clean(s, ls[..n]).rows)
    ensures Events(InsertEvent(s, db, Record(s, ls[n].text).value, ls[n].offset, ctx).rows) ==
            Events(Clean(s, ls[..n + 1]).rows)
  {
    var v := Record(s, ls[n].text).value;
    UnstoredLine(s, ls, n, db);
    CleanStep(s, ls, n);
    InsertedEvent(s, db, v, ls[n].offset, ctx);
    InsertedEvent(s, Clean(s, ls[..n]), v, ls[n].offset, CleanContext(s, ls[..n]));
  }

  /** The parent link is the first one found, so finding it again changes nothing. */
  lemma {:induction false} ParentStep(s: Session, ls: seq<Line>, n: nat, k: nat)
    requires n < k <= |ls| && Record(s, ls[n].text).Some?
    ensures SetParent(s, Clean(s, ls[..k]).parent, Record(s, ls[n].text).value) == Clean(s, ls[..k]).parent
  {
    CleanStep(s, ls, k - 1);
    if n < k - 1 {
      ParentStep(s, ls, n, k - 1);
    }
  }

  /** The lines of a step's position, for the two actions that write a line. */
  lemma LineAtPosition(st: State)
    requires Placed(st) && st.tick.Reading? && st.tick.next < |Scan(st.tick.buf).lines|
    ensures Position(st) < |AllLines(st)|
    ensures var line := Scan(st.tick.buf).lines[st.tick.next];
      AllLines(st)[Position(st)] == Line(st.tick.base + line.offset, line.text)
  {
    TickLines(st);
  }

  predicate AtLine(st: State) {
    st.tick.Reading? && st.tick.next < |Scan(st.tick.buf).lines|
  }

  /** The high-water mark after an action: it rises when the first unstored line is dealt with. */
  ghost function Mark(st: State, a: Action, h: nat): nat
    requires Placed(st)
  {
    if a == StoreLine && AtLine(st) && !st.tick.stored && Position(st) == h then h + 1 else h
  }

  lemma SkipKeepsCovering(s: Session, st: State, h: nat, k: nat) returns (h': nat, k': nat)
    requires Covering(s, st, h, k)
    requires st.tick.Reading? && !st.tick.stored && st.tick.next < |Scan(st.tick.buf).lines|
    requires Record(s, Scan(st.tick.buf).lines[st.tick.next].text).None?
    ensures Covering(s, st.(tick := st.tick.(next := st.tick.next + 1)), h', k') && k <= k'
    ensures h' == Mark(st, StoreLine, h)
  {
    hide InsertEvent, Scan, Records, Events, Clean, Record;
    h', k' := h, k;
    LineAtPosition(st);
    var ls, n := AllLines(st), Position(st);
    CleanStep(s, ls, n);
    if n == k {
      h', k' := if n == h then h + 1 else h, k + 1;
    }
  }

  /** The database after the transaction of the line a tick is at. */
  lemma StoreWrites(s: Session, st: State, h: nat, k: nat) returns (h': nat)
    requires Covering(s, st, h, k)
    requires st.tick.Reading? && !st.tick.stored && st.tick.next < |Scan(st.tick.buf).lines|
    requires Record(s, Scan(st.tick.buf).lines[st.tick.next].text).Some?
    ensures h <= h' <= |AllLines(st)| && Position(st) < h' && h' == (if Position(st) == h then h + 1 else h)
    ensures var line := Scan(st.tick.buf).lines[st.tick.next];
      var db := InsertEvent(s, st.db, Record(s, line.text).value, st.tick.base + line.offset, st.tick.ctx);
      && Events(db.rows) == Events(Clean(s, AllLines(st)[..h']).rows)
      && db.parent == st.db.parent && db.offset == st.db.offset
  {
    hide InsertEvent, Scan, Clean, Record, Events;
    h' := h;
    LineAtPosition(st);
    OrderedLines(st.file);
    var ls, n := AllLines(st), Position(st);
    InsertedEvent(s, st.db, Record(s, ls[n].text).value, ls[n].offset, st.tick.ctx);
    if n < h {
      StoreAgain(s, ls, n, h, st.db, st.tick.ctx);
    } else {
      StoreNew(s, ls, n, st.db, st.tick.ctx);
      h' := h + 1;
    }
  }

  lemma StoreKeepsCovering(s: Session, st: State, h: nat, k: nat) returns (h': nat, k': nat)
    requires Covering(s, st, h, k)
    ensures Covering(s, Apply(s, st, StoreLine), h', k') && h' == Mark(st, StoreLine, h) && k <= k'
  {
    hide InsertEvent, Scan, Clean, Record;
    h', k' := h, k;
    if st.tick.Reading? && !st.tick.stored && st.tick.next < |Scan(st.tick.buf).lines| {
      if Record(s, Scan(st.tick.buf).lines[st.tick.next].text).None? {
        h', k' := SkipKeepsCovering(s, st, h, k);
      } else {
        h' := StoreWrites(s, st, h, k);
      }
    }
  }

  lemma ParentWritten(s: Session, ls: seq<Line>, n: nat, k: nat) returns (k': nat)
    requires n < |ls| && n <= k <= |ls| && Record(s, ls[n].text).Some?
    ensures k' == (if n == k then k + 1 else k)
    ensures SetParent(s, Clean(s, ls[..k]).parent, Record(s, ls[n].text).value) == Clean(s, ls[..k']).parent
  {
    hide InsertEvent, DetectParent;
    k' := k;
    if n < k {
      ParentStep(s, ls, n, k);
    } else {
      CleanStep(s, ls, n);
      k' := k + 1;
    }
  }

  lemma FinishKeepsCovering(s: Session, st: State, h: nat, k: nat) returns (k': nat)
    requires Covering(s, st, h, k)
    ensures Covering(s, Apply(s, st, FinishLine), h, k') && k <= k'
  {
    hide InsertEvent, SetParent, Clean, Scan, Record;
    k' := k;
    if AtLine(st) && st.tick.stored {
      LineAtPosition(st);
      k' := ParentWritten(s, AllLines(st), Position(st), k);
    }
  }

  lemma AppendKeepsCovering(s: Session, st: State, h: nat, k: nat, bytes: Bytes)
    requires Covering(s, st, h, k)
    ensures Covering(s, Apply(s, st, Append(bytes)), h, k)
  {
    PlacedAfterAppend(st, bytes);
    var after := Apply(s, st, Append(bytes));
    assert AllLines(after)[..h] == AllLines(st)[..h];
    assert AllLines(after)[..k] == AllLines(st)[..k];
  }

  lemma StepKeepsCovering(s: Session, st: State, a: Action, h: nat, k: nat) returns (h': nat, k': nat)
    requires Covering(s, st, h, k)
    ensures Covering(s, Apply(s, st, a), h', k') && h' == Mark(st, a, h) && k <= k'
  {
    h', k' := h, k;
    match a
    case Append(bytes) => AppendKeepsCovering(s, st, h, k, bytes);
    case StartTick =>
    case StoreLine => h', k' := StoreKeepsCovering(s, st, h, k);
    case FinishLine => k' := FinishKeepsCovering(s, st, h, k);
    case Commit =>
      if st.tick.Reading? && !st.tick.stored && st.tick.next == |Scan(st.tick.buf).lines| {
        PlacedAfterCommit(s, st);
      }
    case Crash =>
  }

  /******* Lineage: what the stored columns are *******/

  /** What the context of a tick at line `n` owes the `h` lines already stored. */
  ghost predicate Owes(s: Session, ls: seq<Line>, n: nat, h: nat, ctx: Context)
    requires n <= h <= |ls|
  {
    FoldFrom(ctx, Records(s, ls[n..h]), s.id) == Fold(Records(s, ls[..h]), s.id)
  }

  /**
   The rows and blocks are exactly the clean ones; and re-reading the lines already
   stored brings the tick's context to the clean one.
   */
  ghost predicate Faithful(s: Session, st: State, h: nat) {
    && Placed(st) && h <= |AllLines(st)|
    && st.db.rows == Clean(s, AllLines(st)[..h]).rows
    && st.db.blocks == Clean(s, AllLines(st)[..h]).blocks
    && (st.tick.Reading? ==>
          && (st.tick.ctx.Some? <==> s.source.Codex?)
          && (st.tick.ctx.Some? && Position(st) <= h ==> Owes(s, AllLines(st), Position(st), h, st.tick.ctx.value)))
  }

  lemma WellFiledPrefix(s: Session, ls: seq<Line>, h: nat)
    requires h <= |ls| && WellFiled(s, ls)
    ensures WellFiled(s, ls[..h])
  {
    RecordsConcat(s, ls[..h], ls[h..]);
    assert ls[..h] + ls[h..] == ls;
  }

  /** The context loaded after a crash is that of all stored lines, and replaying some of them keeps it. */
  lemma ReloadAndReplay(s: Session, ls: seq<Line>, n: nat, h: nat, db: Db)
    requires n <= h <= |ls| && Ordered(ls) && WellFiled(s, ls) && db.rows == Clean(s, ls[..h]).rows
    ensures LoadContext(s, db) == CleanContext(s, ls[..h])
    ensures var held := Fold(Records(s, ls[..h]), s.id); FoldFrom(held, Records(s, ls[n..h]), s.id) == held
  {
    hide Clean, Record, Update;
    WellFiledPrefix(s, ls, h);
    CleanReload(s, ls[..h], db);
    RecordsConcat(s, ls[..n], ls[n..h]);
    assert ls[..n] + ls[n..h] == ls[..h];
    ReplayAbsorbed(Fresh(s.id), Records(s, ls[..n]), Records(s, ls[n..h]), s.id);
  }

  lemma StartIsFaithful(s: Session, st: State, h: nat, k: nat)
    requires Covering(s, st, h, k) && Faithful(s, st, h) && WellFiled(s, AllLines(st))
    ensures Faithful(s, Apply(s, st, StartTick), h)
  {
    hide Clean, FoldFrom, Load, Records, WellFiled;
    OrderedLines(st.file);
    ReloadAndReplay(s, AllLines(st), Position(st), h, st.db);
  }

  lemma RecordsHead(s: Session, ls: seq<Line>, n: nat, h: nat)
    requires n < h <= |ls|
    ensures Records(s, ls[n..h]) ==
            (if Record(s, ls[n].text).Some? then [Record(s, ls[n].text).value] else []) + Records(s, ls[n + 1..h])
  {
    RecordsConcat(s, [ls[n]], ls[n + 1..h]);
    assert [ls[n]] + ls[n + 1..h] == ls[n..h];
    assert [ls[n]][..0] == [];
  }

  lemma OwesSettled(s: Session, ls: seq<Line>, h: nat, ctx: Context)
    requires h <= |ls|
    ensures Owes(s, ls, h, h, ctx) <==> ctx == Fold(Records(s, ls[..h]), s.id)
  {
    assert ls[h..h] == [];
  }

  lemma OwesNextLine(s: Session, ls: seq<Line>, n: nat, h: nat, ctx: Context)
    requires n < h <= |ls|
    ensures Owes(s, ls, n, h, ctx) <==>
            Owes(s, ls, n + 1, h,
                 match Record(s, ls[n].text) case None => ctx case Some(v) => Update(ctx, v, s.id))
  {
    hide Update;
    RecordsHead(s, ls, n, h);
    var r := Record(s, ls[n].text);
    var head := if r.Some? then [r.value] else [];
    FoldConcat(ctx, head, Records(s, ls[n + 1..h]), s.id);
    if r.Some? {
      FoldOne(ctx, r.value, s.id);
    }
  }

  lemma OwesOneMore(s: Session, ls: seq<Line>, h: nat, ctx: Context)
    requires h < |ls| && Owes(s, ls, h, h, ctx)
    ensures Owes(s, ls, h, h + 1, ctx)
  {
    hide Update;
    OwesSettled(s, ls, h, ctx);
    RecordsHead(s, ls, h, h + 1);
    CleanStep(s, ls, h);
    assert ls[h + 1..h + 1] == [];
    FoldConcat(Fresh(s.id), Records(s, ls[..h]), Records(s, ls[h..h + 1]), s.id);
  }

  lemma InsertedRows(s: Session, a: Db, b: Db, v: Json, at: nat, ctx: Option<Context>)
    requires a.rows == b.rows && a.blocks == b.blocks
    ensures InsertEvent(s, a, v, at, ctx).rows == InsertEvent(s, b, v, at, ctx).rows
    ensures InsertEvent(s, a, v, at, ctx).blocks == InsertEvent(s, b, v, at, ctx).blocks
  {
    hide Parse;
  }

  lemma SkipIsFaithful(s: Session, st: State, h: nat, k: nat)
    requires Covering(s, st, h, k) && Faithful(s, st, h) && AtLine(st) && !st.tick.stored
    requires Record(s, Scan(st.tick.buf).lines[st.tick.next].text).None?
    ensures Faithful(s, Apply(s, st, StoreLine), Mark(st, StoreLine, h))
  {
    hide InsertEvent, Update, Owes, Scan, Clean, Record, Records;
    LineAtPosition(st);
    var ls, n := AllLines(st), Position(st);
    CleanStep(s, ls, n);
    if s.source.Codex? {
      if n == h {
        OwesOneMore(s, ls, h, st.tick.ctx.value);
        OwesNextLine(s, ls, h, h + 1, st.tick.ctx.value);
      } else {
        OwesNextLine(s, ls, n, h, st.tick.ctx.value);
      }
    }
  }

  /** The first unstored line is stored with the columns a crash-free run gives it. */
  lemma StoredAsClean(s: Session, ls: seq<Line>, h: nat, db: Db, ctx: Option<Context>)
    requires h < |ls| && Record(s, ls[h].text).Some?
    requires db.rows == Clean(s, ls[..h]).rows && db.blocks == Clean(s, ls[..h]).blocks
    requires ctx == CleanContext(s, ls[..h])
    ensures var after := InsertEvent(s, db, Record(s, ls[h].text).value, ls[h].offset, ctx);
      after.rows == Clean(s, ls[..h + 1]).rows && after.blocks == Clean(s, ls[..h + 1]).blocks
  {
    hide InsertEvent;
    CleanStep(s, ls, h);
    InsertedRows(s, db, Clean(s, ls[..h]), Record(s, ls[h].text).value, ls[h].offset, ctx);
  }

  lemma StoreIsFaithful(s: Session, st: State, h: nat, k: nat)
    requires Covering(s, st, h, k) && Faithful(s, st, h) && AtLine(st) && !st.tick.stored
    requires Record(s, Scan(st.tick.buf).lines[st.tick.next].text).Some?
    ensures Faithful(s, Apply(s, st, StoreLine), Mark(st, StoreLine, h))
  {
    hide InsertEvent, Update, Owes, Records, Clean, Scan, Record;
    LineAtPosition(st);
    OrderedLines(st.file);
    var ls, n := AllLines(st), Position(st);
    InsertedEvent(s, st.db, Record(s, ls[n].text).value, ls[n].offset, st.tick.ctx);
    if n < h {
      StoreAgain(s, ls, n, h, st.db, st.tick.ctx);
    } else {
      if s.source.Codex? {
        OwesSettled(s, ls, h, st.tick.ctx.value);
        OwesOneMore(s, ls, h, st.tick.ctx.value);
      }
      StoredAsClean(s, ls, h, st.db, st.tick.ctx);
    }
  }

  lemma FinishIsFaithful(s: Session, st: State, h: nat, k: nat)
    requires Covering(s, st, h, k) && Faithful(s, st, h) && AtLine(st) && st.tick.stored
    ensures Faithful(s, Apply(s, st, FinishLine), h)
  {
    hide Update, Owes, Clean;
    LineAtPosition(st);
    if s.source.Codex? {
      OwesNextLine(s, AllLines(st), Position(st), h, st.tick.ctx.value);
    }
  }

  lemma AppendIsFaithful(s: Session, st: State, h: nat, k: nat, bytes: Bytes)
    requires Covering(s, st, h, k) && Faithful(s, st, h)
    ensures Faithful(s, Apply(s, st, Append(bytes)), h)
  {
    hide Clean, Records;
    PlacedAfterAppend(st, bytes);
    var after := Apply(s, st, Append(bytes));
    assert AllLines(after)[..h] == AllLines(st)[..h];
    assert AllLines(after)[Position(st)..h] == AllLines(st)[Position(st)..h];
  }

  lemma StepIsFaithful(s: Session, st: State, a: Action, h: nat, k: nat)
    requires Covering(s, st, h, k) && Faithful(s, st, h) && WellFiled(s, AllLines(st))
    ensures Faithful(s, Apply(s, st, a), Mark(st, a, h))
  {
    hide Clean, Owes, InsertEvent, Records, WellFiled;
    match a
    case Append(bytes) => AppendIsFaithful(s, st, h, k, bytes);
    case StartTick => StartIsFaithful(s, st, h, k);
    case StoreLine =>
      if AtLine(st) && !st.tick.stored {
        if Record(s, Scan(st.tick.buf).lines[st.tick.next].text).None? {
          SkipIsFaithful(s, st, h, k);
        } else {
          StoreIsFaithful(s, st, h, k);
        }
      }
    case FinishLine =>
      if AtLine(st) && st.tick.stored {
        FinishIsFaithful(s, st, h, k);
      }
    case Commit =>
      if st.tick.Reading? && !st.tick.stored && st.tick.next == |Scan(st.tick.buf).lines| {
        PlacedAfterCommit(s, st);
      }
    case Crash =>
  }

  /******* Every run *******/

  lemma FileGrows(s: Session, st: State, a: Action)
    ensures AllLines(st) <= AllLines(Apply(s, st, a))
  {
    hide InsertEvent;
    if a.Append? {
      ScanMonotone(st.file, a.bytes);
    }
  }

  lemma {:induction false} RunKeeps(s: Session, schedule: seq<Action>) returns (h: nat, k: nat)
    ensures var st := Run(s, START, schedule);
      Covering(s, st, h, k) && (WellFiled(s, AllLines(st)) ==> Faithful(s, st, h))
  {
    hide InsertEvent, WellFiled, Owes;
    if schedule == [] {
      h, k := 0, 0;
    } else {
      var last := |schedule| - 1;
      var before, a := Run(s, START, schedule[..last]), schedule[last];
      var h0, k0 := RunKeeps(s, schedule[..last]);
      h, k := StepKeepsCovering(s, before, a, h0, k0);
      FileGrows(s, before, a);
      var now := AllLines(Apply(s, before, a));
      if WellFiled(s, now) {
        assert now[..|AllLines(before)|] == AllLines(before);
        WellFiledPrefix(s, now, |AllLines(before)|);
        StepIsFaithful(s, before, a, h0, k0);
      }
    }
  }

  /** The first byte no line below the mark reaches. */
  function EndOf(ls: seq<Line>): nat {
    if ls == [] then 0 else ls[|ls| - 1].offset + |ls[|ls| - 1].text| + 1
  }

  lemma EndIsBoundary(file: Bytes, h: nat)
    requires h <= |Scan(file).lines|
    ensures AtBoundary(file, EndOf(Scan(file).lines[..h]))
    ensures forall i | 0 <= i < |Scan(file).lines| ::
              i < h <==> Scan(file).lines[i].offset < EndOf(Scan(file).lines[..h])
  {
    ScanFindsTheLines(file);
    if h > 0 {
      var ls := Scan(file).lines;
      assert ls[..h][h - 1] == ls[h - 1];
      assert IsLineOf(file, ls[h - 1]);
      if h < |ls| {
        assert IsLineOf(file, ls[h]);
        assert ls[h].offset > ls[h - 1].offset + |ls[h - 1].text|;
      }
    }
  }

  /** Some byte is not a tab, line feed, form feed, carriage return or space. */
  ghost predicate HasText(text: Bytes) { exists b :: b in text && b !in {9, 10, 12, 13, 32} }

  lemma RecordRead(s: Session, text: Bytes)
    ensures Record(s, text) == if HasText(text) then s.env.decode(text) else None
    ensures IsBlank(text) <==> !HasText(text)
  {
  }

  /** The lines of a file that hold more than white space, are JSON, and start below `mark`. */
  ghost predicate StartsDecodableLine(s: Session, file: Bytes, mark: nat, at: nat) {
    at < mark &&
    exists line :: IsLineOf(file, line) && line.offset == at && HasText(line.text) && s.env.decode(line.text).Some?
  }

  lemma CoveredAt(s: Session, file: Bytes, h: nat, at: nat)
    requires h <= |Scan(file).lines|
    ensures at in Clean(s, Scan(file).lines[..h]).rows <==>
            StartsDecodableLine(s, file, EndOf(Scan(file).lines[..h]), at)
  {
    hide Clean, IsLineOf, Scan, Record, EndOf, HasText;
    var ls := Scan(file).lines;
    OrderedLines(file);
    ScanFindsTheLines(file);
    EndIsBoundary(file, h);
    CleanRows(s, ls[..h]);
    if at in Clean(s, ls[..h]).rows {
      var i :| 0 <= i < h && ls[..h][i].offset == at && Record(s, ls[..h][i].text).Some?;
      assert ls[i] == ls[..h][i] && ls[i] in ls;
      RecordRead(s, ls[i].text);
      assert IsLineOf(file, ls[i]);
    }
    if StartsDecodableLine(s, file, EndOf(ls[..h]), at) {
      var line :| IsLineOf(file, line) && line.offset == at && HasText(line.text) && s.env.decode(line.text).Some?;
      RecordRead(s, line.text);
      assert line in ls;
      var i :| 0 <= i < |ls| && ls[i] == line;
      assert ls[..h][i] == line;
    }
  }

  lemma PayloadAt(s: Session, file: Bytes, h: nat, line: Line)
    requires h <= |Scan(file).lines| && IsLineOf(file, line)
    requires line.offset in Clean(s, Scan(file).lines[..h]).rows
    ensures Some(Clean(s, Scan(file).lines[..h]).rows[line.offset].payload) == s.env.decode(line.text)
  {
    hide Clean, IsLineOf, Scan, Record;
    var ls := Scan(file).lines;
    OrderedLines(file);
    ScanFindsTheLines(file);
    CleanRows(s, ls[..h]);
    var i :| 0 <= i < h && ls[..h][i].offset == line.offset && Record(s, ls[..h][i].text).Some?;
    assert line in ls;
    var j :| 0 <= j < |ls| && ls[j] == line;
    assert ls[..h][i] == ls[i];
    assert i == j;
    RecordRead(s, line.text);
  }

  lemma CleanCoverage(s: Session, file: Bytes, h: nat)
    requires h <= |Scan(file).lines|
    ensures var clean := Clean(s, Scan(file).lines[..h]);
      && (forall at :: at in clean.rows <==> StartsDecodableLine(s, file, EndOf(Scan(file).lines[..h]), at))
      && (forall line | IsLineOf(file, line) && line.offset in clean.rows ::
            Some(clean.rows[line.offset].payload) == s.env.decode(line.text))
  {
    hide Clean, IsLineOf, Scan, Record, EndOf, StartsDecodableLine;
    var clean := Clean(s, Scan(file).lines[..h]);
    forall at ensures at in clean.rows <==> StartsDecodableLine(s, file, EndOf(Scan(file).lines[..h]), at) {
      CoveredAt(s, file, h, at);
    }
    forall line | IsLineOf(file, line) && line.offset in clean.rows
      ensures Some(clean.rows[line.offset].payload) == s.env.decode(line.text)
    {
      PayloadAt(s, file, h, line);
    }
  }

  lemma SameEvents(a: map<nat, Row>, b: map<nat, Row>)
    requires Events(a) == Events(b)
    ensures forall at :: at in a <==> at in b
    ensures forall at | at in a :: a[at].payload == b[at].payload && a[at].kind == b[at].kind
  {
    EventsKeys(a);
    EventsKeys(b);
    assert forall at | at in a :: Events(a)[at] == Events(b)[at];
  }

  /**
   Exactly-once coverage, in every reachable state: the offset is a line boundary,
   and for some line boundary at or above it the rows are the starts of the
   lines below that mark that hold more than white space and are JSON, each with its own record.
   */
  lemma ExactlyOnceCoverage(s: Session, schedule: seq<Action>) returns (mark: nat)
    ensures var st := Run(s, START, schedule);
      && AtBoundary(st.file, st.db.offset) && AtBoundary(st.file, mark) && st.db.offset <= mark
      && (forall at :: at in st.db.rows <==> StartsDecodableLine(s, st.file, mark, at))
      && (forall line | IsLineOf(st.file, line) && line.offset in st.db.rows ::
            Some(st.db.rows[line.offset].payload) == s.env.decode(line.text))
  {
    hide Clean, Run, WellFiled, Owes, IsLineOf, Events;
    var st := Run(s, START, schedule);
    var h, k := RunKeeps(s, schedule);
    var ls := AllLines(st);
    mark := EndOf(ls[..h]);
    EndIsBoundary(st.file, h);
    OffsetBelow(st, h);
    CleanCoverage(s, st.file, h);
    SameEvents(st.db.rows, Clean(s, ls[..h]).rows);
  }

  lemma OffsetBelow(st: State, h: nat)
    requires Placed(st) && Position(st) <= h <= |AllLines(st)|
    ensures AtBoundary(st.file, st.db.offset) && st.db.offset <= EndOf(AllLines(st)[..h])
  {
    var before := st.file[..st.db.offset];
    BoundaryIsStart(before);
    TickLines(st);
    ScanEnd(before);
    EndIsBoundary(st.file, h);
    var c := CountBefore(st.file, st.db.offset);
    if 0 < c {
      var ls := AllLines(st);
      assert ls[c - 1] == Scan(before).lines[c - 1];
      ScanFindsTheLines(st.file);
      assert ls[c - 1].offset <= ls[..h][h - 1].offset;
      if c < h {
        assert ls[c - 1].offset < ls[h - 1].offset;
        EndIsBoundary(st.file, c);
        assert ls[..c][c - 1] == ls[c - 1];
      }
    }
  }

  lemma EndOfNext(ls: seq<Line>, line: Line)
    ensures EndOf(ls + [line]) == line.offset + |line.text| + 1
  {
  }

  /** When nothing of a file is unfinished, its last line ends it. */
  lemma ScanEnd(file: Bytes)
    requires Scan(file).start == |file|
    ensures EndOf(Scan(file).lines) == |file|
  {
    hide Scan, EndOf;
    if file == [] {
      NothingScanned();
    } else {
      assert file == file[..|file| - 1] + [file[|file| - 1]];
      LastLineEnds(file[..|file| - 1], file[|file| - 1]);
    }
  }

  lemma LastLineEnds(front: Bytes, byte: Byte)
    requires Scan(front + [byte]).start == |front| + 1
    ensures EndOf(Scan(front + [byte]).lines) == |front| + 1
  {
    hide Scan, EndOf;
    ScanWithin(front);
    ScanSnoc(front, byte);
    var line := Line(Scan(front).start, front[Scan(front).start..]);
    assert byte == NEWLINE;
    EndOfNext(Scan(front).lines, line);
  }

  lemma NothingScanned()
    ensures EndOf(Scan([]).lines) == 0
  {
  }

  /** The offset has reached the last newline of the file. */
  predicate Settled(st: State) { st.db.offset == Scan(st.file).start }

  lemma SettledPosition(s: Session, st: State, h: nat, k: nat)
    requires Covering(s, st, h, k) && Settled(st)
    ensures h == k == |AllLines(st)| && AllLines(st)[..h] == AllLines(st)
  {
    ScanToStart(st.file);
  }

  /** Once settled, the tables are those of a crash-free ingest of the same bytes, whatever happened before. */
  lemma SettledIsClean(s: Session, schedule: seq<Action>)
    requires Settled(Run(s, START, schedule)) && WellFiled(s, AllLines(Run(s, START, schedule)))
    ensures var st := Run(s, START, schedule);
      var clean := Clean(s, AllLines(st));
      st.db.rows == clean.rows && st.db.blocks == clean.blocks && st.db.parent == clean.parent
  {
    hide InsertEvent, WellFiled, Owes;
    var h, k := RunKeeps(s, schedule);
    SettledPosition(s, Run(s, START, schedule), h, k);
  }

  /** Schedule independence: two settled histories of the same file agree on every table. */
  lemma ScheduleIndependence(s: Session, one: seq<Action>, two: seq<Action>)
    requires Run(s, START, one).file == Run(s, START, two).file
    requires Settled(Run(s, START, one)) && Settled(Run(s, START, two))
    requires WellFiled(s, AllLines(Run(s, START, one)))
    ensures Run(s, START, one).db == Run(s, START, two).db
  {
    hide InsertEvent, WellFiled, Owes, Clean;
    SettledIsClean(s, one);
    SettledIsClean(s, two);
  }
}
