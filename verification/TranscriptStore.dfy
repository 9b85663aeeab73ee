/**
 One ingester tick as the code runs it: a pass over the bytes past the committed
 offset that updates the tables row by row. It is one particular run of the step
 system, so everything proved of all schedules holds of it.
 */
module TranscriptStore {
  import opened Wrappers
  import opened Lines
  import opened CodexContext
  import opened Ingester
  import opened Schedule

  /** `n` lines, each stored and then finished. */
  function LineActions(n: nat): seq<Action> {
    if n == 0 then [] else LineActions(n - 1) + [StoreLine, FinishLine]
  }

  function TickActions(n: nat): seq<Action> { [StartTick] + LineActions(n) }

  /** A tick that runs to its end over a file with `n` lines past the offset. */
  function FullTick(n: nat): seq<Action> { TickActions(n) + [Commit] }

  /** The complete lines past the committed offset. */
  function Unread(file: Bytes, offset: nat): nat {
    if offset <= |file| then |Scan(file[offset..]).lines| else 0
  }

  lemma {:induction false} RunConcat(s: Session, st: State, a: seq<Action>, b: seq<Action>)
    ensures Run(s, st, a + b) == Run(s, Run(s, st, a), b)
  {
    hide Apply;
    if b == [] {
      assert a + b == a;
    } else {
      var last := |b| - 1;
      assert (a + b)[..|a| + last] == a + b[..last];
      RunConcat(s, st, a, b[..last]);
    }
  }

  lemma RunOne(s: Session, st: State, a: Action)
    ensures Run(s, st, [a]) == Apply(s, st, a)
  {
    hide Apply;
    assert [a][..0] == [];
    assert Run(s, st, [a][..|[a]| - 1]) == st;
  }

  lemma RunLine(s: Session, st: State, n: nat)
    ensures Run(s, st, TickActions(n + 1)) == Apply(s, Apply(s, Run(s, st, TickActions(n)), StoreLine), FinishLine)
  {
    hide Apply;
    assert TickActions(n + 1) == TickActions(n) + [StoreLine] + [FinishLine];
    RunConcat(s, st, TickActions(n) + [StoreLine], [FinishLine]);
    RunConcat(s, st, TickActions(n), [StoreLine]);
    RunOne(s, Run(s, st, TickActions(n)), StoreLine);
    RunOne(s, Run(s, st, TickActions(n) + [StoreLine]), FinishLine);
  }

  lemma RunStart(s: Session, st: State)
    ensures Run(s, st, TickActions(0)) == Apply(s, st, StartTick)
  {
    hide Apply;
    assert TickActions(0) == [StartTick];
    RunOne(s, st, StartTick);
  }

  lemma RunCommit(s: Session, st: State, n: nat)
    ensures Run(s, st, FullTick(n)) == Apply(s, Run(s, st, TickActions(n)), Commit)
  {
    hide Apply;
    RunConcat(s, st, TickActions(n), [Commit]);
    RunOne(s, Run(s, st, TickActions(n)), Commit);
  }

  /** What storing and finishing one line does to the state of a tick. */
  lemma OneLine(s: Session, st: State, text: Bytes, at: nat)
    requires AtLine(st) && !st.tick.stored
    requires Scan(st.tick.buf).lines[st.tick.next] == Line(at, text)
    ensures var after := Apply(s, Apply(s, st, StoreLine), FinishLine);
      match Record(s, text)
      case None => after == st.(tick := st.tick.(next := st.tick.next + 1))
      case Some(v) =>
        var db := InsertEvent(s, st.db, v, st.tick.base + at, st.tick.ctx);
        after == State(st.file, db.(parent := SetParent(s, db.parent, v)),
                       Reading(st.tick.base, st.tick.buf, st.tick.next + 1, false, Advance(s, st.tick.ctx, v)))
  {
    hide InsertEvent, Record, Scan, Advance, SetParent;
  }

  lemma TickLoads(s: Session, st: State)
    requires st.tick == Idle && st.db.offset < |st.file|
    ensures Apply(s, st, StartTick) ==
            st.(tick := Reading(st.db.offset, st.file[st.db.offset..], 0, false, LoadContext(s, st.db)))
  {
    hide LoadContext;
  }

  lemma Committed(s: Session, start: State, st: State)
    requires st.tick.Reading? && !st.tick.stored && st.tick.next == |Scan(st.tick.buf).lines|
    ensures Apply(s, st, Commit) ==
            State(st.file, st.db.(offset := st.tick.base + Scan(st.tick.buf).start), Idle)
  {
  }

  lemma NothingToRead(s: Session, st: State)
    requires st.tick == Idle && |st.file| <= st.db.offset
    ensures Unread(st.file, st.db.offset) == 0
    ensures Apply(s, Apply(s, st, StartTick), Commit) ==
            if |st.file| < st.db.offset then st.(db := st.db.(offset := 0)) else st
  {
    assert |st.file| == st.db.offset ==> st.file[st.db.offset..] == [];
  }

  /** A tick over `start` has dealt with `n` lines and holds this much. */
  ghost predicate Reached(s: Session, start: State, n: nat, db: Db, ctx: Option<Context>) {
    start.db.offset <= |start.file| &&
    Run(s, start, TickActions(n)) ==
    State(start.file, db, Reading(start.db.offset, start.file[start.db.offset..], n, false, ctx))
  }

  lemma ReachedNext(s: Session, start: State, n: nat, db: Db, ctx: Option<Context>, line: Line)
    requires start.db.offset <= |start.file|
    requires n < Unread(start.file, start.db.offset) && Scan(start.file[start.db.offset..]).lines[n] == line
    requires Reached(s, start, n, db, ctx)
    ensures match Record(s, line.text)
      case None => Reached(s, start, n + 1, db, ctx)
      case Some(v) =>
        var stored := InsertEvent(s, db, v, start.db.offset + line.offset, ctx);
        Reached(s, start, n + 1, stored.(parent := SetParent(s, stored.parent, v)), Advance(s, ctx, v))
  {
    hide Run, Apply, InsertEvent, Record, SetParent, TickActions;
    RunLine(s, start, n);
    OneLine(s, Run(s, start, TickActions(n)), line.text, line.offset);
  }

  lemma ReachedStart(s: Session, start: State)
    requires start.tick == Idle && start.db.offset < |start.file|
    ensures Reached(s, start, 0, start.db, LoadContext(s, start.db))
  {
    hide Run, Apply;
    RunStart(s, start);
    TickLoads(s, start);
  }

  lemma ReachedEnd(s: Session, start: State, db: Db, ctx: Option<Context>)
    requires start.db.offset <= |start.file|
    requires Reached(s, start, Unread(start.file, start.db.offset), db, ctx)
    ensures Run(s, start, FullTick(Unread(start.file, start.db.offset))) ==
            State(start.file,
                  db.(offset := start.db.offset + Scan(start.file[start.db.offset..]).start), Idle)
  {
    hide Run, Apply, TickActions;
    RunCommit(s, start, Unread(start.file, start.db.offset));
    Committed(s, start, Run(s, start, TickActions(Unread(start.file, start.db.offset))));
  }

  lemma {:induction false} TickReaches(s: Session, start: State, n: nat) returns (db: Db, ctx: Option<Context>)
    requires start.tick == Idle && start.db.offset < |start.file| && n <= Unread(start.file, start.db.offset)
    ensures Reached(s, start, n, db, ctx) && db.offset == start.db.offset
  {
    hide Reached, InsertEvent, SetParent;
    if n == 0 {
      ReachedStart(s, start);
      db, ctx := start.db, LoadContext(s, start.db);
    } else {
      db, ctx := TickReaches(s, start, n - 1);
      var line := Scan(start.file[start.db.offset..]).lines[n - 1];
      ReachedNext(s, start, n - 1, db, ctx, line);
      var r := Record(s, line.text);
      if r.Some? {
        InsertedEvent(s, db, r.value, start.db.offset + line.offset, ctx);
        db := InsertEvent(s, db, r.value, start.db.offset + line.offset, ctx);
        db := db.(parent := SetParent(s, db.parent, r.value));
        ctx := Advance(s, ctx, r.value);
      }
    }
  }

  /** A tick that is not interrupted brings the offset to the last newline of the file. */
  lemma FullTickSettles(s: Session, st: State)
    requires Placed(st) && st.tick == Idle
    ensures var after := Run(s, st, FullTick(Unread(st.file, st.db.offset)));
      after.file == st.file && Settled(after)
  {
    hide Run, Apply, Reached, FullTick, TickActions;
    var n := Unread(st.file, st.db.offset);
    var before := st.file[..st.db.offset];
    assert before + st.file[st.db.offset..] == st.file;
    if st.db.offset < |st.file| {
      ScanConcat(before, st.file[st.db.offset..]);
      var db, ctx := TickReaches(s, st, n);
      ReachedEnd(s, st, db, ctx);
    } else {
      assert before == st.file;
      NothingToRead(s, st);
      RunCommit(s, st, n);
      RunStart(s, st);
    }
  }

  lemma CleanContextNext(s: Session, ls: seq<Line>, n: nat)
    requires n < |ls|
    ensures CleanContext(s, ls[..n + 1]) ==
            match Record(s, ls[n].text)
            case None => CleanContext(s, ls[..n])
            case Some(v) => Advance(s, CleanContext(s, ls[..n]), v)
  {
    hide InsertEvent, Record, Update, FoldFrom;
    CleanStep(s, ls, n);
    var r := Record(s, ls[n].text);
    var held := Records(s, ls[..n]);
    if r.Some? {
      assert Records(s, ls[..n + 1]) == held + [r.value];
      FoldConcat(Fresh(s.id), held, [r.value], s.id);
      FoldOne(Fold(held, s.id), r.value, s.id);
      assert Fold(held + [r.value], s.id) == Update(Fold(held, s.id), r.value, s.id);
    } else {
      assert Records(s, ls[..n + 1]) == held;
    }
  }

  lemma {:induction false} FirstTickReaches(s: Session, file: Bytes, n: nat)
    requires file != [] && n <= |Scan(file).lines|
    ensures var ls := Scan(file).lines;
      Reached(s, State(file, EMPTY_DB, Idle), n, Clean(s, ls[..n]), CleanContext(s, ls[..n]))
  {
    hide Reached, InsertEvent, SetParent, Record, Scan, Advance;
    var ls, start := Scan(file).lines, State(file, EMPTY_DB, Idle);
    assert file[0..] == file;
    if n == 0 {
      ReachedStart(s, start);
      assert LoadContext(s, EMPTY_DB) == CleanContext(s, ls[..0]) by {
        assert Events(EMPTY_DB.rows) == map[];
        assert Latest(map[], META_KINDS) == None && Latest(map[], TURN_KINDS) == None;
      }
    } else {
      FirstTickReaches(s, file, n - 1);
      ReachedNext(s, start, n - 1, Clean(s, ls[..n - 1]), CleanContext(s, ls[..n - 1]), ls[n - 1]);
      CleanStep(s, ls, n - 1);
      CleanContextNext(s, ls, n - 1);
      var r := Record(s, ls[n - 1].text);
      if r.Some? {
        InsertedEvent(s, Clean(s, ls[..n - 1]), r.value, ls[n - 1].offset, CleanContext(s, ls[..n - 1]));
      }
    }
  }

  lemma {:induction false} CleanOffset(s: Session, ls: seq<Line>)
    ensures Clean(s, ls).offset == 0
  {
    if ls != [] {
      var last := |ls| - 1;
      CleanOffset(s, ls[..last]);
      assert ls[..last + 1] == ls;
      hide Clean, InsertEvent;
      CleanStep(s, ls, last);
      if Record(s, ls[last].text).Some? {
        InsertedEvent(s, Clean(s, ls[..last]), Record(s, ls[last].text).value, ls[last].offset,
                      CleanContext(s, ls[..last]));
      }
    }
  }

  /** The yardstick: one uninterrupted tick over a whole new file stores exactly its clean tables. */
  lemma SingleTickIsClean(s: Session, file: Bytes)
    ensures Run(s, START, [Append(file)] + FullTick(|Scan(file).lines|)) ==
            State(file, Clean(s, Scan(file).lines).(offset := Scan(file).start), Idle)
  {
    hide Reached, Run, Clean, FullTick;
    var start, ls := State(file, EMPTY_DB, Idle), Scan(file).lines;
    RunConcat(s, START, [Append(file)], FullTick(|ls|));
    RunOne(s, START, Append(file));
    assert Apply(s, START, Append(file)) == start;
    assert file[0..] == file && ls[..|ls|] == ls;
    if file == [] {
      NothingToRead(s, start);
      RunStart(s, start);
      RunCommit(s, start, 0);
      assert Clean(s, []) == EMPTY_DB by { EmptyIsClean(s); }
    } else {
      FirstTickReaches(s, file, |ls|);
      ReachedEnd(s, start, Clean(s, ls), CleanContext(s, ls));
    }
  }

  lemma EmptyIsClean(s: Session)
    ensures Clean(s, []) == EMPTY_DB
  {
  }

  lemma RunIsPlaced(s: Session, history: seq<Action>)
    ensures Placed(Run(s, START, history))
  {
    hide Run, WellFiled, Faithful, Placed;
    var h, k := RunKeeps(s, history);
  }

  /** A crash and one full tick leave the file where it was and the offset at its last newline. */
  lemma CrashAndTick(s: Session, history: seq<Action>)
    ensures var st := Run(s, START, history);
      var after := Run(s, START, history + [Crash] + FullTick(Unread(st.file, st.db.offset)));
      after.file == st.file && Settled(after)
  {
    hide Run, FullTick, Unread, Placed, Settled;
    var st := Run(s, START, history);
    var tick := FullTick(Unread(st.file, st.db.offset));
    RunIsPlaced(s, history);
    RunConcat(s, START, history, [Crash]);
    RunOne(s, st, Crash);
    RunConcat(s, START, history + [Crash], tick);
    PlacedAfterCrash(s, st);
    FullTickSettles(s, Apply(s, st, Crash));
  }

  lemma PlacedAfterCrash(s: Session, st: State)
    requires Placed(st)
    ensures var after := Apply(s, st, Crash);
      Placed(after) && after.tick == Idle && after.file == st.file && after.db == st.db
  {
  }

  /**
   Recovery: after any history at all, one crash and one full tick leave exactly
   the tables of a crash-free ingest of the file.
   */
  lemma OneTickRecovers(s: Session, history: seq<Action>)
    requires WellFiled(s, AllLines(Run(s, START, history)))
    ensures var st := Run(s, START, history);
      var after := Run(s, START, history + [Crash] + FullTick(Unread(st.file, st.db.offset)));
      && after.file == st.file
      && after.db == Clean(s, AllLines(st)).(offset := Scan(st.file).start)
      && after.db == Run(s, START, [Append(st.file)] + FullTick(|AllLines(st)|)).db
  {
    hide Clean, WellFiled, Run, FullTick, Unread, Scan;
    var st := Run(s, START, history);
    var tick := FullTick(Unread(st.file, st.db.offset));
    SingleTickIsClean(s, st.file);
    CrashAndTick(s, history);
    SettledIsClean(s, history + [Crash] + tick);
  }

  /** The next byte of a pass: it ends the current line exactly when it is a newline. */
  lemma ScanNext(buf: Bytes, i: nat)
    requires i < |buf|
    ensures Scan(buf[..i]).start <= i
    ensures Scan(buf[..i + 1]) ==
            if buf[i] == NEWLINE
            then Scanned(Scan(buf[..i]).lines + [Line(Scan(buf[..i]).start, buf[Scan(buf[..i]).start..i])], i + 1)
            else Scan(buf[..i])
    ensures buf[i] == NEWLINE ==>
              var n := |Scan(buf[..i]).lines|;
              n < |Scan(buf).lines| && Scan(buf).lines[n] == Line(Scan(buf[..i]).start, buf[Scan(buf[..i]).start..i])
  {
    assert buf[..i + 1] == buf[..i] + [buf[i]];
    ScanSnoc(buf[..i], buf[i]);
    assert buf[..i][Scan(buf[..i]).start..] == buf[Scan(buf[..i]).start..i];
    hide Scan;
    ScanMonotone(buf[..i + 1], buf[i + 1..]);
    assert buf[..i + 1] + buf[i + 1..] == buf;
  }

  /** `count` keys were added, the least of them `first`. */
  ghost predicate Counted(was: set<nat>, now: set<nat>, count: nat, first: Option<nat>) {
    && was <= now && |now - was| == count
    && (first.Some? <==> count > 0)
    && (first.Some? ==> first.value in now - was && forall o | o in now - was :: first.value <= o)
  }

  lemma CountedNext(was: set<nat>, now: set<nat>, count: nat, first: Option<nat>, at: nat)
    requires Counted(was, now, count, first) && (first.Some? ==> first.value < at)
    ensures at in now ==> now + {at} == now
    ensures at !in now ==> Counted(was, now + {at}, count + 1, if first.None? then Some(at) else first)
  {
    if at in now {
      assert now + {at} == now;
    } else {
      assert now + {at} - was == (now - was) + {at};
    }
  }

  /******* The tables, and the code that fills them *******/

  datatype InsertError = ParseFailed

  /** The lines that are neither blank nor JSON. */
  function Malformed(s: Session, ls: seq<Line>): nat {
    if ls == [] then 0
    else
      var text := ls[|ls| - 1].text;
      Malformed(s, ls[..|ls| - 1]) + if !IsBlank(text) && Record(s, text).None? then 1 else 0
  }

  /** The lines that hold more than white space and are not JSON. */
  ghost function NotJson(s: Session, ls: seq<Line>): set<Line> {
    set line | line in ls && HasText(line.text) && s.env.decode(line.text).None?
  }

  /** Of lines that are all different, each malformed one counts once. */
  lemma {:induction false} MalformedCounted(s: Session, ls: seq<Line>)
    requires Ordered(ls)
    ensures Malformed(s, ls) == |NotJson(s, ls)|
  {
    hide IsBlank, Record, HasText, Malformed, NotJson;
    if ls == [] {
      NoneMalformed(s);
    } else {
      var front, last := ls[..|ls| - 1], ls[|ls| - 1];
      assert ls == front + [last] && last !in front;
      MalformedCounted(s, front);
      RecordRead(s, last.text);
      OneMoreMalformed(s, front, last);
      MalformedNext(s, front, last);
    }
  }

  lemma NoneMalformed(s: Session)
    ensures Malformed(s, []) == 0 && NotJson(s, []) == {}
  {
  }

  lemma OneMoreMalformed(s: Session, front: seq<Line>, last: Line)
    requires last !in front
    ensures NotJson(s, front + [last]) ==
            NotJson(s, front) + if HasText(last.text) && s.env.decode(last.text).None? then {last} else {}
    ensures last !in NotJson(s, front)
  {
    hide HasText;
  }

  /** The running totals of a pass over the bytes past the offset. */
  datatype Totals = Totals(inserted: nat, malformed: nat, first: Option<nat>)

  /** A pass that has looked at `i` bytes past the offset of `start`. */
  ghost predicate Midway(
    s: Session, start: State, i: nat, lineStart: nat, db: Db, ctx: Option<Context>, totals: Totals)
  {
    && start.db.offset <= |start.file|
    && var buf := start.file[start.db.offset..];
    && i <= |buf|
    && lineStart == Scan(buf[..i]).start
    && Reached(s, start, |Scan(buf[..i]).lines|, db, ctx)
    && Counted(start.db.rows.Keys, db.rows.Keys, totals.inserted, totals.first)
    && (totals.first.Some? ==> totals.first.value < start.db.offset + lineStart)
    && totals.malformed == Malformed(s, Scan(buf[..i]).lines)
  }

  /** The tables, the context and the totals after one more line. */
  function AfterLine(s: Session, db: Db, ctx: Option<Context>, at: nat, line: Bytes): (Db, Option<Context>) {
    match Record(s, line)
    case None => (db, ctx)
    case Some(v) =>
      var stored := InsertEvent(s, db, v, at, ctx);
      (stored.(parent := SetParent(s, stored.parent, v)), Advance(s, ctx, v))
  }

  function TotalsAfter(s: Session, db: Db, at: nat, line: Bytes, t: Totals): Totals {
    match Record(s, line)
    case None => if IsBlank(line) then t else t.(malformed := t.malformed + 1)
    case Some(v) =>
      if at in db.rows then t
      else Totals(t.inserted + 1, t.malformed, if t.first.None? then Some(at) else t.first)
  }

  lemma MidwayStart(s: Session, start: State)
    requires start.tick == Idle && start.db.offset < |start.file|
    ensures Midway(s, start, 0, 0, start.db, LoadContext(s, start.db), Totals(0, 0, None))
  {
    hide Reached, LoadContext;
    ReachedStart(s, start);
    assert start.file[start.db.offset..][..0] == [];
  }

  lemma MidwayByte(
    s: Session, start: State, i: nat, lineStart: nat, db: Db, ctx: Option<Context>, totals: Totals)
    requires Midway(s, start, i, lineStart, db, ctx, totals)
    requires start.db.offset + i < |start.file| && start.file[start.db.offset + i] != NEWLINE
    ensures Midway(s, start, i + 1, lineStart, db, ctx, totals)
  {
    hide Reached, Counted, Malformed, Scan;
    ScanNext(start.file[start.db.offset..], i);
  }

  lemma LineAdded(s: Session, was: set<nat>, db: Db, ctx: Option<Context>, at: nat, line: Bytes, t: Totals)
    requires Counted(was, db.rows.Keys, t.inserted, t.first) && (t.first.Some? ==> t.first.value < at)
    ensures var t', db' := TotalsAfter(s, db, at, line, t), AfterLine(s, db, ctx, at, line).0;
      && Counted(was, db'.rows.Keys, t'.inserted, t'.first)
      && (t'.first.Some? ==> t'.first.value <= at)
  {
    hide InsertEvent, SetParent, Advance, Record, Counted;
    CountedNext(was, db.rows.Keys, t.inserted, t.first, at);
    if Record(s, line).Some? {
      InsertedKey(s, db, Record(s, line).value, at, ctx);
    }
  }

  lemma MalformedNext(s: Session, ls: seq<Line>, line: Line)
    ensures Malformed(s, ls + [line]) ==
            Malformed(s, ls) + if !IsBlank(line.text) && Record(s, line.text).None? then 1 else 0
  {
    assert (ls + [line])[..|ls|] == ls;
  }

  lemma MidwayLine(
    s: Session, start: State, i: nat, lineStart: nat, db: Db, ctx: Option<Context>, totals: Totals)
    requires Midway(s, start, i, lineStart, db, ctx, totals)
    requires start.db.offset + i < |start.file| && start.file[start.db.offset + i] == NEWLINE
    ensures lineStart <= i
    ensures var line := start.file[start.db.offset + lineStart..start.db.offset + i];
      var at := start.db.offset + lineStart;
      var (db', ctx') := AfterLine(s, db, ctx, at, line);
      Midway(s, start, i + 1, i + 1, db', ctx', TotalsAfter(s, db, at, line, totals))
  {
    hide Reached, Counted, Malformed, Scan, InsertEvent, SetParent, Advance, Record, IsBlank;
    var buf := start.file[start.db.offset..];
    ScanNext(buf, i);
    var line, at := buf[lineStart..i], start.db.offset + lineStart;
    assert line == start.file[at..start.db.offset + i];
    ReachedNext(s, start, |Scan(buf[..i]).lines|, db, ctx, Line(lineStart, line));
    LineAdded(s, start.db.rows.Keys, db, ctx, at, line, totals);
    MalformedNext(s, Scan(buf[..i]).lines, Line(lineStart, line));
    RecordOfBlank(s, line);
  }

  lemma NothingCounted(s: Session, keys: set<nat>)
    ensures Counted(keys, keys, 0, None) && Malformed(s, Scan([]).lines) == 0
  {
  }

  /** What a pass over nothing amounts to. */
  lemma NothingRead(s: Session, start: State)
    requires start.tick == Idle && |start.file| <= start.db.offset
    ensures Run(s, start, FullTick(Unread(start.file, start.db.offset))) ==
            if |start.file| < start.db.offset then start.(db := start.db.(offset := 0)) else start
    ensures Counted(start.db.rows.Keys, start.db.rows.Keys, 0, None)
    ensures start.db.offset <= |start.file| ==> NotJson(s, Scan(start.file[start.db.offset..]).lines) == {}
  {
    hide HasText, Run, Apply, FullTick, TickActions, Counted;
    RunStart(s, start);
    RunCommit(s, start, Unread(start.file, start.db.offset));
    NothingToRead(s, start);
    NothingCounted(s, start.db.rows.Keys);
    assert start.db.offset <= |start.file| ==> start.file[start.db.offset..] == [];
  }

  /** What a pass over all bytes past the offset amounts to. */
  lemma PassEnds(
    s: Session, start: State, lineStart: nat, db: Db, ctx: Option<Context>, totals: Totals)
    requires start.db.offset <= |start.file|
    requires Midway(s, start, |start.file| - start.db.offset, lineStart, db, ctx, totals)
    ensures Run(s, start, FullTick(Unread(start.file, start.db.offset))) ==
            State(start.file, db.(offset := start.db.offset + lineStart), Idle)
    ensures Counted(start.db.rows.Keys, db.rows.Keys, totals.inserted, totals.first)
    ensures totals.malformed == |NotJson(s, Scan(start.file[start.db.offset..]).lines)|
  {
    hide Run, FullTick, Midway, Malformed, Counted, Scan, NotJson, Ordered, Unread;
    MidwayEnd(s, start, lineStart, db, ctx, totals);
    OrderedLines(start.file[start.db.offset..]);
    MalformedCounted(s, Scan(start.file[start.db.offset..]).lines);
  }

  lemma RecordOfBlank(s: Session, text: Bytes)
    ensures IsBlank(text) ==> Record(s, text).None?
  {
  }

  lemma MidwayEnd(
    s: Session, start: State, lineStart: nat, db: Db, ctx: Option<Context>, totals: Totals)
    requires start.db.offset <= |start.file|
    requires Midway(s, start, |start.file| - start.db.offset, lineStart, db, ctx, totals)
    ensures Run(s, start, FullTick(Unread(start.file, start.db.offset))) ==
            State(start.file, db.(offset := start.db.offset + lineStart), Idle)
    ensures Counted(start.db.rows.Keys, db.rows.Keys, totals.inserted, totals.first)
    ensures totals.malformed == Malformed(s, Scan(start.file[start.db.offset..]).lines)
  {
    hide Reached, Counted, Malformed, Scan, Run, FullTick;
    var buf := start.file[start.db.offset..];
    assert buf[..|buf|] == buf;
    ReachedEnd(s, start, db, ctx);
  }

  lemma InsertedKey(s: Session, db: Db, v: Json, at: nat, ctx: Option<Context>)
    ensures InsertEvent(s, db, v, at, ctx).rows.Keys == db.rows.Keys + {at}
  {
    hide Parse, MakeRow;
  }

  /**
   What becomes of one line. White space is skipped, and what is not JSON is reported, both
   without a change. A record gets a row unless there is one at `at`; no other row changes. The
   context moves either way, and a missing parent link is set to what the record points at.
   */
  ghost predicate LineHandled(
    s: Session, was: Db, ctx: Option<Context>, at: nat, line: Bytes,
    inserted: Result<bool, InsertError>, now: Db, next: Option<Context>)
  {
    if !HasText(line) then inserted == Ok(false) && now == was && next == ctx
    else match s.env.decode(line)
      case None => inserted == Err(ParseFailed) && now == was && next == ctx
      case Some(v) =>
        && inserted == Ok(at !in was.rows)
        && (at in was.rows ==> now.rows == was.rows && now.blocks == was.blocks)
        && (at !in was.rows ==>
              && at in now.rows && now.rows == was.rows[at := now.rows[at]]
              && now.rows[at].payload == v && now.rows[at].stamp == s.env.stamp(v))
        && now.parent == (if was.parent.Some? then was.parent else DetectParent(s, v))
        && next == (if ctx.Some? then Some(Update(ctx.value, v, s.id)) else None)
        && now.offset == was.offset
  }

  class Store {
    var rows: map<nat, Row>
    var blocks: map<(nat, int), Block>
    var parent: Option<Uuid>
    var offset: nat

    function Contents(): Db
      reads this
    {
      Db(rows, blocks, parent, offset)
    }

    constructor ()
      ensures Contents() == EMPTY_DB
    {
      rows, blocks, parent, offset := map[], map[], None, 0;
    }

    /** The newest stored Codex record whose kind is one of `kinds`. */
    method LatestRecord(kinds: set<string>) returns (found: Option<Json>)
      ensures found == Latest(Events(rows), kinds)
    {
      var todo := rows.Keys;
      var best: Option<nat> := None;
      while todo != {}
        invariant todo <= rows.Keys
        invariant best.Some? ==>
                    && best.value in rows.Keys - todo
                    && rows[best.value].agent == "codex" && rows[best.value].kind in kinds
        invariant forall o | o in rows.Keys - todo && rows[o].agent == "codex" && rows[o].kind in kinds ::
                    best.Some? && o <= best.value
        decreases todo
      {
        var o :| o in todo;
        todo := todo - {o};
        if rows[o].agent == "codex" && rows[o].kind in kinds && (best.None? || best.value < o) {
          best := Some(o);
        }
      }
      if best.Some? {
        assert IsLatest(Events(rows), kinds, best.value);
        return Some(rows[best.value].payload);
      }
      assert forall o :: !IsLatest(Events(rows), kinds, o);
      return None;
    }

    method LoadCodexContext(session: Uuid) returns (ctx: Context)
      ensures ctx == Load(Events(rows), session)
    {
      hide Update;
      ctx := Fresh(session);
      var meta := LatestRecord(META_KINDS);
      if meta.Some? {
        ctx := Update(ctx, meta.value, session);
      }
      var turn := LatestRecord(TURN_KINDS);
      if turn.Some? {
        ctx := Update(ctx, turn.value, session);
      }
    }

    method LoadTickContext(s: Session) returns (ctx: Option<Context>)
      ensures ctx == LoadContext(s, Contents())
    {
      ctx := None;
      if s.source.Codex? {
        var loaded := LoadCodexContext(s.id);
        ctx := Some(loaded);
      }
    }

    method InsertBlocksOf(at: nat, bs: seq<Block>)
      modifies this`blocks
      ensures blocks == InsertBlocks(old(blocks), at, bs)
    {
      for i := 0 to |bs|
        invariant blocks == InsertBlocks(old(blocks), at, bs[..i])
      {
        blocks := blocks[(at, bs[i].ord) := bs[i]];
        assert bs[..i + 1][..i] == bs[..i];
      }
      assert bs[..|bs|] == bs;
    }

    /**
     One line: the row unless it is there already, then the context and the parent
     link. A blank line is skipped silently, a malformed one reported.
     */
    method InsertLine(s: Session, at: nat, line: Bytes, ctx: Option<Context>)
      returns (inserted: Result<bool, InsertError>, next: Option<Context>)
      modifies this
      ensures LineHandled(s, old(Contents()), ctx, at, line, inserted, Contents(), next)
      ensures inserted == Err(ParseFailed) <==> !IsBlank(line) && Record(s, line).None?
      ensures inserted == Ok(true) <==> Record(s, line).Some? && at !in old(rows)
      ensures (Contents(), next) == AfterLine(s, old(Contents()), ctx, at, line)
    {
      hide Parse, Update, DetectParent, HasText;
      RecordRead(s, line);
      next := ctx;
      if IsBlank(line) {
        return Ok(false), next;
      }
      var decoded := s.env.decode(line);
      if decoded.None? {
        return Err(ParseFailed), next;
      }
      var v := decoded.value;
      var parsed := Parse(s, s.source.AgentId(), v, at, ctx);
      inserted := Ok(at !in rows);
      if at !in rows {
        rows := rows[at := MakeRow(s, v, at, ctx)];
        InsertBlocksOf(at, parsed.blocks);
      }
      next := Advance(s, ctx, v);
      if parent.None? {
        parent := DetectParent(s, v);
      }
    }

    /**
     Read the file from the committed offset, store every complete line, and move
     the offset past the last of them. `first` is the first offset that got a row.
     */
    method ProcessFile(s: Session, file: Bytes) returns (insertedCount: nat, parseErrors: nat, first: Option<nat>)
      modifies this
      ensures State(file, Contents(), Idle) ==
              Run(s, State(file, old(Contents()), Idle), FullTick(Unread(file, old(offset))))
      ensures Counted(old(rows.Keys), rows.Keys, insertedCount, first)
      ensures old(offset) <= |file| ==>
                parseErrors == |NotJson(s, Scan(file[old(offset)..]).lines)|
      ensures |file| < old(offset) ==> offset == 0 && rows == old(rows) && blocks == old(blocks) && parent == old(parent)
    {
      hide Run, Apply, Record, FullTick, TickActions, Midway, Scan, Malformed, AfterLine, Counted, LoadContext, HasText,
           IsBlank, NotJson, Ordered, Unread, LineHandled;
      ghost var start := State(file, Contents(), Idle);
      insertedCount, parseErrors, first := 0, 0, None;
      if |file| <= offset {
        NothingRead(s, start);
        if |file| < offset {
          offset := 0;
        }
        return;
      }
      var base, buf := offset, file[offset..];
      var ctx := LoadTickContext(s);
      var lineStart, i := 0, 0;
      MidwayStart(s, start);
      while i < |buf|
        invariant i <= |buf| && lineStart <= i
        invariant Midway(s, start, i, lineStart, Contents(), ctx, Totals(insertedCount, parseErrors, first))
      {
        if buf[i] != NEWLINE {
          MidwayByte(s, start, i, lineStart, Contents(), ctx, Totals(insertedCount, parseErrors, first));
        } else {
          MidwayLine(s, start, i, lineStart, Contents(), ctx, Totals(insertedCount, parseErrors, first));
          var line, at := buf[lineStart..i], base + lineStart;
          assert line == file[base + lineStart..base + i];
          var inserted;
          inserted, ctx := InsertLine(s, at, line, ctx);
          if inserted == Ok(true) {
            insertedCount := insertedCount + 1;
            first := if first.None? then Some(at) else first;
          } else if inserted == Err(ParseFailed) {
            parseErrors := parseErrors + 1;
          }
          lineStart := i + 1;
        }
        i := i + 1;
      }
      PassEnds(s, start, lineStart, Contents(), ctx, Totals(insertedCount, parseErrors, first));
      offset := base + lineStart;
    }
  }

  ghost predicate Distinct(stores: seq<Store>) {
    forall i, j | 0 <= i < j < |stores| :: stores[i] != stores[j]
  }
}
