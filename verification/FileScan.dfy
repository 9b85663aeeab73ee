/** One pass of the ingester over all transcript files: which it opens, and where it leaves every session. */
module FileScan {
  import opened Wrappers
  import opened Lines
  import opened CodexContext
  import opened Ingester
  import opened Schedule
  import opened TranscriptStore
  import opened Picking

  /** A transcript file that was found, and the session its name gives. */
  datatype Found = Found(session: Session, file: Bytes)

  /** Offsets are looked up by session; a session without one starts at 0. */
  function CommittedOffset(offsets: map<Uuid, nat>, session: Uuid): nat {
    if session in offsets then offsets[session] else 0
  }

  /** The files whose length is not the committed offset, in the order found. */
  function DirtyFiles(found: seq<Found>, offsets: map<Uuid, nat>): seq<Found> {
    if found == [] then []
    else
      var last := found[|found| - 1];
      DirtyFiles(found[..|found| - 1], offsets) +
      if |last.file| != CommittedOffset(offsets, last.session.id) then [last] else []
  }

  /** Exactly the files are listed, in the order found, whose length is not the offset on record, or 0 if there is none. */
  lemma {:induction false} DirtyExactly(found: seq<Found>, offsets: map<Uuid, nat>) returns (at: seq<nat>)
    ensures Picks(found, DirtyFiles(found, offsets), at)
    ensures forall j: nat | j < |found| ::
              j in at <==> (if found[j].session.id in offsets then |found[j].file| != offsets[found[j].session.id]
                            else found[j].file != [])
  {
    hide Picks;
    if found == [] {
      PicksNothing(found);
      at := [];
    } else {
      var front, last := found[..|found| - 1], found[|found| - 1];
      at := DirtyExactly(front, offsets);
      assert found == front + [last];
      PicksNext(front, last, DirtyFiles(front, offsets), at);
      assert DirtyFiles(front, offsets) + [] == DirtyFiles(front, offsets);
      at := if |last.file| != CommittedOffset(offsets, last.session.id) then at + [|front|] else at;
    }
  }

  /** A tick that is not started changes something exactly if the file is dirty; a clean file is settled. */
  lemma StartsExactlyWhenDirty(s: Session, st: State)
    requires Placed(st) && st.tick == Idle
    ensures Apply(s, st, StartTick) != st <==> |st.file| != st.db.offset
    ensures |st.file| == st.db.offset ==> Settled(st)
  {
    hide LoadContext;
    if |st.file| == st.db.offset {
      assert st.file[..st.db.offset] == st.file;
    }
  }

  /** Leaving a clean file alone is the same as reading it. */
  lemma SkippedIsRead(s: Session, file: Bytes, db: Db)
    requires |file| == db.offset
    ensures Run(s, State(file, db, Idle), FullTick(Unread(file, db.offset))) == State(file, db, Idle)
  {
    hide Run, Apply;
    var st := State(file, db, Idle);
    RunStart(s, st);
    RunCommit(s, st, Unread(file, db.offset));
    NothingToRead(s, st);
  }

  /** The tables hold what some history of appends, ticks and crashes over this file left. */
  ghost predicate LeftBy(f: Found, db: Db, history: seq<Action>) {
    var st := Run(f.session, START, history);
    st.file == f.file && st.db == db
  }

  /** A full tick from there leaves the clean tables. */
  lemma TickFromHistory(f: Found, db: Db, history: seq<Action>)
    requires LeftBy(f, db, history) && WellFiled(f.session, Scan(f.file).lines)
    ensures Run(f.session, State(f.file, db, Idle), FullTick(Unread(f.file, db.offset))).db ==
            Clean(f.session, Scan(f.file).lines).(offset := Scan(f.file).start)
  {
    hide Run, Clean, WellFiled, FullTick;
    var st := Run(f.session, START, history);
    OneTickRecovers(f.session, history);
    RunConcat(f.session, START, history + [Crash], FullTick(Unread(st.file, st.db.offset)));
    RunConcat(f.session, START, history, [Crash]);
    RunOne(f.session, st, Crash);
  }

  /**
   A whole pass. Whatever happened to a session before, its tables end as a crash-free
   ingest of its file leaves them, though files at their committed offset are not opened.
   */
  method TickAll(found: seq<Found>, stores: seq<Store>, ghost histories: seq<seq<Action>>)
    requires |found| == |stores| == |histories| && Distinct(stores)
    requires forall i | 0 <= i < |found| :: LeftBy(found[i], stores[i].Contents(), histories[i])
    modifies stores
    ensures forall i | 0 <= i < |found| && WellFiled(found[i].session, Scan(found[i].file).lines) ::
              stores[i].Contents() ==
              Clean(found[i].session, Scan(found[i].file).lines).(offset := Scan(found[i].file).start)
  {
    hide LeftBy, WellFiled, Clean, Run, FullTick, Scan;
    for i := 0 to |found|
      invariant forall j | i <= j < |found| :: LeftBy(found[j], stores[j].Contents(), histories[j])
      invariant forall j | 0 <= j < i && WellFiled(found[j].session, Scan(found[j].file).lines) ::
                  stores[j].Contents() ==
                  Clean(found[j].session, Scan(found[j].file).lines).(offset := Scan(found[j].file).start)
    {
      ghost var was := stores[i].Contents();
      if WellFiled(found[i].session, Scan(found[i].file).lines) {
        TickFromHistory(found[i], was, histories[i]);
      }
      if |found[i].file| != stores[i].offset {
        var inserted, malformed, first := stores[i].ProcessFile(found[i].session, found[i].file);
      } else {
        SkippedIsRead(found[i].session, found[i].file, was);
      }
    }
  }
}
