/**
 Rebuilding the derived columns and blocks from the stored payloads, as the admin
 reindex and the startup repair do.
 */
module Reindex {
  import opened Wrappers
  import opened Lines
  import opened CodexContext
  import opened Ingester
  import opened Schedule
  import opened TranscriptStore

  const BLANK := Columns(None, None, None, None, None, false, false, None, "")

  /** The blocks of one event. */
  function BlocksAt(blocks: map<(nat, int), Block>, at: nat): map<(nat, int), Block> {
    map k | k in blocks && k.0 == at :: blocks[k]
  }

  /**
   Whether the repair query selects a row with these blocks; the last case is old
   block shapes of non-Codex rows.
   */
  predicate NeedsBackfill(row: Row, blocks: map<(nat, int), Block>) {
    || row.cols.speaker.None?
    || row.cols.contentKind.None?
    || (row.cols.contentKind != Some("none") && blocks == map[])
    || (row.agent != "codex" && exists k | k in blocks :: IsLegacy(blocks[k], row.payload))
  }

  /** The SQL operator `?` on a JSONB value. */
  predicate Mentions(v: Json, key: string) {
    match v
    case Obj(fields) => key in fields
    case Arr(items) => Str(key) in items
    case Str(text) => text == key
    case _ => false
  }

  predicate IsLegacy(b: Block, payload: Json) {
    || (b.kind == "tool_result" && b.toolOutput.None? && Mentions(payload, "toolUseResult"))
    || (b.kind == "tool_use" && b.toolNameCanonical in {Some("edit"), Some("multi_edit")} &&
        b.toolInput.Some? && !Mentions(b.toolInput.value, "file_edits"))
  }

  /** The member test of JSONB: a key of an object, a text in a list, or the text itself. */
  predicate HasMember(v: Json, key: string) {
    (v.Obj? && key in v.fields) || (v.Arr? && Str(key) in v.items) || v == Str(key)
  }

  /** A tool result stored before outputs were, or an edit stored before its file edits were. */
  predicate OldShape(b: Block, payload: Json) {
    || (b.kind == "tool_result" && b.toolOutput == None && HasMember(payload, "toolUseResult"))
    || (b.kind == "tool_use" && (b.toolNameCanonical == Some("edit") || b.toolNameCanonical == Some("multi_edit")) &&
        b.toolInput.Some? && !HasMember(b.toolInput.value, "file_edits"))
  }

  /**
   A row the repair is to reach: one without a speaker or a content kind, one that has content
   but no block, and a row that is not Codex's with a block of an old shape.
   */
  ghost predicate Stale(db: Db, at: nat)
    requires at in db.rows
  {
    var row := db.rows[at];
    || row.cols.speaker == None || row.cols.contentKind == None
    || (row.cols.contentKind != Some("none") && forall k | k in db.blocks :: k.0 != at)
    || (row.agent != "codex" && exists k :: k in db.blocks && k.0 == at && OldShape(db.blocks[k], row.payload))
  }

  /** The query selects exactly the stale rows. */
  lemma SelectedExactly(db: Db, at: nat)
    requires at in db.rows
    ensures NeedsBackfill(db.rows[at], BlocksAt(db.blocks, at)) <==> Stale(db, at)
  {
    var row, own := db.rows[at], BlocksAt(db.blocks, at);
    assert own == map[] <==> forall k | k in db.blocks :: k.0 != at by {
      if k :| k in db.blocks && k.0 == at {
        assert k in own;
      }
    }
    forall b: Block ensures IsLegacy(b, row.payload) <==> OldShape(b, row.payload) {
      LegacyIsOld(b, row.payload);
    }
    hide IsLegacy, OldShape;
    if exists k :: k in db.blocks && k.0 == at && OldShape(db.blocks[k], row.payload) {
      var k :| k in db.blocks && k.0 == at && OldShape(db.blocks[k], row.payload);
      assert k in own && IsLegacy(own[k], row.payload);
    }
  }

  lemma LegacyIsOld(b: Block, payload: Json)
    ensures IsLegacy(b, payload) <==> OldShape(b, payload)
  {
  }

  function Rewritten(s: Session, row: Row, at: nat, ctx: Option<Context>): Row {
    row.(cols := Derived(s, Parse(s, row.agent, row.payload, at, ctx)))
  }

  /** The columns and blocks a clean ingest of the records `vs` gives the one at index `j`. */
  ghost predicate CleanAt(s: Session, db: Db, offs: seq<nat>, vs: seq<Json>, j: nat)
    requires j < |offs| == |vs|
  {
    var ctx := ContextAt(s, vs, j);
    && offs[j] in db.rows
    && db.rows[offs[j]] == MakeRow(s, vs[j], offs[j], ctx)
    && BlocksAt(db.blocks, offs[j]) ==
       InsertBlocks(map[], offs[j], Parse(s, s.source.AgentId(), vs[j], offs[j], ctx).blocks)
  }

  function ContextAt(s: Session, vs: seq<Json>, j: nat): Option<Context>
    requires j <= |vs|
  {
    if s.source.Codex? then Some(Fold(vs[..j], s.id)) else None
  }

  /** The row at index `j` is clean, or the repair will select it and no foreign block is in its way. */
  ghost predicate Repairable(s: Session, db: Db, offs: seq<nat>, vs: seq<Json>, j: nat)
    requires j < |offs| == |vs|
  {
    || CleanAt(s, db, offs, vs, j)
    || (var ctx := ContextAt(s, vs, j);
        var clean := MakeRow(s, vs[j], offs[j], ctx);
        && offs[j] in db.rows
        && db.rows[offs[j]].(cols := clean.cols) == clean
        && NeedsBackfill(db.rows[offs[j]], BlocksAt(db.blocks, offs[j]))
        && BlocksAt(db.blocks, offs[j]).Keys <=
           InsertBlocks(map[], offs[j], Parse(s, s.source.AgentId(), vs[j], offs[j], ctx).blocks).Keys)
  }

  function Elements(offs: seq<nat>): set<nat> { set o | o in offs }

  ghost predicate Enumerates(offs: seq<nat>, rows: map<nat, Row>) {
    Increasing(offs) && rows.Keys == Elements(offs)
  }

  /** Every row is as a clean ingest stored it. */
  ghost predicate AllClean(s: Session, db: Db, offs: seq<nat>, vs: seq<Json>) {
    && |offs| == |vs| && Enumerates(offs, db.rows)
    && (forall k | k in db.blocks :: k.0 in offs)
    && forall j | 0 <= j < |offs| :: CleanAt(s, db, offs, vs, j)
  }

  /******* Blocks *******/

  lemma {:induction false} InsertBlocksAdds(table: map<(nat, int), Block>, at: nat, bs: seq<Block>)
    ensures InsertBlocks(table, at, bs) == table + InsertBlocks(map[], at, bs)
    ensures forall k | k in InsertBlocks(map[], at, bs) :: k.0 == at
  {
    if bs != [] {
      InsertBlocksAdds(table, at, bs[..|bs| - 1]);
    }
  }

  lemma BlocksAfterInsert(table: map<(nat, int), Block>, at: nat, bs: seq<Block>)
    requires BlocksAt(table, at).Keys <= InsertBlocks(map[], at, bs).Keys
    ensures BlocksAt(InsertBlocks(table, at, bs), at) == InsertBlocks(map[], at, bs)
    ensures forall o | o != at :: BlocksAt(InsertBlocks(table, at, bs), o) == BlocksAt(table, o)
    ensures forall k | k in InsertBlocks(table, at, bs) :: k in table || k.0 == at
  {
    InsertBlocksAdds(table, at, bs);
    hide InsertBlocks;
    var added := InsertBlocks(map[], at, bs);
    forall o | o != at ensures BlocksAt(table + added, o) == BlocksAt(table, o) {
      assert forall k :: k in table + added && k.0 == o ==> k in table && k !in added;
    }
    assert forall k :: k in table && k.0 == at ==> k in BlocksAt(table, at);
    assert forall k :: k in BlocksAt(table + added, at) <==> k in added;
  }

  /******* Clean ingests are clean *******/

  lemma CleanAtKept(s: Session, a: Db, b: Db, offs: seq<nat>, vs: seq<Json>,
                                       offs': seq<nat>, vs': seq<Json>, j: nat)
    requires j < |offs| == |vs| && j < |offs'| == |vs'|
    requires offs'[j] == offs[j] && vs'[j] == vs[j] && vs'[..j] == vs[..j]
    requires offs[j] in a.rows && offs[j] in b.rows && a.rows[offs[j]] == b.rows[offs[j]]
    requires BlocksAt(a.blocks, offs[j]) == BlocksAt(b.blocks, offs[j])
    ensures CleanAt(s, a, offs, vs, j) <==> CleanAt(s, b, offs', vs', j)
  {
    hide MakeRow, Parse, FoldFrom;
  }

  lemma RecordsSnoc(s: Session, ls: seq<Line>)
    requires ls != []
    ensures var last := |ls| - 1;
      match Record(s, ls[last].text)
      case None => Offsets(s, ls) == Offsets(s, ls[..last]) && Records(s, ls) == Records(s, ls[..last])
      case Some(v) =>
        Offsets(s, ls) == Offsets(s, ls[..last]) + [ls[last].offset] && Records(s, ls) == Records(s, ls[..last]) + [v]
  {
    hide Record;
    var last := |ls| - 1;
    if Record(s, ls[last].text).None? {
      assert Offsets(s, ls[..last]) + [] == Offsets(s, ls[..last]);
      assert Records(s, ls[..last]) + [] == Records(s, ls[..last]);
    }
  }

  lemma EmptyIsAllClean(s: Session)
    ensures AllClean(s, EMPTY_DB, [], [])
  {
  }

  lemma {:induction false} CleanIsClean(s: Session, ls: seq<Line>)
    requires Ordered(ls)
    ensures AllClean(s, Clean(s, ls), Offsets(s, ls), Records(s, ls))
  {
    if ls == [] {
      EmptyIsAllClean(s);
    } else {
      hide Clean, InsertEvent, Records, Offsets, Record, CleanAt, AllClean, SetParent, FoldFrom;
      var last := |ls| - 1;
      CleanIsClean(s, ls[..last]);
      assert ls[..last + 1] == ls;
      RecordsSnoc(s, ls);
      CleanStep(s, ls, last);
      var before := Clean(s, ls[..last]);
      var offs, vs := Offsets(s, ls[..last]), Records(s, ls[..last]);
      var r := Record(s, ls[last].text);
      if r.Some? {
        OffsetsIncrease(s, ls);
        UnstoredLine(s, ls, last, before);
        assert vs[..|vs|] == vs;
        CleanGrows(s, before, offs, vs, r.value, ls[last].offset);
        CleanDoesNotSeeParent(s, InsertEvent(s, before, r.value, ls[last].offset, CleanContext(s, ls[..last])),
                              Clean(s, ls), offs + [ls[last].offset], vs + [r.value]);
      }
    }
  }

  lemma CleanDoesNotSeeParent(s: Session, a: Db, b: Db, offs: seq<nat>, vs: seq<Json>)
    requires a.rows == b.rows && a.blocks == b.blocks && AllClean(s, a, offs, vs)
    ensures AllClean(s, b, offs, vs)
  {
    hide MakeRow, Parse, FoldFrom, CleanAt;
    forall j | 0 <= j < |offs| ensures CleanAt(s, b, offs, vs, j) {
      CleanAtKept(s, a, b, offs, vs, offs, vs, j);
    }
  }

  lemma InsertedBlocks(s: Session, db: Db, v: Json, at: nat, ctx: Option<Context>)
    requires at !in db.rows
    ensures InsertEvent(s, db, v, at, ctx).blocks ==
            InsertBlocks(db.blocks, at, Parse(s, s.source.AgentId(), v, at, ctx).blocks)
  {
    hide Parse, MakeRow, InsertBlocks;
  }

  lemma NoBlocksYet(s: Session, db: Db, offs: seq<nat>, vs: seq<Json>, at: nat)
    requires AllClean(s, db, offs, vs) && at !in db.rows
    ensures BlocksAt(db.blocks, at) == map[]
  {
    hide CleanAt;
  }

  lemma CleanGrows(s: Session, db: Db, offs: seq<nat>, vs: seq<Json>, v: Json, at: nat)
    requires AllClean(s, db, offs, vs) && at !in db.rows && Increasing(offs + [at])
    ensures AllClean(s, InsertEvent(s, db, v, at, ContextAt(s, vs, |vs|)), offs + [at], vs + [v])
  {
    hide MakeRow, Parse, InsertEvent, FoldFrom, CleanAt, InsertBlocks, BlocksAt, ContextAt;
    var ctx := ContextAt(s, vs, |vs|);
    var after := InsertEvent(s, db, v, at, ctx);
    var bs := Parse(s, s.source.AgentId(), v, at, ctx).blocks;
    InsertedRow(s, db, v, at, ctx);
    InsertedBlocks(s, db, v, at, ctx);
    NoBlocksYet(s, db, offs, vs, at);
    BlocksAfterInsert(db.blocks, at, bs);
    var offs', vs' := offs + [at], vs + [v];
    forall j | 0 <= j < |offs'| ensures CleanAt(s, after, offs', vs', j) {
      if j < |offs| {
        assert vs'[..j] == vs[..j];
        assert offs[j] in offs;
        CleanAtKept(s, db, after, offs, vs, offs', vs', j);
      } else {
        assert vs'[..j] == vs[..|vs|];
        ContextSame(s, vs', vs, j);
        NewIsClean(s, after, offs', vs', j);
      }
    }
  }

  lemma ContextSame(s: Session, us: seq<Json>, vs: seq<Json>, j: nat)
    requires j <= |us| && j <= |vs| && us[..j] == vs[..j]
    ensures ContextAt(s, us, j) == ContextAt(s, vs, j)
  {
  }

  lemma NewIsClean(s: Session, db: Db, offs: seq<nat>, vs: seq<Json>, j: nat)
    requires j < |offs| == |vs| && offs[j] in db.rows
    requires db.rows[offs[j]] == MakeRow(s, vs[j], offs[j], ContextAt(s, vs, j))
    requires BlocksAt(db.blocks, offs[j]) ==
             InsertBlocks(map[], offs[j], Parse(s, s.source.AgentId(), vs[j], offs[j], ContextAt(s, vs, j)).blocks)
    ensures CleanAt(s, db, offs, vs, j)
  {
    hide MakeRow, Parse, FoldFrom, InsertBlocks;
  }

  /******* Two clean databases with the same payloads are the same *******/

  lemma LastIsGreatest(a: seq<nat>)
    requires a != [] && Increasing(a)
    ensures forall o | o in Elements(a) :: o <= a[|a| - 1]
    ensures Elements(a[..|a| - 1]) == Elements(a) - {a[|a| - 1]}
  {
    assert a == a[..|a| - 1] + [a[|a| - 1]];
    forall o | o in Elements(a) ensures o <= a[|a| - 1] && (o == a[|a| - 1] || o in a[..|a| - 1]) {
      var i :| 0 <= i < |a| && a[i] == o;
    }
    forall o | o in Elements(a[..|a| - 1]) ensures o in a && o != a[|a| - 1] {
      var i :| 0 <= i < |a| - 1 && a[i] == o;
    }
  }

  lemma NoElements(a: seq<nat>)
    ensures Elements(a) == {} <==> a == []
  {
    if a != [] {
      assert a[0] in Elements(a);
    }
  }

  lemma ElementsSnoc(a: seq<nat>, o: nat)
    ensures Elements(a + [o]) == Elements(a) + {o}
  {
  }

  lemma {:induction false} EnumerationUnique(a: seq<nat>, b: seq<nat>)
    requires Increasing(a) && Increasing(b) && Elements(a) == Elements(b)
    ensures a == b
  {
    NoElements(a);
    NoElements(b);
    if a != [] {
      LastIsGreatest(a);
      LastIsGreatest(b);
      assert a[|a| - 1] in Elements(a) && b[|b| - 1] in Elements(b);
      EnumerationUnique(a[..|a| - 1], b[..|b| - 1]);
      assert a == a[..|a| - 1] + [a[|a| - 1]] && b == b[..|b| - 1] + [b[|b| - 1]];
    }
  }

  lemma AllCleanUnique(s: Session, a: Db, b: Db, offs: seq<nat>, vs: seq<Json>)
    requires AllClean(s, a, offs, vs) && AllClean(s, b, offs, vs)
    ensures a.rows == b.rows && a.blocks == b.blocks
  {
    hide MakeRow, Parse, FoldFrom, InsertBlocks;
    forall o | o in a.rows ensures a.rows[o] == b.rows[o] && BlocksAt(a.blocks, o) == BlocksAt(b.blocks, o) {
      var j :| 0 <= j < |offs| && offs[j] == o;
      assert CleanAt(s, a, offs, vs, j) && CleanAt(s, b, offs, vs, j);
    }
    forall k | k in a.blocks ensures k in b.blocks && b.blocks[k] == a.blocks[k] {
      assert k.0 in a.rows && k in BlocksAt(a.blocks, k.0);
    }
    forall k | k in b.blocks ensures k in a.blocks {
      assert k.0 in a.rows && k in BlocksAt(b.blocks, k.0);
    }
  }

  /******* The repair *******/

  /** Every row is clean or will be selected by the repair. */
  ghost predicate AllRepairable(s: Session, db: Db, offs: seq<nat>, vs: seq<Json>) {
    && |offs| == |vs| && Enumerates(offs, db.rows)
    && (forall k | k in db.blocks :: k.0 in offs)
    && forall j | 0 <= j < |offs| :: Repairable(s, db, offs, vs, j)
  }

  /** How many of the listed rows the repair selects. */
  function Selected(db: Db, keys: seq<nat>): nat
    requires forall o | o in keys :: o in db.rows
  {
    if keys == [] then 0
    else
      var at := keys[|keys| - 1];
      Selected(db, keys[..|keys| - 1]) + if NeedsBackfill(db.rows[at], BlocksAt(db.blocks, at)) then 1 else 0
  }

  /** The parent link after the repair: Codex rows it selects may supply one that is missing. */
  function RepairedParent(s: Session, db: Db, keys: seq<nat>): Option<Uuid>
    requires forall o | o in keys :: o in db.rows
  {
    if keys == [] then db.parent
    else
      var at := keys[|keys| - 1];
      var before := RepairedParent(s, db, keys[..|keys| - 1]);
      if s.source.Codex? && NeedsBackfill(db.rows[at], BlocksAt(db.blocks, at)) then SetParent(s, before, db.rows[at].payload)
      else before
  }

  /** Of the listed rows, as many are selected as are stale. */
  lemma {:induction false} SelectedCounted(db: Db, keys: seq<nat>)
    requires Increasing(keys) && forall o | o in keys :: o in db.rows
    ensures Selected(db, keys) == |set o | o in keys && Stale(db, o)|
  {
    hide NeedsBackfill, Stale;
    if keys != [] {
      var front, last := keys[..|keys| - 1], keys[|keys| - 1];
      SelectedCounted(db, front);
      SelectedExactly(db, last);
      assert keys == front + [last];
      assert last !in front;
      var before, now := set o | o in front && Stale(db, o), set o | o in keys && Stale(db, o);
      assert now == if Stale(db, last) then before + {last} else before;
    }
  }

  /** Row `i` is the first stale one whose record points at a parent, and it points at `p`. */
  ghost predicate FirstStaleParent(s: Session, db: Db, keys: seq<nat>, p: Uuid, i: nat)
    requires forall o | o in keys :: o in db.rows
  {
    && i < |keys| && Stale(db, keys[i]) && DetectParent(s, db.rows[keys[i]].payload) == Some(p)
    && forall j | 0 <= j < i && Stale(db, keys[j]) :: DetectParent(s, db.rows[keys[j]].payload).None?
  }

  ghost predicate NoStaleParent(s: Session, db: Db, keys: seq<nat>)
    requires forall o | o in keys :: o in db.rows
  {
    forall o | o in keys && Stale(db, o) :: DetectParent(s, db.rows[o].payload).None?
  }

  /** A parent link stays; a Codex session without one takes that of the first stale row that points at a parent. */
  lemma {:induction false} RepairedParentExactly(s: Session, db: Db, keys: seq<nat>, p: Uuid)
    requires forall o | o in keys :: o in db.rows
    ensures db.parent.Some? || s.source.ClaudeCode? ==> RepairedParent(s, db, keys) == db.parent
    ensures db.parent.None? && s.source.Codex? ==>
              && (RepairedParent(s, db, keys) == Some(p) <==> exists i: nat :: FirstStaleParent(s, db, keys, p, i))
              && (RepairedParent(s, db, keys).None? <==> NoStaleParent(s, db, keys))
  {
    hide NeedsBackfill, Stale, DetectParent;
    if keys != [] {
      var front, last := keys[..|keys| - 1], keys[|keys| - 1];
      RepairedParentExactly(s, db, front, p);
      SelectedExactly(db, last);
      hide RepairedParent;
      assert keys == front + [last];
      StaleParentNext(s, db, front, last, p);
      RepairedParentNext(s, db, keys);
    }
  }

  lemma RepairedParentNext(s: Session, db: Db, keys: seq<nat>)
    requires keys != [] && forall o | o in keys :: o in db.rows
    ensures var at := keys[|keys| - 1];
      RepairedParent(s, db, keys) ==
      if s.source.Codex? && NeedsBackfill(db.rows[at], BlocksAt(db.blocks, at))
      then SetParent(s, RepairedParent(s, db, keys[..|keys| - 1]), db.rows[at].payload)
      else RepairedParent(s, db, keys[..|keys| - 1])
  {
    hide NeedsBackfill, SetParent;
  }

  lemma StaleParentNext(s: Session, db: Db, front: seq<nat>, last: nat, p: Uuid)
    requires (forall o | o in front :: o in db.rows) && last in db.rows
    ensures (exists i: nat :: FirstStaleParent(s, db, front + [last], p, i)) <==>
            || (exists i: nat :: FirstStaleParent(s, db, front, p, i))
            || (NoStaleParent(s, db, front) && Stale(db, last) && DetectParent(s, db.rows[last].payload) == Some(p))
    ensures NoStaleParent(s, db, front + [last]) <==>
            NoStaleParent(s, db, front) && (Stale(db, last) ==> DetectParent(s, db.rows[last].payload).None?)
  {
    hide Stale, DetectParent;
    var keys := front + [last];
    assert forall j | 0 <= j < |front| :: keys[j] == front[j] && front[j] in front;
    if exists i: nat :: FirstStaleParent(s, db, keys, p, i) {
      var i: nat :| FirstStaleParent(s, db, keys, p, i);
      if i < |front| {
        assert FirstStaleParent(s, db, front, p, i);
      }
    }
    if exists i: nat :: FirstStaleParent(s, db, front, p, i) {
      var i: nat :| FirstStaleParent(s, db, front, p, i);
      assert FirstStaleParent(s, db, keys, p, i);
    } else if NoStaleParent(s, db, front) && Stale(db, last) && DetectParent(s, db.rows[last].payload) == Some(p) {
      assert FirstStaleParent(s, db, keys, p, |front|);
    }
    assert forall o :: o in keys <==> o in front || o == last;
  }

  method SortedKeys(keys: set<nat>) returns (r: seq<nat>)
    ensures Increasing(r) && Elements(r) == keys
  {
    r := [];
    var todo := keys;
    while todo != {}
      invariant Increasing(r) && todo <= keys
      invariant Elements(r) == keys - todo
      invariant forall i, p | 0 <= i < |r| && p in todo :: r[i] < p
      decreases todo
    {
      var least := Least(todo);
      ElementsSnoc(r, least);
      r := r + [least];
      todo := todo - {least};
    }
  }

  method Least(keys: set<nat>) returns (least: nat)
    requires keys != {}
    ensures least in keys && forall p | p in keys :: least <= p
  {
    least :| least in keys;
    var rest := keys - {least};
    while rest != {}
      invariant least in keys && rest <= keys
      invariant forall p | p in keys && p !in rest :: least <= p
      decreases rest
    {
      var p :| p in rest;
      rest := rest - {p};
      if p < least {
        least := p;
      }
    }
  }

  /******* The two passes of a reindex over one session *******/

  /** What the reset leaves of the tables: rows and payloads, nothing derived. */
  function Cleared(db: Db): Db {
    db.(rows := map o | o in db.rows :: db.rows[o].(cols := BLANK), blocks := map[])
  }

  method ClearDerived(store: Store)
    modifies store`rows, store`blocks
    ensures store.Contents() == Cleared(old(store.Contents()))
    ensures store.blocks == map[] && store.rows.Keys == old(store.rows).Keys
    ensures forall o | o in store.rows ::
              var was, cols := old(store.rows)[o], store.rows[o].cols;
              && store.rows[o] == was.(cols := cols)
              && cols.speaker.None? && cols.contentKind.None? && cols.eventUuid.None? && cols.parentEventUuid.None?
              && cols.relatedToolUseId.None? && !cols.isSidechain && !cols.isMeta && cols.subtype.None?
              && cols.searchText == ""
  {
    store.blocks := map[];
    store.rows := map o | o in store.rows :: store.rows[o].(cols := BLANK);
  }

  /** Either way a repairable row keeps what a rewrite reads, and has no foreign block. */
  lemma RepairableRow(s: Session, db: Db, offs: seq<nat>, vs: seq<Json>, i: nat)
    requires i < |offs| == |vs| && Repairable(s, db, offs, vs, i)
    ensures offs[i] in db.rows
    ensures var at, ctx := offs[i], ContextAt(s, vs, i);
      var row := db.rows[at];
      && row.agent == s.source.AgentId() && row.payload == vs[i]
      && Rewritten(s, row, at, ctx) == MakeRow(s, vs[i], at, ctx)
      && BlocksAt(db.blocks, at).Keys <=
         InsertBlocks(map[], at, Parse(s, s.source.AgentId(), vs[i], at, ctx).blocks).Keys
  {
    hide Parse, Derived, FoldFrom, InsertBlocks, BlocksAt, NeedsBackfill;
  }

  lemma RepairableKept(s: Session, a: Db, b: Db, offs: seq<nat>, vs: seq<Json>, j: nat)
    requires j < |offs| == |vs| && offs[j] in a.rows && offs[j] in b.rows && a.rows[offs[j]] == b.rows[offs[j]]
    requires BlocksAt(a.blocks, offs[j]) == BlocksAt(b.blocks, offs[j])
    ensures Repairable(s, a, offs, vs, j) <==> Repairable(s, b, offs, vs, j)
    ensures CleanAt(s, a, offs, vs, j) <==> CleanAt(s, b, offs, vs, j)
  {
    hide Parse, MakeRow, FoldFrom, InsertBlocks, BlocksAt, NeedsBackfill;
  }

  /** Rewriting one row makes it clean and touches no other. */
  lemma RewriteStep(s: Session, db: Db, offs: seq<nat>, vs: seq<Json>, i: nat)
    requires i < |offs| && AllRepairable(s, db, offs, vs)
    ensures offs[i] in db.rows
    ensures var at, ctx := offs[i], ContextAt(s, vs, i);
      var bs := Parse(s, db.rows[at].agent, db.rows[at].payload, at, ctx).blocks;
      var after := db.(rows := db.rows[at := Rewritten(s, db.rows[at], at, ctx)],
                       blocks := InsertBlocks(db.blocks, at, bs));
      && AllRepairable(s, after, offs, vs)
      && CleanAt(s, after, offs, vs, i)
      && (forall j | 0 <= j < |offs| && j != i :: CleanAt(s, db, offs, vs, j) ==> CleanAt(s, after, offs, vs, j))
  {
    hide Parse, MakeRow, Rewritten, FoldFrom, InsertBlocks, BlocksAt, NeedsBackfill, Repairable, CleanAt, ContextAt;
    RepairableRow(s, db, offs, vs, i);
    var at, ctx := offs[i], ContextAt(s, vs, i);
    var bs := Parse(s, db.rows[at].agent, db.rows[at].payload, at, ctx).blocks;
    var after := db.(rows := db.rows[at := Rewritten(s, db.rows[at], at, ctx)],
                     blocks := InsertBlocks(db.blocks, at, bs));
    BlocksAfterInsert(db.blocks, at, bs);
    NewIsClean(s, after, offs, vs, i);
    CleanIsRepairable(s, after, offs, vs, i);
    forall j | 0 <= j < |offs| && j != i
      ensures Repairable(s, after, offs, vs, j)
      ensures CleanAt(s, db, offs, vs, j) ==> CleanAt(s, after, offs, vs, j)
    {
      assert offs[j] in Elements(offs) && offs[j] != at;
      RepairableKept(s, db, after, offs, vs, j);
    }
  }

  lemma CleanIsRepairable(s: Session, db: Db, offs: seq<nat>, vs: seq<Json>, j: nat)
    requires j < |offs| == |vs| && CleanAt(s, db, offs, vs, j)
    ensures Repairable(s, db, offs, vs, j)
  {
    hide MakeRow, Parse, CleanAt, NeedsBackfill, BlocksAt;
  }

  function Payloads(rows: map<nat, Row>, keys: seq<nat>): (r: seq<Json>)
    requires forall o | o in keys :: o in rows
    ensures |r| == |keys|
  {
    seq(|keys|, j requires 0 <= j < |keys| => assert keys[j] in keys; rows[keys[j]].payload)
  }

  /** A repairable table determines the records it is to be rebuilt from. */
  lemma RepairableIsAbout(s: Session, db: Db, offs: seq<nat>, vs: seq<Json>, keys: seq<nat>)
    requires AllRepairable(s, db, offs, vs) && Enumerates(keys, db.rows)
    ensures offs == keys && forall o | o in keys :: o in db.rows
    ensures vs == Payloads(db.rows, keys)
  {
    hide Repairable;
    EnumerationUnique(offs, keys);
    assert forall o | o in keys :: o in Elements(keys);
    forall j | 0 <= j < |vs| ensures vs[j] == Payloads(db.rows, keys)[j] {
      RepairableRow(s, db, offs, vs, j);
    }
  }

  lemma NextContext(s: Session, vs: seq<Json>, j: nat)
    requires j < |vs|
    ensures ContextAt(s, vs, j + 1) == Advance(s, ContextAt(s, vs, j), vs[j])
    ensures ContextAt(s, vs, 0) == if s.source.Codex? then Some(Fresh(s.id)) else None
  {
    hide Update;
    assert vs[..j + 1][..j] == vs[..j];
    assert vs[..0] == [];
  }

  lemma SelectedNext(s: Session, db: Db, keys: seq<nat>, i: nat)
    requires i < |keys| && forall o | o in keys :: o in db.rows
    ensures var needs := NeedsBackfill(db.rows[keys[i]], BlocksAt(db.blocks, keys[i]));
      && Selected(db, keys[..i + 1]) == Selected(db, keys[..i]) + (if needs then 1 else 0)
      && RepairedParent(s, db, keys[..i + 1]) ==
         if s.source.Codex? && needs
         then SetParent(s, RepairedParent(s, db, keys[..i]), db.rows[keys[i]].payload)
         else RepairedParent(s, db, keys[..i])
  {
    hide NeedsBackfill, BlocksAt, SetParent;
    assert keys[..i + 1][..i] == keys[..i];
  }

  lemma NotSelected(s: Session, db: Db, offs: seq<nat>, vs: seq<Json>, j: nat)
    requires j < |offs| == |vs| && Repairable(s, db, offs, vs, j)
    requires !NeedsBackfill(db.rows[offs[j]], BlocksAt(db.blocks, offs[j]))
    ensures CleanAt(s, db, offs, vs, j)
  {
    hide MakeRow, Parse, CleanAt, NeedsBackfill, BlocksAt;
  }

  /** After `i` rows of a repair that began at `was`: clean so far, and clean rows stay clean. */
  ghost predicate Repaired(s: Session, was: Db, now: Db, keys: seq<nat>, vs: seq<Json>, i: nat) {
    AllRepairable(s, was, keys, vs) ==>
      && AllRepairable(s, now, keys, vs)
      && forall j | 0 <= j < |keys| && (j < i || CleanAt(s, was, keys, vs, j)) :: CleanAt(s, now, keys, vs, j)
  }

  lemma RewriteRepairs(s: Session, was: Db, now: Db, keys: seq<nat>, vs: seq<Json>, i: nat, after: Db)
    requires i < |keys| && Repaired(s, was, now, keys, vs, i) && keys[i] in now.rows
    requires var at, ctx, row := keys[i], (if i < |vs| then ContextAt(s, vs, i) else None), now.rows[keys[i]];
      && after.rows == now.rows[at := Rewritten(s, row, at, ctx)]
      && after.blocks == InsertBlocks(now.blocks, at, Parse(s, row.agent, row.payload, at, ctx).blocks)
    ensures Repaired(s, was, after, keys, vs, i + 1)
  {
    hide Parse, Rewritten, InsertBlocks, CleanAt, AllRepairable, ContextAt;
    if AllRepairable(s, was, keys, vs) {
      SameLength(s, was, keys, vs);
      RewriteStep(s, now, keys, vs, i);
      var row, ctx := now.rows[keys[i]], ContextAt(s, vs, i);
      var mid := now.(rows := now.rows[keys[i] := Rewritten(s, row, keys[i], ctx)],
                      blocks := InsertBlocks(now.blocks, keys[i], Parse(s, row.agent, row.payload, keys[i], ctx).blocks));
      ParentUnseen(s, mid, after, keys, vs);
    }
  }

  lemma SkipRepairs(s: Session, was: Db, now: Db, keys: seq<nat>, vs: seq<Json>, i: nat)
    requires i < |keys| && Repaired(s, was, now, keys, vs, i) && keys[i] in was.rows
    requires !NeedsBackfill(was.rows[keys[i]], BlocksAt(was.blocks, keys[i]))
    ensures Repaired(s, was, now, keys, vs, i + 1)
  {
    hide NeedsBackfill, CleanAt, AllRepairable, BlocksAt;
    if AllRepairable(s, was, keys, vs) {
      StillRepairable(s, was, keys, vs, i);
      NotSelected(s, was, keys, vs, i);
    }
  }

  lemma SameLength(s: Session, db: Db, offs: seq<nat>, vs: seq<Json>)
    requires AllRepairable(s, db, offs, vs)
    ensures |offs| == |vs|
  {
  }

  /** What a finished repair leaves. */
  lemma RepairEnds(s: Session, was: Db, now: Db, keys: seq<nat>, vs: seq<Json>)
    requires Enumerates(keys, was.rows) && (forall o | o in keys :: o in was.rows) && vs == Payloads(was.rows, keys)
    requires Repaired(s, was, now, keys, vs, |keys|)
    ensures forall offs, us | AllRepairable(s, was, offs, us) :: offs == keys && us == vs && AllClean(s, now, offs, us)
  {
    hide CleanAt, AllRepairable, AllClean;
    forall offs, us | AllRepairable(s, was, offs, us)
      ensures offs == keys && us == vs && AllClean(s, now, offs, us)
    {
      RepairableIsAbout(s, was, offs, us, keys);
      RepairedIsClean(s, now, keys, vs);
    }
  }

  /** The same rows, up to their derived columns. */
  predicate OnlyDerived(was: map<nat, Row>, now: map<nat, Row>) {
    && now.Keys == was.Keys
    && forall o | o in was :: now[o] == was[o].(cols := now[o].cols)
  }

  lemma RewriteKeeps(s: Session, was: map<nat, Row>, now: map<nat, Row>, at: nat, ctx: Option<Context>)
    requires OnlyDerived(was, now) && at in was
    ensures at in now && now[at].payload == was[at].payload
    ensures OnlyDerived(was, now[at := Rewritten(s, now[at], at, ctx)])
  {
    hide Parse, Derived;
  }

  lemma OnlyDerivedStart(rows: map<nat, Row>)
    ensures OnlyDerived(rows, rows)
  {
  }

  /** The row at `at` is as it was, with its blocks. */
  ghost predicate RowKept(was: Db, now: Db, at: nat) {
    && at in was.rows && at in now.rows && now.rows[at] == was.rows[at]
    && BlocksAt(now.blocks, at) == BlocksAt(was.blocks, at)
  }

  /** The row at `at` was parsed again from its payload, in context `ctx`, and its blocks put over the old ones. */
  ghost predicate RowRewritten(s: Session, was: Db, now: Db, at: nat, ctx: Option<Context>) {
    && at in was.rows && at in now.rows && now.rows[at] == Rewritten(s, was.rows[at], at, ctx)
    && BlocksAt(now.blocks, at) ==
       InsertBlocks(BlocksAt(was.blocks, at), at, Parse(s, was.rows[at].agent, was.rows[at].payload, at, ctx).blocks)
  }

  /** After `i` rows of a repair: of these the stale ones are rewritten, and all other rows are as they were. */
  ghost predicate RepairedTo(s: Session, was: Db, now: Db, keys: seq<nat>, vs: seq<Json>, i: nat) {
    && |vs| == |keys|
    && forall j | 0 <= j < |keys| ::
         && keys[j] in was.rows
         && if j < i && Stale(was, keys[j]) then RowRewritten(s, was, now, keys[j], ContextAt(s, vs, j))
            else RowKept(was, now, keys[j])
  }

  lemma InsertedElsewhere(table: map<(nat, int), Block>, at: nat, bs: seq<Block>)
    ensures BlocksAt(InsertBlocks(table, at, bs), at) == InsertBlocks(BlocksAt(table, at), at, bs)
    ensures forall o | o != at :: BlocksAt(InsertBlocks(table, at, bs), o) == BlocksAt(table, o)
  {
    InsertBlocksAdds(table, at, bs);
    InsertBlocksAdds(BlocksAt(table, at), at, bs);
    hide InsertBlocks;
    var added := InsertBlocks(map[], at, bs);
    forall o | o != at ensures BlocksAt(table + added, o) == BlocksAt(table, o) {
      assert forall k :: k in table + added && k.0 == o ==> k in table && k !in added;
    }
    assert forall k :: k in BlocksAt(table + added, at) <==> k in BlocksAt(table, at) + added;
  }

  lemma RewriteReaches(s: Session, was: Db, now: Db, keys: seq<nat>, vs: seq<Json>, i: nat, after: Db)
    requires i < |keys| && Increasing(keys) && RepairedTo(s, was, now, keys, vs, i) && keys[i] in was.rows && Stale(was, keys[i])
    requires RowKept(was, now, keys[i])
    requires i <= |vs| && var at, ctx, row := keys[i], ContextAt(s, vs, i), now.rows[keys[i]];
      && after.rows == now.rows[at := Rewritten(s, row, at, ctx)]
      && after.blocks == InsertBlocks(now.blocks, at, Parse(s, row.agent, row.payload, at, ctx).blocks)
    ensures RepairedTo(s, was, after, keys, vs, i + 1)
  {
    hide Parse, Rewritten, InsertBlocks, BlocksAt, Stale, ContextAt;
    var at, row := keys[i], now.rows[keys[i]];
    InsertedElsewhere(now.blocks, at, Parse(s, row.agent, row.payload, at, ContextAt(s, vs, i)).blocks);
    forall j | 0 <= j < |keys| && j != i ensures keys[j] != at {
    }
  }

  lemma SkipReaches(s: Session, was: Db, now: Db, keys: seq<nat>, vs: seq<Json>, i: nat)
    requires i < |keys| && RepairedTo(s, was, now, keys, vs, i) && keys[i] in was.rows && !Stale(was, keys[i])
    ensures RepairedTo(s, was, now, keys, vs, i + 1)
  {
    hide Stale, RowKept, RowRewritten, ContextAt;
  }

  lemma NotReached(s: Session, was: Db, now: Db, keys: seq<nat>, vs: seq<Json>, i: nat)
    requires i < |keys| && RepairedTo(s, was, now, keys, vs, i)
    ensures |vs| == |keys| && keys[i] in was.rows && keys[i] in now.rows && now.rows[keys[i]] == was.rows[keys[i]]
    ensures RowKept(was, now, keys[i])
  {
    hide Stale, RowRewritten, ContextAt;
  }

  lemma NothingReached(s: Session, db: Db, keys: seq<nat>, vs: seq<Json>)
    requires |vs| == |keys| && forall o | o in keys :: o in db.rows
    ensures RepairedTo(s, db, db, keys, vs, 0)
  {
    hide Stale, RowRewritten, ContextAt;
  }

  /** One row parsed again; a Codex row may also supply a missing parent link. */
  method RewriteRow(store: Store, s: Session, at: nat, ctx: Option<Context>)
    requires at in store.rows
    modifies store
    ensures store.offset == old(store.offset)
    ensures store.rows == old(store.rows)[at := Rewritten(s, old(store.rows)[at], at, ctx)]
    ensures var row := old(store.rows)[at];
      && store.blocks == InsertBlocks(old(store.blocks), at, Parse(s, row.agent, row.payload, at, ctx).blocks)
      && store.parent == if s.source.Codex? then SetParent(s, old(store.parent), row.payload) else old(store.parent)
  {
    hide Parse, Derived, DetectParent, InsertBlocks;
    var row := store.rows[at];
    var parsed := Parse(s, row.agent, row.payload, at, ctx);
    store.rows := store.rows[at := row.(cols := Derived(s, parsed))];
    store.InsertBlocksOf(at, parsed.blocks);
    if s.source.Codex? && store.parent.None? {
      store.parent := DetectParent(s, row.payload);
    }
  }

  /**
   The repair: every selected row is parsed again from its payload, with the context
   of the rows before it. From any repairable tables it leaves exactly the clean ones;
   from any tables at all it counts the selected rows. `keys` are the rows in order.
   */
  method Backfill(store: Store, s: Session) returns (count: nat, keys: seq<nat>)
    modifies store
    ensures store.offset == old(store.offset) && OnlyDerived(old(store.rows), store.rows)
    ensures forall offs, vs | AllRepairable(s, old(store.Contents()), offs, vs) :: AllClean(s, store.Contents(), offs, vs)
    ensures Enumerates(keys, old(store.rows)) && forall o | o in keys :: o in old(store.Contents()).rows
    ensures count == |set o | o in keys && Stale(old(store.Contents()), o)|
    ensures store.parent == RepairedParent(s, old(store.Contents()), keys)
    ensures RepairedTo(s, old(store.Contents()), store.Contents(), keys, Payloads(old(store.Contents()).rows, keys), |keys|)
    ensures count == Selected(old(store.Contents()), keys)
  {
    hide Stale, RepairedTo, RowKept, Parse, MakeRow, Derived, Rewritten, FoldFrom, InsertBlocks, BlocksAt, NeedsBackfill, AllClean, Repaired,
         AllRepairable, ContextAt, Advance, SetParent, Selected, RepairedParent, Update, OnlyDerived;
    ghost var was := store.Contents();
    var rows, blocks := store.rows, store.blocks;
    keys := SortedKeys(rows.Keys);
    assert forall o | o in keys :: o in Elements(keys);
    ghost var vs := Payloads(rows, keys);
    var ctx := if s.source.Codex? then Some(Fresh(s.id)) else None;
    count := 0;
    StartOfBackfill(s, was, keys, vs);
    NothingReached(s, was, keys, vs);
    OnlyDerivedStart(rows);
    for i := 0 to |keys|
      invariant store.offset == was.offset && OnlyDerived(rows, store.rows)
      invariant ctx == ContextAt(s, vs, i)
      invariant count == Selected(was, keys[..i])
      invariant store.parent == RepairedParent(s, was, keys[..i])
      invariant Repaired(s, was, store.Contents(), keys, vs, i)
      invariant RepairedTo(s, was, store.Contents(), keys, vs, i)
    {
      var at := keys[i];
      ghost var before := store.Contents();
      SelectedNext(s, was, keys, i);
      SelectedExactly(was, at);
      NotReached(s, was, before, keys, vs, i);
      NextContext(s, vs, i);
      if NeedsBackfill(rows[at], BlocksAt(blocks, at)) {
        RewriteKeeps(s, rows, store.rows, at, ctx);
        RewriteRow(store, s, at, ctx);
        RewriteRepairs(s, was, before, keys, vs, i, store.Contents());
        RewriteReaches(s, was, before, keys, vs, i, store.Contents());
        count := count + 1;
      } else {
        SkipRepairs(s, was, store.Contents(), keys, vs, i);
        SkipReaches(s, was, store.Contents(), keys, vs, i);
      }
      ctx := Advance(s, ctx, rows[at].payload);
    }
    assert keys[..|keys|] == keys;
    SelectedCounted(was, keys);
    RepairEnds(s, was, store.Contents(), keys, vs);
  }

  lemma StartOfBackfill(s: Session, db: Db, keys: seq<nat>, vs: seq<Json>)
    ensures ContextAt(s, vs, 0) == if s.source.Codex? then Some(Fresh(s.id)) else None
    ensures Selected(db, keys[..0]) == 0 && RepairedParent(s, db, keys[..0]) == db.parent
    ensures Repaired(s, db, db, keys, vs, 0)
  {
    hide CleanAt, AllRepairable;
    assert vs[..0] == [];
  }

  lemma ParentUnseen(s: Session, a: Db, b: Db, offs: seq<nat>, vs: seq<Json>)
    requires a.rows == b.rows && a.blocks == b.blocks
    ensures AllRepairable(s, a, offs, vs) <==> AllRepairable(s, b, offs, vs)
    ensures |offs| == |vs| ==>
              forall j | 0 <= j < |offs| :: CleanAt(s, a, offs, vs, j) <==> CleanAt(s, b, offs, vs, j)
  {
    hide CleanAt, Repairable, BlocksAt;
    if |offs| == |vs| {
      forall j | 0 <= j < |offs|
        ensures CleanAt(s, a, offs, vs, j) <==> CleanAt(s, b, offs, vs, j)
        ensures Repairable(s, a, offs, vs, j) <==> Repairable(s, b, offs, vs, j)
      {
        RepairableSame(s, a, b, offs, vs, j);
      }
    }
  }

  lemma RepairableSame(s: Session, a: Db, b: Db, offs: seq<nat>, vs: seq<Json>, j: nat)
    requires j < |offs| == |vs| && a.rows == b.rows && a.blocks == b.blocks
    ensures CleanAt(s, a, offs, vs, j) <==> CleanAt(s, b, offs, vs, j)
    ensures Repairable(s, a, offs, vs, j) <==> Repairable(s, b, offs, vs, j)
  {
    hide Parse, MakeRow, FoldFrom, InsertBlocks, BlocksAt, NeedsBackfill, ContextAt;
  }

  lemma StillRepairable(s: Session, db: Db, offs: seq<nat>, vs: seq<Json>, j: nat)
    requires j < |offs| && AllRepairable(s, db, offs, vs)
    ensures |vs| == |offs| && offs[j] in db.rows && Repairable(s, db, offs, vs, j)
  {
    hide Repairable;
    assert offs[j] in Elements(offs);
  }

  lemma RepairedIsClean(s: Session, db: Db, offs: seq<nat>, vs: seq<Json>)
    requires AllRepairable(s, db, offs, vs) && forall j | 0 <= j < |offs| :: CleanAt(s, db, offs, vs, j)
    ensures AllClean(s, db, offs, vs)
  {
    hide Repairable, CleanAt;
  }

  /******* A reindex changes nothing *******/

  lemma ClearedRow(s: Session, db: Db, offs: seq<nat>, vs: seq<Json>, j: nat)
    requires j < |offs| == |vs| && CleanAt(s, db, offs, vs, j)
    ensures Repairable(s, Cleared(db), offs, vs, j)
    ensures NeedsBackfill(Cleared(db).rows[offs[j]], BlocksAt(Cleared(db).blocks, offs[j]))
  {
    hide MakeRow, Parse, FoldFrom, InsertBlocks, ContextAt, IsLegacy;
  }

  /** Clearing a clean database leaves one that the repair will rewrite in full. */
  lemma ClearedIsRepairable(s: Session, db: Db, offs: seq<nat>, vs: seq<Json>)
    requires AllClean(s, db, offs, vs)
    ensures AllRepairable(s, Cleared(db), offs, vs)
    ensures forall o | o in offs :: o in Cleared(db).rows
    ensures Selected(Cleared(db), offs) == |db.rows|
  {
    hide CleanAt, Repairable, NeedsBackfill;
    forall j | 0 <= j < |offs| ensures Repairable(s, Cleared(db), offs, vs, j) {
      ClearedRow(s, db, offs, vs, j);
    }
    assert forall o | o in offs :: o in Elements(offs);
    forall o | o in offs ensures NeedsBackfill(Cleared(db).rows[o], BlocksAt(Cleared(db).blocks, o)) {
      var j :| 0 <= j < |offs| && offs[j] == o;
      ClearedRow(s, db, offs, vs, j);
    }
    AllSelected(Cleared(db), offs);
  }

  lemma {:induction false} AllSelected(db: Db, offs: seq<nat>)
    requires Increasing(offs) && forall o | o in offs :: o in db.rows
    requires forall o | o in offs :: NeedsBackfill(db.rows[o], BlocksAt(db.blocks, o))
    ensures Selected(db, offs) == |Elements(offs)|
  {
    hide NeedsBackfill;
    if offs == [] {
      assert Elements(offs) == {};
    } else {
      AllSelected(db, offs[..|offs| - 1]);
      LastIsGreatest(offs);
      assert offs[|offs| - 1] in Elements(offs);
    }
  }

  /** No record of `vs` would change the parent link. */
  ghost predicate ParentSettled(s: Session, parent: Option<Uuid>, vs: seq<Json>) {
    forall v | v in vs :: SetParent(s, parent, v) == parent
  }

  lemma {:induction false} ParentUnmoved(s: Session, db: Db, keys: seq<nat>)
    requires forall o | o in keys :: o in db.rows
    requires ParentSettled(s, db.parent, Payloads(db.rows, keys))
    ensures RepairedParent(s, db, keys) == db.parent
  {
    hide NeedsBackfill, SetParent;
    if keys != [] {
      var front := keys[..|keys| - 1];
      assert Payloads(db.rows, keys) == Payloads(db.rows, front) + [db.rows[keys[|keys| - 1]].payload];
      ParentUnmoved(s, db, front);
    }
  }

  lemma ClearedParent(s: Session, db: Db, offs: seq<nat>, vs: seq<Json>)
    requires AllClean(s, db, offs, vs) && ParentSettled(s, db.parent, vs)
    ensures forall o | o in offs :: o in Cleared(db).rows
    ensures RepairedParent(s, Cleared(db), offs) == db.parent
  {
    hide NeedsBackfill, SetParent, CleanAt, AllClean, AllRepairable, ParentSettled;
    ClearedIsRepairable(s, db, offs, vs);
    RepairableIsAbout(s, Cleared(db), offs, vs, offs) by { RepairableEnumerates(s, Cleared(db), offs, vs); }
    ParentUnmoved(s, Cleared(db), offs);
  }

  lemma RepairableEnumerates(s: Session, db: Db, offs: seq<nat>, vs: seq<Json>)
    requires AllRepairable(s, db, offs, vs)
    ensures Enumerates(offs, db.rows)
  {
    hide Repairable;
  }

  /** The tables hold what an uninterrupted ingest of some records would. */
  ghost predicate Ingested(s: Session, db: Db) {
    exists offs, vs :: AllClean(s, db, offs, vs)
  }

  /** Moreover, the parent link was written for every record that has a row. */
  ghost predicate Linked(s: Session, db: Db) {
    exists offs, vs :: AllClean(s, db, offs, vs) && ParentSettled(s, db.parent, vs)
  }

  /** Clear, then repair: what the second pass must leave, whatever the session. */
  lemma RepairRestores(s: Session, was: Db, now: Db, keys: seq<nat>)
    requires Ingested(s, was)
    requires forall offs, vs | AllRepairable(s, Cleared(was), offs, vs) :: AllClean(s, now, offs, vs)
    requires Enumerates(keys, Cleared(was).rows) && forall o | o in keys :: o in Cleared(was).rows
    requires now.parent == RepairedParent(s, Cleared(was), keys) && now.offset == was.offset
    ensures now.rows == was.rows && now.blocks == was.blocks
    ensures Linked(s, was) ==> now == was
  {
    hide AllClean, AllRepairable, ParentSettled, RepairedParent, Cleared, Enumerates;
    var offs, vs :| AllClean(s, was, offs, vs);
    ClearedIsRepairable(s, was, offs, vs);
    AllCleanUnique(s, was, now, offs, vs);
    if Linked(s, was) {
      var offs', vs' :| AllClean(s, was, offs', vs') && ParentSettled(s, was.parent, vs');
      ClearedIsRepairable(s, was, offs', vs');
      RepairableIsAbout(s, Cleared(was), offs', vs', keys);
      ClearedParent(s, was, offs', vs');
    }
  }

  /** After the clear every row is selected, whatever it held. */
  lemma ClearedIsSelected(db: Db, keys: seq<nat>)
    requires Enumerates(keys, Cleared(db).rows) && forall o | o in keys :: o in Cleared(db).rows
    ensures Selected(Cleared(db), keys) == |db.rows|
  {
    hide IsLegacy;
    assert forall o | o in keys :: NeedsBackfill(Cleared(db).rows[o], BlocksAt(Cleared(db).blocks, o));
    AllSelected(Cleared(db), keys);
    assert Cleared(db).rows.Keys == db.rows.Keys;
    assert |db.rows.Keys| == |db.rows|;
  }

  /** Every reachable state of the ingester is one a reindex leaves alone; a settled one, to the parent link. */
  lemma ReachableIsIngested(s: Session, schedule: seq<Action>)
    requires WellFiled(s, AllLines(Run(s, START, schedule)))
    ensures Ingested(s, Run(s, START, schedule).db)
    ensures Settled(Run(s, START, schedule)) ==> Linked(s, Run(s, START, schedule).db)
  {
    hide Clean, Run, WellFiled, Owes, AllClean, ParentSettled, SetParent, Records, Offsets;
    var st := Run(s, START, schedule);
    var h, k := RunKeeps(s, schedule);
    var ls := AllLines(st)[..h];
    OrderedLines(st.file);
    CleanIsClean(s, ls);
    CleanDoesNotSeeParent(s, Clean(s, ls), st.db, Offsets(s, ls), Records(s, ls));
    if Settled(st) {
      SettledPosition(s, st, h, k);
      CleanParentSettled(s, ls);
    }
  }

  lemma CleanParentSettled(s: Session, ls: seq<Line>)
    ensures ParentSettled(s, Clean(s, ls).parent, Records(s, ls))
  {
    hide Clean, SetParent, Record;
    forall v | v in Records(s, ls) ensures SetParent(s, Clean(s, ls).parent, v) == Clean(s, ls).parent {
      var n := RecordComesFrom(s, ls, v);
      assert ls[..|ls|] == ls;
      ParentStep(s, ls, n, |ls|);
    }
  }

  lemma {:induction false} RecordComesFrom(s: Session, ls: seq<Line>, v: Json) returns (n: nat)
    requires v in Records(s, ls)
    ensures n < |ls| && Record(s, ls[n].text) == Some(v)
  {
    hide Record;
    var last := |ls| - 1;
    if Record(s, ls[last].text) == Some(v) {
      n := last;
    } else {
      n := RecordComesFrom(s, ls[..last], v);
    }
  }

  /** `SELECT COUNT(*) FROM events` */
  function CountRows(dbs: seq<Db>): nat {
    if dbs == [] then 0 else CountRows(dbs[..|dbs| - 1]) + |dbs[|dbs| - 1].rows|
  }

  function Tables(stores: seq<Store>): (dbs: seq<Db>)
    reads stores
    ensures |dbs| == |stores| && forall i | 0 <= i < |dbs| :: dbs[i] == stores[i].Contents()
  {
    if stores == [] then []
    else Tables(stores[..|stores| - 1]) + [stores[|stores| - 1].Contents()]
  }

  /** What a session's tables come back as. */
  ghost predicate Restored(s: Session, was: Db, now: Db) {
    && now.offset == was.offset
    && (Ingested(s, was) ==> now.rows == was.rows && now.blocks == was.blocks)
    && (Linked(s, was) ==> now == was)
  }

  method ClearAll(stores: seq<Store>)
    requires Distinct(stores)
    modifies stores
    ensures forall i | 0 <= i < |stores| :: stores[i].Contents() == Cleared(old(stores[i].Contents()))
  {
    hide Cleared;
    for i := 0 to |stores|
      invariant forall j | 0 <= j < i :: stores[j].Contents() == Cleared(old(stores[j].Contents()))
      invariant forall j | i <= j < |stores| :: stores[j].Contents() == old(stores[j].Contents())
    {
      ClearDerived(stores[i]);
    }
  }

  /** The repair of one session the reset has cleared. */
  method BackfillCleared(store: Store, s: Session, ghost was: Db) returns (count: nat)
    requires store.Contents() == Cleared(was)
    modifies store
    ensures Restored(s, was, store.Contents())
    ensures count == |was.rows|
  {
    hide Ingested, Linked, AllClean, AllRepairable, Selected, RepairedParent, Cleared, Enumerates, OnlyDerived;
    var keys;
    count, keys := Backfill(store, s);
    ClearedOffset(was);
    ClearedIsSelected(was, keys);
    LinkedIsIngested(s, was);
    if Ingested(s, was) {
      RepairRestores(s, was, store.Contents(), keys);
    }
  }

  method CountEvents(stores: seq<Store>) returns (count: nat)
    ensures count == CountRows(Tables(stores))
  {
    ghost var dbs := Tables(stores);
    count := 0;
    for i := 0 to |stores|
      invariant count == CountRows(dbs[..i])
    {
      assert dbs[..i + 1][..i] == dbs[..i];
      count := count + |stores[i].rows|;
    }
    assert dbs[..|stores|] == dbs;
  }

  method BackfillAll(stores: seq<Store>, sessions: seq<Session>, ghost was: seq<Db>) returns (count: nat)
    requires |stores| == |sessions| == |was| && Distinct(stores)
    requires forall i | 0 <= i < |stores| :: stores[i].Contents() == Cleared(was[i])
    modifies stores
    ensures forall i | 0 <= i < |stores| :: Restored(sessions[i], was[i], stores[i].Contents())
    ensures count == CountRows(was)
  {
    hide Restored, Ingested, Cleared;
    count := 0;
    for i := 0 to |stores|
      invariant forall j | i <= j < |stores| :: stores[j].Contents() == Cleared(was[j])
      invariant forall j | 0 <= j < i :: Restored(sessions[j], was[j], stores[j].Contents())
      invariant count == CountRows(was[..i])
    {
      assert was[..i + 1][..i] == was[..i];
      var some := BackfillCleared(stores[i], sessions[i], was[i]);
      count := count + some;
    }
    assert was[..|stores|] == was;
  }

  /**
   The admin reindex over every session. Tables an ingest filled come back as they
   were; the rebuilt count is the preserved one, whatever the tables held.
   */
  method RebuildDerivatives(stores: seq<Store>, sessions: seq<Session>) returns (preserved: nat, rebuilt: nat)
    requires |stores| == |sessions| && Distinct(stores)
    modifies stores
    ensures preserved == CountRows(old(Tables(stores)))
    ensures forall i | 0 <= i < |stores| :: Restored(sessions[i], old(Tables(stores))[i], stores[i].Contents())
    ensures rebuilt == preserved
  {
    hide *;
    ghost var was := Tables(stores);
    preserved := CountEvents(stores);
    ClearAll(stores);
    rebuilt := BackfillAll(stores, sessions, was);
  }

  lemma ClearedOffset(db: Db)
    ensures Cleared(db).offset == db.offset
  {
  }

  lemma LinkedIsIngested(s: Session, db: Db)
    ensures Linked(s, db) ==> Ingested(s, db)
  {
    hide AllClean, ParentSettled;
  }
}
