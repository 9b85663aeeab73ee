/**
 What a stored row holds, column by column, in terms of its own record, what the
 record parser made of it, and the context it was stored in.
 */
module StoredRows {
  import opened Wrappers
  import opened Lines
  import opened CodexContext
  import opened Ingester
  import opened Schedule
  import opened Reindex
  import opened LineageColumns
  import opened RecordFields
  import Decimal
  import Text

  /******* Columns every row has *******/

  /** What the parser of the session's agent makes of a record. */
  function Parsed(s: Session, v: Json): Canonical {
    match s.source
    case ClaudeCode => s.env.claude(v)
    case Codex => s.env.codex(v)
  }

  /** What a Codex row of record `v` is made to describe at offset `at` in context `ctx`. */
  function Enriched(s: Session, v: Json, at: nat, ctx: Context): Canonical {
    EnrichLineage(s.env.codex(v).(subtype := Some(Subtype(v))), v, s.id, at, Some(ctx))
  }

  /** The event that the columns of a row describe, with the given blocks. */
  function Described(cols: Columns, blocks: seq<Block>): Canonical
    requires cols.speaker.Some? && cols.contentKind.Some?
  {
    Canonical(cols.speaker.value, cols.contentKind.value, cols.eventUuid, cols.parentEventUuid, cols.relatedToolUseId,
              cols.isSidechain, cols.isMeta, cols.subtype, blocks)
  }

  /** A block is the last of the parser's blocks with its ordinal. */
  ghost predicate LastWith(blocks: seq<Block>, ord: int, b: Block) {
    exists i :: 0 <= i < |blocks| && blocks[i] == b && b.ord == ord && forall j | i < j < |blocks| :: blocks[j].ord != ord
  }

  /** Inserting blocks leaves, under each ordinal, the last of them with it, and all else as it was. */
  lemma {:induction false} InsertedExactly(table: map<(nat, int), Block>, at: nat, bs: seq<Block>, ord: int, b: Block)
    ensures var after := InsertBlocks(table, at, bs);
      ((at, ord) in after && after[(at, ord)] == b) <==>
      if exists c :: c in bs && c.ord == ord then LastWith(bs, ord, b) else (at, ord) in table && table[(at, ord)] == b
    ensures forall k: (nat, int) | k.0 != at ::
              var after := InsertBlocks(table, at, bs); (k in after <==> k in table) && (k in table ==> after[k] == table[k])
  {
    if bs != [] {
      var front, last := bs[..|bs| - 1], bs[|bs| - 1];
      InsertedExactly(table, at, front, ord, b);
      assert bs == front + [last];
      LastNext(front, last, ord, b);
      hide LastWith;
      assert last in bs;
      assert forall c :: c in bs <==> c in front || c == last;
      var before := InsertBlocks(table, at, front);
      assert InsertBlocks(table, at, bs) == before[(at, last.ord) := last];
      if last.ord != ord {
        assert (at, ord) != (at, last.ord);
      }
    }
  }

  lemma LastIsOne(blocks: seq<Block>, ord: int, b: Block)
    ensures LastWith(blocks, ord, b) ==> exists c :: c in blocks && c.ord == ord
  {
  }

  lemma LastNext(front: seq<Block>, last: Block, ord: int, b: Block)
    ensures LastWith(front + [last], ord, b) <==> if last.ord == ord then b == last else LastWith(front, ord, b)
  {
    var bs := front + [last];
    assert bs[|front|] == last;
    if last.ord == ord {
      assert LastWith(bs, ord, last);
    } else if LastWith(front, ord, b) {
      var i :| 0 <= i < |front| && front[i] == b && b.ord == ord && forall j | i < j < |front| :: front[j].ord != ord;
      assert bs[i] == b;
    }
    if LastWith(bs, ord, b) {
      var i :| 0 <= i < |bs| && bs[i] == b && b.ord == ord && forall j | i < j < |bs| :: bs[j].ord != ord;
      assert i < |front| ==> front[i] == b && bs[|front|].ord != ord;
      assert forall j | i < j < |front| :: bs[j] == front[j];
    }
  }

  /**
   Each stored row has its record, the agent's name and the record's own timestamp. Its
   columns describe what the parser made of the record, its search text included; of a
   Codex record, enrichment sets the lineage columns and the subtype, and nothing else.
   */
  lemma ColumnsExactly(s: Session, db: Db, offs: seq<nat>, vs: seq<Json>, j: nat)
    requires AllClean(s, db, offs, vs) && j < |vs|
    ensures |offs| == |vs| && offs[j] in db.rows
    ensures var row, p := db.rows[offs[j]], Parsed(s, vs[j]);
      && row.payload == vs[j] && row.stamp == s.env.stamp(vs[j]) && row.kind == Kind(s.source, vs[j])
      && row.agent == (if s.source.Codex? then "codex" else "claude-code")
      && row.cols.speaker == Some(p.speaker) && row.cols.contentKind == Some(p.contentKind)
      && row.cols.isMeta == p.isMeta && row.cols.searchText == s.env.searchText(Described(row.cols, p.blocks))
      && (s.source.ClaudeCode? ==> Described(row.cols, p.blocks) == p)
      && (s.source.Codex? ==>
            Described(row.cols, p.blocks) == Enriched(s, vs[j], offs[j], Fold(vs[..j], s.id)))
  {
    hide FoldFrom, Subtype, BlocksAt, InsertBlocks, Increasing, Kind, EnrichLineage;
    assert CleanAt(s, db, offs, vs, j);
    EnrichmentKeeps(Parsed(s, vs[j]).(subtype := Some(Subtype(vs[j]))), vs[j], s.id, offs[j], ContextAt(s, vs, j));
  }

  /** A row parsed again describes what the parser of the row's agent makes of its payload, whatever it described before. */
  lemma RewrittenExactly(s: Session, row: Row, at: nat, ctx: Context)
    ensures var now := Rewritten(s, row, at, Some(ctx));
      && now == row.(cols := now.cols) && now.cols.speaker.Some? && now.cols.contentKind.Some?
      && var e := if row.agent == "codex" then Enriched(s, row.payload, at, ctx) else s.env.claude(row.payload);
         Described(now.cols, e.blocks) == e && now.cols.searchText == s.env.searchText(e)
         && Parse(s, row.agent, row.payload, at, Some(ctx)).blocks ==
            (if row.agent == "codex" then s.env.codex(row.payload) else s.env.claude(row.payload)).blocks
  {
    hide EnrichLineage, Subtype;
    EnrichmentKeeps(s.env.codex(row.payload).(subtype := Some(Subtype(row.payload))), row.payload, s.id, at, Some(ctx));
  }

  lemma EnrichmentKeeps(parsed: Canonical, v: Json, session: Uuid, at: nat, ctx: Option<Context>)
    ensures var e := EnrichLineage(parsed, v, session, at, ctx);
      && e.speaker == parsed.speaker && e.contentKind == parsed.contentKind && e.isMeta == parsed.isMeta
      && e.subtype == parsed.subtype && e.blocks == parsed.blocks
  {
    hide ParentSession, StringAtPath, FirstToolId, SyntheticId, PayloadType;
  }

  /** The blocks of a stored row: of the parser's blocks with one ordinal, the last. */
  lemma BlocksExactly(s: Session, db: Db, offs: seq<nat>, vs: seq<Json>, j: nat, ord: int, b: Block)
    requires AllClean(s, db, offs, vs) && j < |vs|
    ensures |offs| == |vs|
    ensures ((offs[j], ord) in db.blocks && db.blocks[(offs[j], ord)] == b) <==> LastWith(Parsed(s, vs[j]).blocks, ord, b)
  {
    hide FoldFrom, Subtype, InsertBlocks, Increasing, Kind, EnrichLineage, Derived, LastWith;
    assert CleanAt(s, db, offs, vs, j);
    EnrichmentKeeps(Parsed(s, vs[j]).(subtype := Some(Subtype(vs[j]))), vs[j], s.id, offs[j], ContextAt(s, vs, j));
    var none: map<(nat, int), Block> := map[];
    InsertedExactly(none, offs[j], Parsed(s, vs[j]).blocks, ord, b);
    LastIsOne(Parsed(s, vs[j]).blocks, ord, b);
    assert (offs[j], ord) in BlocksAt(db.blocks, offs[j]) <==> (offs[j], ord) in db.blocks;
  }

  /******* The lineage columns of Codex rows *******/

  predicate IsCall(v: Json) {
    PayloadSays(v, "type", "function_call") || PayloadSays(v, "type", "custom_tool_call")
  }

  predicate IsOutput(v: Json) {
    PayloadSays(v, "type", "function_call_output") || PayloadSays(v, "type", "custom_tool_call_output")
  }

  ghost predicate IsSpawnEnd(v: Json) {
    OfKind(v, "event_msg") && PayloadSays(v, "type", "collab_agent_spawn_end")
  }

  /** Of one of the four kinds that lineage is known of. */
  ghost predicate HasLineage(v: Json) {
    OfKind(v, "session_meta") || OfKind(v, "turn_context") || OfKind(v, "response_item") || OfKind(v, "event_msg")
  }

  /** The subtype a record is enriched by, by its kind and its payload's type. */
  lemma SubtypeRead(v: Json)
    ensures forall k :: RecordKind(v) == k <==> OfKind(v, k)
    ensures OfKind(v, "response_item") || OfKind(v, "event_msg") ==>
              forall t | t !in {"response_item", "event_msg"} :: Subtype(v) == t <==> PayloadSays(v, "type", t)
  {
    hide Get, Payload, RecordKind, OfKind, PayloadSays, PayloadSilent;
    forall k ensures RecordKind(v) == k <==> OfKind(v, k) {
      KindRead(v, k);
    }
    PathRead(v, "type");
  }

  /** What is read at a key of the payload, with something else to fall back on. */
  lemma SaysOr(v: Json, key: string, other: string, x: string)
    ensures OrElse(StringAtPath(Payload(v), [key]), Some(other)) == Some(x) <==>
            PayloadSays(v, key, x) || (PayloadSilent(v, key) && x == other)
  {
    hide StringAtPath, Payload, PayloadSays, PayloadSilent;
    PathRead(v, key);
  }

  lemma MetaEnriched(s: Session, v: Json, at: nat, ctx: Context)
    requires RecordKind(v) == "session_meta"
    ensures var p, e := s.env.codex(v), Enriched(s, v, at, ctx);
      && e.eventUuid == OrElse(StringAtPath(Payload(v), ["id"]), Some(ctx.sessionId))
      && e.parentEventUuid == ParentSession(v) && e.isSidechain == ParentSession(v).Some?
      && e.relatedToolUseId == p.relatedToolUseId
  {
    hide StringAtPath, ParentSession, Subtype, RecordKind, FirstToolId, SyntheticId;
  }

  lemma TurnEnriched(s: Session, v: Json, at: nat, ctx: Context)
    requires RecordKind(v) == "turn_context" || (RecordKind(v) == "event_msg" && Subtype(v) == "task_started")
    ensures var p, e := s.env.codex(v), Enriched(s, v, at, ctx);
      && e.eventUuid == OrElse(StringAtPath(Payload(v), ["turn_id"]), Some(SyntheticId(s.id, at)))
      && e.parentEventUuid == Some(ctx.sessionId) && e.isSidechain == ctx.parentSessionId.Some?
  {
    hide StringAtPath, ParentSession, Subtype, RecordKind, FirstToolId, SyntheticId;
  }

  lemma ResponseEnriched(s: Session, v: Json, at: nat, ctx: Context)
    requires RecordKind(v) == "response_item"
    ensures var p, e := s.env.codex(v), Enriched(s, v, at, ctx);
      && e.eventUuid == (if Subtype(v) in {"function_call", "custom_tool_call"}
                         then OrElse(FirstToolId(p.blocks), Some(SyntheticId(s.id, at)))
                         else if Subtype(v) in {"function_call_output", "custom_tool_call_output"} && p.relatedToolUseId.Some?
                         then Some(p.relatedToolUseId.value + ":output:" + Decimal.Render(at))
                         else Some(SyntheticId(s.id, at)))
      && e.parentEventUuid == Some(Anchor(ctx)) && e.isSidechain == ctx.parentSessionId.Some?
      && e.relatedToolUseId == p.relatedToolUseId
  {
    hide StringAtPath, ParentSession, Subtype, RecordKind, FirstToolId, SyntheticId;
  }

  lemma EventEnriched(s: Session, v: Json, at: nat, ctx: Context)
    requires RecordKind(v) == "event_msg" && Subtype(v) != "task_started"
    ensures var p, e := s.env.codex(v), Enriched(s, v, at, ctx);
      if Subtype(v) == "collab_agent_spawn_end" then
        && e.eventUuid == OrElse(StringAtPath(Payload(v), ["new_thread_id"]), Some(SyntheticId(s.id, at)))
        && e.parentEventUuid == Some(Anchor(ctx)) && !e.isSidechain
      else
        && e.eventUuid == Some(SyntheticId(s.id, at))
        && e.parentEventUuid == OrElse(StringAtPath(Payload(v), ["turn_id"]), Some(Anchor(ctx)))
        && e.isSidechain == ctx.parentSessionId.Some?
  {
    hide StringAtPath, ParentSession, Subtype, RecordKind, FirstToolId, SyntheticId;
  }

  lemma RelatedEnriched(s: Session, v: Json, at: nat, ctx: Context)
    ensures var p, e := s.env.codex(v), Enriched(s, v, at, ctx);
      e.relatedToolUseId ==
      if RecordKind(v) == "event_msg" then OrElse(p.relatedToolUseId, StringAtPath(Payload(v), ["call_id"]))
      else p.relatedToolUseId
  {
    hide StringAtPath, ParentSession, Subtype, RecordKind, FirstToolId, SyntheticId;
  }

  lemma OtherEnriched(s: Session, v: Json, at: nat, ctx: Context)
    requires RecordKind(v) !in {"session_meta", "turn_context", "response_item", "event_msg"}
    ensures Enriched(s, v, at, ctx) == s.env.codex(v).(subtype := Some(Subtype(v)))
  {
    hide StringAtPath, ParentSession, Subtype, RecordKind, FirstToolId, SyntheticId;
  }

  /** A session description has the id it gives, or else its session's, and hangs off the session it names, if any. */
  lemma MetaRow(s: Session, v: Json, at: nat, ctx: Context, x: string)
    requires OfKind(v, "session_meta")
    ensures var p, e := s.env.codex(v), Enriched(s, v, at, ctx);
      && (e.eventUuid == Some(x) <==> PayloadSays(v, "id", x) || (PayloadSilent(v, "id") && x == ctx.sessionId))
      && (e.parentEventUuid == Some(x) <==> NamesParent(v, x))
      && (e.isSidechain <==> exists y :: NamesParent(v, y))
      && e.relatedToolUseId == p.relatedToolUseId
  {
    hide Enriched, StringAtPath, OfKind, RecordKind, PayloadSays, Payload, NamesParent;
    KindRead(v, "session_meta");
    MetaEnriched(s, v, at, ctx);
    SaysOr(v, "id", ctx.sessionId, x);
    ParentRead(v);
    if ParentSession(v).Some? {
      assert NamesParent(v, ParentSession(v).value);
    }
  }

  /** The start of a turn has the turn's id and hangs off the session. */
  lemma TurnRow(s: Session, v: Json, at: nat, ctx: Context, x: string)
    requires StartsTurn(v)
    ensures var e, made := Enriched(s, v, at, ctx), "codex:" + s.id + ":" + Decimal.Render(at);
      && (e.eventUuid == Some(x) <==> PayloadSays(v, "turn_id", x) || (PayloadSilent(v, "turn_id") && x == made))
      && e.parentEventUuid == Some(ctx.sessionId)
      && (e.isSidechain <==> ctx.parentSessionId.Some?)
  {
    hide Enriched, Subtype, StringAtPath, OfKind, RecordKind, PayloadSays, Payload, PayloadSilent, Decimal.Render;
    SubtypeRead(v);
    TurnEnriched(s, v, at, ctx);
    SaysOr(v, "turn_id", SyntheticId(s.id, at), x);
  }

  /**
   A response item hangs off the turn under way. A call has the id of its tool use, an
   output that id and where it stands.
   */
  lemma ResponseRow(s: Session, v: Json, at: nat, ctx: Context)
    requires OfKind(v, "response_item")
    ensures var p, e, made := s.env.codex(v), Enriched(s, v, at, ctx), "codex:" + s.id + ":" + Decimal.Render(at);
      && (IsCall(v) && FirstToolId(p.blocks).Some? ==> e.eventUuid == FirstToolId(p.blocks))
      && (IsOutput(v) && p.relatedToolUseId.Some? ==>
            e.eventUuid == Some(p.relatedToolUseId.value + ":output:" + Decimal.Render(at)))
      && (!(IsCall(v) && FirstToolId(p.blocks).Some?) && !(IsOutput(v) && p.relatedToolUseId.Some?) ==>
            e.eventUuid == Some(made))
      && e.parentEventUuid == Some(Anchor(ctx)) && (e.isSidechain <==> ctx.parentSessionId.Some?)
      && e.relatedToolUseId == p.relatedToolUseId
  {
    hide Enriched, Subtype, OfKind, RecordKind, PayloadSays, Decimal.Render, FirstToolId;
    SubtypeRead(v);
    ResponseEnriched(s, v, at, ctx);
  }

  /**
   The end of a spawn has the id of the session it started, hangs off the turn under way,
   and is never of a sidechain. Any other status record hangs off the turn it names, or else
   the one under way. They may name the tool use they belong to.
   */
  lemma StatusRow(s: Session, v: Json, at: nat, ctx: Context, x: string)
    requires OfKind(v, "event_msg") && !StartsTurn(v)
    ensures var p, e, made := s.env.codex(v), Enriched(s, v, at, ctx), "codex:" + s.id + ":" + Decimal.Render(at);
      && (IsSpawnEnd(v) ==>
            && (e.eventUuid == Some(x) <==>
                PayloadSays(v, "new_thread_id", x) || (PayloadSilent(v, "new_thread_id") && x == made))
            && e.parentEventUuid == Some(Anchor(ctx)) && !e.isSidechain)
      && (!IsSpawnEnd(v) ==>
            && e.eventUuid == Some(made)
            && (e.parentEventUuid == Some(x) <==>
                PayloadSays(v, "turn_id", x) || (PayloadSilent(v, "turn_id") && x == Anchor(ctx)))
            && (e.isSidechain <==> ctx.parentSessionId.Some?))
      && (e.relatedToolUseId == Some(x) <==>
          p.relatedToolUseId == Some(x) || (p.relatedToolUseId.None? && PayloadSays(v, "call_id", x)))
  {
    hide Enriched, Subtype, StringAtPath, OfKind, RecordKind, PayloadSays, Payload, PayloadSilent, Decimal.Render;
    SubtypeRead(v);
    EventEnriched(s, v, at, ctx);
    RelatedEnriched(s, v, at, ctx);
    SaysOr(v, "new_thread_id", SyntheticId(s.id, at), x);
    SaysOr(v, "turn_id", Anchor(ctx), x);
    PathRead(v, "call_id");
  }

  /** A record of any other kind keeps what its parser gave it. */
  lemma OtherRow(s: Session, v: Json, at: nat, ctx: Context)
    requires !HasLineage(v)
    ensures Enriched(s, v, at, ctx) == s.env.codex(v).(subtype := Enriched(s, v, at, ctx).subtype)
  {
    hide Enriched, Subtype, OfKind, RecordKind;
    SubtypeRead(v);
    OtherEnriched(s, v, at, ctx);
  }

  /** Without a context a record is enriched as at the start of its session. */
  lemma NoContextIsFresh(parsed: Canonical, v: Json, session: Uuid, at: nat)
    ensures EnrichLineage(parsed, v, session, at, None) ==
            EnrichLineage(parsed, v, session, at, Some(Context(session, None, None)))
  {
    hide StringAtPath, ParentSession, PayloadType, RecordKind, FirstToolId, SyntheticId;
  }

  /** The subtype of a Codex row: its payload's type, where it has one; of other kinds, the kind. */
  lemma SubtypeExactly(s: Session, v: Json, at: nat, ctx: Context)
    ensures var e := Enriched(s, v, at, ctx);
      && (OfKind(v, "response_item") || OfKind(v, "event_msg") ==>
            && (forall t | PayloadSays(v, "type", t) :: e.subtype == Some(t))
            && (PayloadSilent(v, "type") ==> e.subtype.Some? && OfKind(v, e.subtype.value)))
      && (!OfKind(v, "response_item") && !OfKind(v, "event_msg") ==> e.subtype.Some? && OfKind(v, e.subtype.value))
  {
    hide Get, Payload, RecordKind, OfKind, PayloadSays, PayloadSilent, EnrichLineage;
    forall k ensures RecordKind(v) == k <==> OfKind(v, k) {
      KindRead(v, k);
    }
    PathRead(v, "type");
    EnrichmentKeeps(s.env.codex(v).(subtype := Some(Subtype(v))), v, s.id, at, Some(ctx));
  }

  /******* The session's parent link *******/

  /** Record `i` is the first that points at a parent session, and it points at `p`. */
  ghost predicate FirstParent(s: Session, vs: seq<Json>, p: Uuid, i: nat) {
    i < |vs| && DetectParent(s, vs[i]) == Some(p) && forall j | 0 <= j < i :: DetectParent(s, vs[j]).None?
  }

  lemma FirstParentNext(s: Session, front: seq<Json>, last: Json, p: Uuid)
    ensures (exists i: nat :: FirstParent(s, front + [last], p, i)) <==>
            || (exists i: nat :: FirstParent(s, front, p, i))
            || (DetectParent(s, last) == Some(p) && forall v | v in front :: DetectParent(s, v).None?)
  {
    hide DetectParent;
    var vs := front + [last];
    if exists i: nat :: FirstParent(s, vs, p, i) {
      var i: nat :| FirstParent(s, vs, p, i);
      assert forall j | 0 <= j < |front| :: vs[j] == front[j];
      if i < |front| {
        assert FirstParent(s, front, p, i);
      }
    }
    if exists i: nat :: FirstParent(s, front, p, i) {
      var i: nat :| FirstParent(s, front, p, i);
      assert forall j | 0 <= j <= i :: vs[j] == front[j];
      assert FirstParent(s, vs, p, i);
    } else if DetectParent(s, last) == Some(p) && forall v | v in front :: DetectParent(s, v).None? {
      assert forall j | 0 <= j < |front| :: vs[j] == front[j] && front[j] in front;
      assert FirstParent(s, vs, p, |front|);
    }
  }

  lemma {:induction false} CleanParent(s: Session, ls: seq<Line>, p: Uuid)
    ensures Clean(s, ls).parent == Some(p) <==> exists i: nat :: FirstParent(s, Records(s, ls), p, i)
    ensures Clean(s, ls).parent.None? <==> forall v | v in Records(s, ls) :: DetectParent(s, v).None?
  {
    hide DetectParent, Record, FirstParent;
    if ls == [] {
      NoFirstParent(s, p);
    } else {
      var last := |ls| - 1;
      CleanParent(s, ls[..last], p);
      assert ls[..last + 1] == ls;
      CleanStep(s, ls, last);
      hide Clean, Records, InsertEvent;
      var r, front := Record(s, ls[last].text), Records(s, ls[..last]);
      if r.Some? {
        InsertedEvent(s, Clean(s, ls[..last]), r.value, ls[last].offset, CleanContext(s, ls[..last]));
        FirstParentNext(s, front, r.value, p);
      } else {
        assert front + [] == front;
      }
    }
  }

  lemma NoFirstParent(s: Session, p: Uuid)
    ensures forall i: nat :: !FirstParent(s, [], p, i)
  {
  }

  /** In a settled state the parent link is what the first record that points at a parent points at. */
  lemma ParentIsFirstFound(s: Session, schedule: seq<Action>, p: Uuid)
    requires Settled(Run(s, START, schedule))
    ensures Run(s, START, schedule).db.parent == Some(p) <==>
            exists i: nat :: FirstParent(s, Records(s, AllLines(Run(s, START, schedule))), p, i)
  {
    hide Run, WellFiled, Clean, Records, FirstParent, Faithful;
    var h, k := RunKeeps(s, schedule);
    SettledPosition(s, Run(s, START, schedule), h, k);
    CleanParent(s, AllLines(Run(s, START, schedule)), p);
  }
}
