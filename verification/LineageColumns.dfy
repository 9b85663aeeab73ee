/**
 What the lineage columns of Codex rows mean: which earlier row a row's parent id
 names, and what becomes of the session's own parent link.
 */
module LineageColumns {
  import opened Wrappers
  import opened CodexContext
  import opened Ingester
  import opened Schedule
  import opened Reindex
  import Lines
  import Decimal
  import Text

  function TurnId(v: Json): Option<string> { StringAtPath(Payload(v), ["turn_id"]) }

  function MetaId(v: Json): Option<string> { StringAtPath(Payload(v), ["id"]) }

  /** The last record that set the turn. */
  function LastTurn(vs: seq<Json>): (i: Option<nat>)
    ensures i.Some? ==> i.value < |vs| && SetsTurn(vs[i.value]) && forall k | i.value < k < |vs| :: !SetsTurn(vs[k])
    ensures i.None? ==> forall k | 0 <= k < |vs| :: !SetsTurn(vs[k])
  {
    if vs == [] then None
    else if SetsTurn(vs[|vs| - 1]) then Some(|vs| - 1)
    else LastTurn(vs[..|vs| - 1])
  }

  /** The last record that described the session. */
  function LastMeta(vs: seq<Json>): (i: Option<nat>)
    ensures i.Some? ==> i.value < |vs| && SetsMeta(vs[i.value]) && forall k | i.value < k < |vs| :: !SetsMeta(vs[k])
    ensures i.None? ==> forall k | 0 <= k < |vs| :: !SetsMeta(vs[k])
  {
    if vs == [] then None
    else if SetsMeta(vs[|vs| - 1]) then Some(|vs| - 1)
    else LastMeta(vs[..|vs| - 1])
  }

  /** A context is what the last setter of each half left. */
  lemma {:induction false} ContextIsLast(vs: seq<Json>, session: Uuid)
    ensures var ctx, t, m := Fold(vs, session), LastTurn(vs), LastMeta(vs);
      && ctx.currentTurnId == (if t.Some? then TurnId(vs[t.value]) else None)
      && ctx.sessionId == (if m.Some? then MetaId(vs[m.value]).GetOr(session) else session)
      && ctx.parentSessionId == (if m.Some? then ParentSession(vs[m.value]) else None)
  {
    hide Update, SetsTurn, SetsMeta, StringAtPath, ParentSession;
    if vs != [] {
      ContextIsLast(vs[..|vs| - 1], session);
      UpdateSets(Fold(vs[..|vs| - 1], session), vs[|vs| - 1], session);
    }
  }

  /******* What enrichment gives each kind of record *******/

  /** Records that say nothing themselves about what they belong to. */
  predicate HangsOnContext(v: Json) {
    || RecordKind(v) == "response_item"
    || (RecordKind(v) == "event_msg" && PayloadType(v) == Some("collab_agent_spawn_end"))
    || (RecordKind(v) == "event_msg" && PayloadType(v) != Some("task_started") && TurnId(v).None?)
  }

  lemma SubtypeOf(v: Json)
    ensures RecordKind(v) == "event_msg" ==>
              Subtype(v) == PayloadType(v).GetOr("event_msg")
  {
    hide StringAtPath;
  }

  lemma HangingLineage(parsed: Canonical, v: Json, session: Uuid, at: nat, ctx: Context)
    requires parsed.subtype == Some(Subtype(v)) && HangsOnContext(v)
    ensures EnrichLineage(parsed, v, session, at, Some(ctx)).parentEventUuid == Some(Anchor(ctx))
    ensures EnrichLineage(parsed, v, session, at, Some(ctx)).isSidechain <==>
            ctx.parentSessionId.Some? && !(RecordKind(v) == "event_msg" && PayloadType(v) == Some("collab_agent_spawn_end"))
  {
    SubtypeOf(v);
    hide Subtype, ParentSession, StringAtPath, FirstToolId, SyntheticId, PayloadType;
  }

  lemma TurnLineage(parsed: Canonical, v: Json, session: Uuid, at: nat, ctx: Context)
    requires parsed.subtype == Some(Subtype(v)) && SetsTurn(v)
    ensures EnrichLineage(parsed, v, session, at, Some(ctx)).eventUuid == OrElse(TurnId(v), Some(SyntheticId(session, at)))
    ensures EnrichLineage(parsed, v, session, at, Some(ctx)).parentEventUuid == Some(ctx.sessionId)
  {
    SubtypeOf(v);
    hide Subtype, ParentSession, StringAtPath, FirstToolId, SyntheticId, PayloadType;
  }

  lemma MetaLineage(parsed: Canonical, v: Json, session: Uuid, at: nat, ctx: Context)
    requires SetsMeta(v)
    ensures EnrichLineage(parsed, v, session, at, Some(ctx)).eventUuid == OrElse(MetaId(v), Some(ctx.sessionId))
    ensures EnrichLineage(parsed, v, session, at, Some(ctx)).parentEventUuid == ParentSession(v)
    ensures EnrichLineage(parsed, v, session, at, Some(ctx)).isSidechain <==> ParentSession(v).Some?
  {
    hide ParentSession, StringAtPath, FirstToolId, SyntheticId, PayloadType;
  }

  /** Every record of a known kind gets an id, and all but the session's own description a parent. */
  lemma KnownKindsAreIdentified(parsed: Canonical, v: Json, session: Uuid, at: nat, ctx: Option<Context>)
    ensures var e := EnrichLineage(parsed, v, session, at, ctx);
      if RecordKind(v) in {"session_meta", "turn_context", "response_item", "event_msg"}
      then e.eventUuid.Some? && (RecordKind(v) != "session_meta" ==> e.parentEventUuid.Some?)
      else e == parsed
  {
    hide ParentSession, StringAtPath, FirstToolId, SyntheticId, PayloadType;
  }

  /** Made-up ids differ wherever the sessions or the offsets do. A UUID has no colon. */
  lemma SyntheticIdsDiffer(session: Uuid, a: nat, other: Uuid, b: nat)
    requires ':' !in session && ':' !in other
    requires SyntheticId(session, a) == SyntheticId(other, b)
    ensures session == other && a == b
  {
    var x, y := SyntheticId(session, a), SyntheticId(other, b);
    assert x[6..] == session + [':'] + Decimal.Render(a) && y[6..] == other + [':'] + Decimal.Render(b);
    Text.SameCut(session, Decimal.Render(a), other, Decimal.Render(b), ':');
    Decimal.RenderInjective(a, b);
  }

  /** A call is identified by its tool id; each output of it by that id and where it stands. */
  lemma CallsAndOutputs(
    call: Canonical, output: Canonical, c: Json, o: Json, session: Uuid, m: nat, n: nat, p: nat, ctx: Context, id: string)
    requires RecordKind(c) == "response_item" == RecordKind(o)
    requires call.subtype in {Some("function_call"), Some("custom_tool_call")} && FirstToolId(call.blocks) == Some(id)
    requires output.subtype in {Some("function_call_output"), Some("custom_tool_call_output")}
    requires output.relatedToolUseId == Some(id)
    ensures EnrichLineage(call, c, session, m, Some(ctx)).eventUuid == Some(id)
    ensures EnrichLineage(output, o, session, n, Some(ctx)).relatedToolUseId == Some(id)
    ensures EnrichLineage(output, o, session, n, Some(ctx)).eventUuid == EnrichLineage(output, o, session, p, Some(ctx)).eventUuid ==>
              n == p
    ensures EnrichLineage(output, o, session, n, Some(ctx)).eventUuid != Some(id)
  {
    var a, b := id + ":output:" + Decimal.Render(n), id + ":output:" + Decimal.Render(p);
    var k := |id + ":output:"|;
    assert a[k..] == Decimal.Render(n) && b[k..] == Decimal.Render(p);
    if a == b {
      Decimal.RenderInjective(n, p);
    }
    assert |a| > |id|;
    hide ParentSession, StringAtPath, FirstToolId, PayloadType, Decimal.Render, RecordKind, SyntheticId;
  }

  lemma {:induction false} FirstToolIdExactly(blocks: seq<Block>, id: string)
    ensures FirstToolId(blocks) == Some(id) <==>
            exists i :: 0 <= i < |blocks| && blocks[i].toolId == Some(id) && forall j | 0 <= j < i :: blocks[j].toolId.None?
  {
    if blocks != [] {
      FirstToolIdExactly(blocks[1..], id);
      if FirstToolId(blocks) == Some(id) {
        if blocks[0].toolId.None? {
          var i :| 0 <= i < |blocks[1..]| && blocks[1..][i].toolId == Some(id) && forall j | 0 <= j < i :: blocks[1..][j].toolId.None?;
          assert blocks[i + 1].toolId == Some(id);
          forall j | 0 <= j < i + 1 ensures blocks[j].toolId.None? {
            assert j > 0 ==> blocks[1..][j - 1] == blocks[j];
          }
        }
      }
      if exists i :: 0 <= i < |blocks| && blocks[i].toolId == Some(id) && forall j | 0 <= j < i :: blocks[j].toolId.None? {
        var i :| 0 <= i < |blocks| && blocks[i].toolId == Some(id) && forall j | 0 <= j < i :: blocks[j].toolId.None?;
        if i > 0 {
          assert blocks[1..][i - 1].toolId == Some(id);
          assert forall j | 0 <= j < i - 1 :: blocks[1..][j] == blocks[j + 1];
        }
      }
    }
  }

  /******* Which row a parent id names *******/

  /** The columns of the `j`th row of a Codex session. */
  lemma ColumnsAt(s: Session, db: Db, offs: seq<nat>, vs: seq<Json>, j: nat)
    requires s.source.Codex? && AllClean(s, db, offs, vs) && j < |vs|
    ensures |offs| == |vs| && offs[j] in db.rows
    ensures var parsed := s.env.codex(vs[j]).(subtype := Some(Subtype(vs[j])));
      var e := EnrichLineage(parsed, vs[j], s.id, offs[j], Some(Fold(vs[..j], s.id)));
      var cols := db.rows[offs[j]].cols;
      cols.eventUuid == e.eventUuid && cols.parentEventUuid == e.parentEventUuid && cols.isSidechain == e.isSidechain
  {
    hide EnrichLineage, FoldFrom, Subtype, BlocksAt, InsertBlocks, Increasing, Kind;
    assert CleanAt(s, db, offs, vs, j);
  }

  /**
   In the tables of a Codex session, a row that hangs on its context names as its parent
   the row of the turn it is in; outside a turn, the session as last described, or the
   session itself. It is a sidechain row exactly if that description names a parent session.
   */
  lemma ParentNamesTurnOrSession(s: Session, db: Db, offs: seq<nat>, vs: seq<Json>, j: nat)
    requires s.source.Codex? && AllClean(s, db, offs, vs) && j < |vs| && HangsOnContext(vs[j])
    ensures |offs| == |vs| && offs[j] in db.rows
    ensures var cols, t, m := db.rows[offs[j]].cols, LastTurn(vs[..j]), LastMeta(vs[..j]);
      && (if t.Some? && TurnId(vs[t.value]).Some? then
            && offs[t.value] in db.rows && offs[t.value] < offs[j]
            && cols.parentEventUuid == db.rows[offs[t.value]].cols.eventUuid == TurnId(vs[t.value])
          else if m.Some? && MetaId(vs[m.value]).Some? then
            && offs[m.value] in db.rows && offs[m.value] < offs[j]
            && cols.parentEventUuid == db.rows[offs[m.value]].cols.eventUuid == MetaId(vs[m.value])
          else cols.parentEventUuid == Some(s.id))
      && (RecordKind(vs[j]) == "response_item" ==>
            (cols.isSidechain <==> m.Some? && ParentSession(vs[m.value]).Some?))
  {
    hide EnrichLineage, FoldFrom, Subtype, AllClean, SetsTurn, SetsMeta, HangsOnContext, StringAtPath, ParentSession, RecordKind;
    var front := vs[..j];
    ColumnsAt(s, db, offs, vs, j);
    ContextIsLast(front, s.id);
    var parsed := s.env.codex(vs[j]).(subtype := Some(Subtype(vs[j])));
    HangingLineage(parsed, vs[j], s.id, offs[j], Fold(front, s.id));
    OffsetsRise(s, db, offs, vs);
    var t, m := LastTurn(front), LastMeta(front);
    if t.Some? {
      assert front[t.value] == vs[t.value];
      ColumnsAt(s, db, offs, vs, t.value);
      TurnLineage(s.env.codex(vs[t.value]).(subtype := Some(Subtype(vs[t.value]))), vs[t.value], s.id, offs[t.value],
                  Fold(vs[..t.value], s.id));
    }
    if m.Some? {
      assert front[m.value] == vs[m.value];
      ColumnsAt(s, db, offs, vs, m.value);
      MetaLineage(s.env.codex(vs[m.value]).(subtype := Some(Subtype(vs[m.value]))), vs[m.value], s.id, offs[m.value],
                  Fold(vs[..m.value], s.id));
    }
  }

  lemma OffsetsRise(s: Session, db: Db, offs: seq<nat>, vs: seq<Json>)
    requires AllClean(s, db, offs, vs)
    ensures |offs| == |vs| && forall i, j | 0 <= i < j < |offs| :: offs[i] < offs[j]
  {
    hide CleanAt;
  }

  /******* The session's own parent link *******/

  /** What a Claude record says under one key, if that can be a parent. */
  function Hint(s: Session, v: Json, key: string): Option<Uuid> {
    var text := AsStr(Get(v, key));
    var hint := if text.Some? then s.env.parseUuid(text.value) else None;
    if hint.Some? && hint.value != s.id && (key == "leafUuid" ==> IsCompactSummary(v)) then hint else None
  }

  ghost predicate FirstAt(s: Session, v: Json, keys: seq<string>, p: Uuid, i: nat) {
    i < |keys| && Hint(s, v, keys[i]) == Some(p) && forall j | 0 <= j < i :: Hint(s, v, keys[j]).None?
  }

  lemma FirstAtShifts(s: Session, v: Json, keys: seq<string>, p: Uuid, i: nat)
    requires keys != [] && Hint(s, v, keys[0]).None?
    ensures FirstAt(s, v, keys, p, i + 1) <==> FirstAt(s, v, keys[1..], p, i)
    ensures !FirstAt(s, v, keys, p, 0)
  {
    hide Hint;
    assert forall j | 0 < j < |keys| :: keys[1..][j - 1] == keys[j];
  }

  /** The first key that gives a parent decides, and it is never the session itself. */
  lemma {:induction false} FirstHintDecides(s: Session, v: Json, keys: seq<string>, p: Uuid)
    ensures FirstParentHint(s, v, keys) == Some(p) <==> exists i: nat :: FirstAt(s, v, keys, p, i)
    ensures FirstParentHint(s, v, keys) != Some(s.id)
  {
    hide IsCompactSummary;
    if keys != [] {
      HintIsTried(s, v, keys);
      hide FirstParentHint, Hint;
      FirstHintDecides(s, v, keys[1..], p);
      if Hint(s, v, keys[0]).None? {
        if exists i: nat :: FirstAt(s, v, keys[1..], p, i) {
          var i: nat :| FirstAt(s, v, keys[1..], p, i);
          FirstAtShifts(s, v, keys, p, i);
        }
        if exists i: nat :: FirstAt(s, v, keys, p, i) {
          var i: nat :| FirstAt(s, v, keys, p, i);
          FirstAtShifts(s, v, keys, p, if i == 0 then 0 else i - 1);
        }
      } else if Hint(s, v, keys[0]) == Some(p) {
        assert FirstAt(s, v, keys, p, 0);
      }
    }
  }

  lemma HintIsTried(s: Session, v: Json, keys: seq<string>)
    requires keys != []
    ensures FirstParentHint(s, v, keys) == OrElse(Hint(s, v, keys[0]), FirstParentHint(s, v, keys[1..]))
    ensures Hint(s, v, keys[0]) != Some(s.id)
  {
    hide IsCompactSummary;
  }

  lemma NeverOwnParent(s: Session, v: Json)
    ensures DetectParent(s, v) != Some(s.id)
  {
    FirstHintDecides(s, v, PARENT_KEYS, s.id);
    hide FirstParentHint, ParentSession;
  }

  lemma StepKeepsParent(s: Session, st: State, a: Action)
    ensures st.db.parent.Some? ==> Apply(s, st, a).db.parent == st.db.parent
    ensures st.db.parent != Some(s.id) ==> Apply(s, st, a).db.parent != Some(s.id)
  {
    hide InsertEvent, Record, LoadContext, DetectParent;
    match a
    case StoreLine =>
      if AtLine(st) && !st.tick.stored {
        var line := Lines.Scan(st.tick.buf).lines[st.tick.next];
        var r := Record(s, line.text);
        if r.Some? {
          InsertedEvent(s, st.db, r.value, st.tick.base + line.offset, st.tick.ctx);
        }
      }
    case FinishLine =>
      if AtLine(st) {
        var r := Record(s, Lines.Scan(st.tick.buf).lines[st.tick.next].text);
        if r.Some? {
          NeverOwnParent(s, r.value);
        }
      }
    case _ =>
  }

  /** The parent link is written once, and never to the session itself. */
  lemma {:induction false} ParentIsWrittenOnce(s: Session, schedule: seq<Action>, n: nat)
    requires n <= |schedule|
    ensures var before, now := Run(s, START, schedule[..n]).db.parent, Run(s, START, schedule).db.parent;
      && (before.Some? ==> now == before)
      && now != Some(s.id)
    decreases |schedule|
  {
    hide Apply;
    if schedule == [] {
    } else if n == |schedule| {
      assert schedule[..n] == schedule;
      ParentIsWrittenOnce(s, schedule[..n - 1], 0);
      StepKeepsParent(s, Run(s, START, schedule[..n - 1]), schedule[n - 1]);
    } else {
      var front := schedule[..|schedule| - 1];
      assert front[..n] == schedule[..n];
      ParentIsWrittenOnce(s, front, n);
      StepKeepsParent(s, Run(s, START, front), schedule[|schedule| - 1]);
    }
  }
}
