/**
 The Codex session context: what one record does to it, and whether reading it
 back from stored rows gives what an uninterrupted run would hold.
 */
module CodexContext {
  import opened Wrappers

  /** A decoded JSON value. Numbers keep their text; nothing here computes with them. */
  datatype Json =
    | Null
    | Bool(b: bool)
    | Num(text: string)
    | Str(s: string)
    | Arr(items: seq<Json>)
    | Obj(fields: map<string, Json>)

  /** The canonical text of a UUID; `to_string` is the identity on it. */
  type Uuid = string

  function Get(v: Json, key: string): Option<Json> {
    if v.Obj? && key in v.fields then Some(v.fields[key]) else None
  }

  function AsStr(v: Option<Json>): Option<string> {
    if v.Some? && v.value.Str? then Some(v.value.s) else None
  }

  function StringAtPath(v: Json, path: seq<string>): Option<string> {
    if path == [] then AsStr(Some(v))
    else match Get(v, path[0])
      case None => None
      case Some(inner) => StringAtPath(inner, path[1..])
  }

  function Payload(v: Json): Json { Get(v, "payload").GetOr(Null) }

  /** `codex_record_kind(..).unwrap_or("")` */
  function RecordKind(v: Json): string {
    OrElse(AsStr(Get(v, "kind")), AsStr(Get(v, "type"))).GetOr("")
  }

  function PayloadType(v: Json): Option<string> { AsStr(Get(Payload(v), "type")) }

  /** The subtype the Codex parser gives a record. */
  function Subtype(v: Json): string {
    match RecordKind(v)
    case "response_item" => PayloadType(v).GetOr("response_item")
    case "event_msg" => PayloadType(v).GetOr("event_msg")
    case other => other
  }

  /** The `kind` column a Codex record is stored under. */
  function StoredKind(v: Json): string {
    var subtype := if Subtype(v) == "" then "unknown" else Subtype(v);
    match RecordKind(v)
    case "response_item" => subtype
    case "event_msg" => subtype
    case "" => subtype
    case outer => outer
  }

  function ParentSession(v: Json): Option<string> {
    OrElse(StringAtPath(Payload(v), ["forked_from_id"]),
           StringAtPath(Payload(v), ["source", "subagent", "thread_spawn", "parent_thread_id"]))
  }

  datatype Context = Context(sessionId: string, parentSessionId: Option<string>, currentTurnId: Option<string>)

  function Fresh(session: Uuid): Context { Context(session, None, None) }

  predicate SetsMeta(v: Json) { RecordKind(v) == "session_meta" }

  predicate SetsTurn(v: Json) {
    RecordKind(v) == "turn_context" || (RecordKind(v) == "event_msg" && PayloadType(v) == Some("task_started"))
  }

  function Update(ctx: Context, v: Json, session: Uuid): Context {
    match RecordKind(v)
    case "session_meta" =>
      ctx.(sessionId := StringAtPath(Payload(v), ["id"]).GetOr(session), parentSessionId := ParentSession(v))
    case "turn_context" =>
      ctx.(currentTurnId := StringAtPath(Payload(v), ["turn_id"]))
    case "event_msg" =>
      if PayloadType(v) == Some("task_started") then
        ctx.(currentTurnId := StringAtPath(Payload(v), ["turn_id"]))
      else ctx
    case _ => ctx
  }

  function FoldFrom(ctx: Context, vs: seq<Json>, session: Uuid): Context {
    if vs == [] then ctx
    else Update(FoldFrom(ctx, vs[..|vs| - 1], session), vs[|vs| - 1], session)
  }

  function Fold(vs: seq<Json>, session: Uuid): Context { FoldFrom(Fresh(session), vs, session) }

  lemma FoldOne(ctx: Context, v: Json, session: Uuid)
    ensures FoldFrom(ctx, [v], session) == Update(ctx, v, session)
  {
    var vs := [v];
    assert vs[..0] == [];
    assert FoldFrom(ctx, vs[..|vs| - 1], session) == ctx;
  }

  lemma {:induction false} FoldConcat(ctx: Context, a: seq<Json>, b: seq<Json>, session: Uuid)
    ensures FoldFrom(ctx, a + b, session) == FoldFrom(FoldFrom(ctx, a, session), b, session)
  {
    if b == [] {
      assert a + b == a;
    } else {
      var last := |b| - 1;
      assert (a + b)[..|a| + last] == a + b[..last];
      FoldConcat(ctx, a, b[..last], session);
    }
  }

  /** What one record leaves of each half of a context. */
  lemma UpdateSets(ctx: Context, v: Json, session: Uuid)
    ensures var after := Update(ctx, v, session);
      && (if SetsMeta(v) then
            after.sessionId == StringAtPath(Payload(v), ["id"]).GetOr(session) &&
            after.parentSessionId == ParentSession(v)
          else after.sessionId == ctx.sessionId && after.parentSessionId == ctx.parentSessionId)
      && (if SetsTurn(v) then after.currentTurnId == StringAtPath(Payload(v), ["turn_id"])
          else after.currentTurnId == ctx.currentTurnId)
  {
    hide StringAtPath, ParentSession, PayloadType;
  }

  /**
   Two folds of the same records agree on each half of the context that some
   record sets, and otherwise keep what they started from.
   */
  lemma {:induction false} FoldForgets(c: Context, d: Context, vs: seq<Json>, session: Uuid)
    ensures var x, y := FoldFrom(c, vs, session), FoldFrom(d, vs, session);
      && (if exists i :: 0 <= i < |vs| && SetsMeta(vs[i])
          then x.sessionId == y.sessionId && x.parentSessionId == y.parentSessionId
          else x.sessionId == c.sessionId && x.parentSessionId == c.parentSessionId &&
               y.sessionId == d.sessionId && y.parentSessionId == d.parentSessionId)
      && (if exists i :: 0 <= i < |vs| && SetsTurn(vs[i])
          then x.currentTurnId == y.currentTurnId
          else x.currentTurnId == c.currentTurnId && y.currentTurnId == d.currentTurnId)
  {
    hide Update, SetsMeta, SetsTurn;
    if vs != [] {
      var last := |vs| - 1;
      FoldForgets(c, d, vs[..last], session);
      UpdateSets(FoldFrom(c, vs[..last], session), vs[last], session);
      UpdateSets(FoldFrom(d, vs[..last], session), vs[last], session);
      assert forall i :: 0 <= i < last ==> vs[..last][i] == vs[i];
      assert SetsMeta(vs[last]) ==> exists i :: 0 <= i < |vs| && SetsMeta(vs[i]);
      assert SetsTurn(vs[last]) ==> exists i :: 0 <= i < |vs| && SetsTurn(vs[i]);
    }
  }

  /** Crash replay: folding an already-folded suffix once more changes nothing. */
  lemma ReplayAbsorbed(ctx: Context, prefix: seq<Json>, suffix: seq<Json>, session: Uuid)
    ensures var held := FoldFrom(ctx, prefix + suffix, session);
      FoldFrom(held, suffix, session) == held
  {
    FoldConcat(ctx, prefix, suffix, session);
    FoldForgets(FoldFrom(ctx, prefix, session), FoldFrom(ctx, prefix + suffix, session), suffix, session);
  }

  /** One stored event, as the context query sees it. */
  datatype Stored = Stored(agent: string, kind: string, payload: Json)

  ghost predicate IsLatest(rows: map<nat, Stored>, kinds: set<string>, at: nat) {
    && at in rows && rows[at].agent == "codex" && rows[at].kind in kinds
    && forall o | o in rows && rows[o].agent == "codex" && rows[o].kind in kinds :: o <= at
  }

  /** `WHERE agent = 'codex' AND kind IN (..) ORDER BY byte_offset DESC LIMIT 1` */
  ghost function Latest(rows: map<nat, Stored>, kinds: set<string>): Option<Json> {
    if exists at :: IsLatest(rows, kinds, at) then
      var at :| IsLatest(rows, kinds, at);
      Some(rows[at].payload)
    else None
  }

  const META_KINDS: set<string> := {"session_meta"}
  const TURN_KINDS: set<string> := {"turn_context", "task_started"}

  ghost function Load(rows: map<nat, Stored>, session: Uuid): Context {
    var ctx := Fresh(session);
    var ctx := match Latest(rows, META_KINDS) case Some(v) => Update(ctx, v, session) case None => ctx;
    match Latest(rows, TURN_KINDS) case Some(v) => Update(ctx, v, session) case None => ctx
  }

  function StoredRow(v: Json): Stored { Stored("codex", StoredKind(v), v) }

  /** A record stored under a kind the context query looks for, though the record does not set the context. */
  predicate Misfiled(v: Json) {
    var kind := RecordKind(v);
    || kind == "task_started"
    || (kind == "response_item" &&
        PayloadType(v) in {Some("session_meta"), Some("turn_context"), Some("task_started")})
    || (kind == "event_msg" && PayloadType(v) in {Some("session_meta"), Some("turn_context")})
  }

  lemma KindVersusEffect(v: Json)
    ensures SetsMeta(v) ==> StoredKind(v) in META_KINDS
    ensures SetsTurn(v) ==> StoredKind(v) in TURN_KINDS
    ensures Misfiled(v) <==>
            (StoredKind(v) in META_KINDS && !SetsMeta(v)) || (StoredKind(v) in TURN_KINDS && !SetsTurn(v))
  {
  }

  lemma LatestAfterInsert(rows: map<nat, Stored>, at: nat, row: Stored, kinds: set<string>)
    requires forall o | o in rows :: o < at
    ensures Latest(rows[at := row], kinds) ==
            if row.agent == "codex" && row.kind in kinds then Some(row.payload) else Latest(rows, kinds)
  {
    var after := rows[at := row];
    if row.agent == "codex" && row.kind in kinds {
      assert IsLatest(after, kinds, at);
    } else {
      forall o ensures IsLatest(after, kinds, o) <==> IsLatest(rows, kinds, o) {
        assert forall p | p in rows :: p in after && after[p] == rows[p];
        assert forall p | p in after && p != at :: p in rows;
      }
    }
  }

  predicate Increasing(offs: seq<nat>) { forall i, j | 0 <= i < j < |offs| :: offs[i] < offs[j] }

  /** The events table after storing `vs` at the offsets `offs`. */
  function Table(offs: seq<nat>, vs: seq<Json>): (t: map<nat, Stored>)
    requires |offs| == |vs|
    ensures forall o :: o in t <==> o in offs
  {
    if offs == [] then map[]
    else
      var last := |offs| - 1;
      assert offs == offs[..last] + [offs[last]];
      Table(offs[..last], vs[..last])[offs[last] := StoredRow(vs[last])]
  }

  /** The records the query finds are ones that set their half of the context. */
  ghost predicate FindsSetters(rows: map<nat, Stored>) {
    && (Latest(rows, META_KINDS).Some? ==> SetsMeta(Latest(rows, META_KINDS).value))
    && (Latest(rows, TURN_KINDS).Some? ==> SetsTurn(Latest(rows, TURN_KINDS).value))
  }

  /** Storing a well-filed record moves the reloaded context as the record moves a running one. */
  lemma LoadNext(rows: map<nat, Stored>, at: nat, v: Json)
    requires (forall o | o in rows :: o < at) && !Misfiled(v) && FindsSetters(rows)
    ensures FindsSetters(rows[at := StoredRow(v)])
    ensures forall session :: Load(rows[at := StoredRow(v)], session) == Update(Load(rows, session), v, session)
  {
    hide IsLatest, StringAtPath, ParentSession;
    KindVersusEffect(v);
    hide Misfiled, StoredKind;
    LatestAfterInsert(rows, at, StoredRow(v), META_KINDS);
    LatestAfterInsert(rows, at, StoredRow(v), TURN_KINDS);
    hide Latest;
    forall session ensures Load(rows[at := StoredRow(v)], session) == Update(Load(rows, session), v, session) {
      if !SetsMeta(v) && !SetsTurn(v) {
        SetsNothing(Load(rows, session), v, session);
      }
    }
  }

  lemma SetsNothing(ctx: Context, v: Json, session: Uuid)
    requires !SetsMeta(v) && !SetsTurn(v)
    ensures Update(ctx, v, session) == ctx
  {
  }

  lemma NothingStored()
    ensures FindsSetters(map[]) && forall session :: Load(map[], session) == Fresh(session)
  {
  }

  /** Reading the context back from stored rows gives the running fold. */
  lemma {:induction false} ReloadIsFold(offs: seq<nat>, vs: seq<Json>)
    requires |offs| == |vs| && Increasing(offs)
    requires forall i | 0 <= i < |vs| :: !Misfiled(vs[i])
    ensures forall session :: Load(Table(offs, vs), session) == Fold(vs, session)
    ensures FindsSetters(Table(offs, vs))
  {
    hide Update, Misfiled, Load, FindsSetters;
    if vs == [] {
      NothingStored();
    } else {
      var last := |vs| - 1;
      ReloadIsFold(offs[..last], vs[..last]);
      var before := Table(offs[..last], vs[..last]);
      LoadNext(before, offs[last], vs[last]);
      TableNext(offs, vs);
      hide Table;
      forall session ensures Load(Table(offs, vs), session) == Fold(vs, session) {
        assert Load(before, session) == Fold(vs[..last], session);
      }
    }
  }

  lemma TableNext(offs: seq<nat>, vs: seq<Json>)
    requires |offs| == |vs| > 0
    ensures var last := |vs| - 1;
      Table(offs, vs) == Table(offs[..last], vs[..last])[offs[last] := StoredRow(vs[last])]
  {
    hide StoredRow;
  }

  /** Storing `v` after the well-filed records `vs` leaves the reloaded context equal to the running one. */
  ghost predicate ReloadSurvives(offs: seq<nat>, vs: seq<Json>, v: Json, session: Uuid) {
    |offs| == |vs| + 1 && Increasing(offs) && (forall u | u in vs :: !Misfiled(u)) ==>
      Load(Table(offs, vs + [v]), session) == Fold(vs + [v], session)
  }

  /** A record whose effect a reload loses once the misfiled record `v` is stored after it. */
  function Hidden(v: Json, session: Uuid): (w: Json)
    ensures !Misfiled(w)
  {
    if StoredKind(v) in META_KINDS then
      Obj(map["type" := Str("session_meta"), "payload" := Obj(map["id" := Str(session + "'")])])
    else
      Obj(map["type" := Str("turn_context"), "payload" := Obj(map["turn_id" := Str(session + "'")])])
  }

  /** What a response item is attached to: the current turn, or else the session. */
  function Anchor(ctx: Context): string { ctx.currentTurnId.GetOr(ctx.sessionId) }

  lemma HiddenIsHeld(v: Json, session: Uuid)
    ensures Anchor(Update(Fresh(session), Hidden(v, session), session)) == session + "'"
  {
    var p := Payload(Hidden(v, session));
    assert StringAtPath(Str(session + "'"), []) == Some(session + "'");
    if StoredKind(v) in META_KINDS {
      assert StringAtPath(p, ["id"]) == Some(session + "'");
    } else {
      assert StringAtPath(p, ["turn_id"]) == Some(session + "'");
    }
  }

  lemma TwoRows(o: nat, p: nat, w: Json, v: Json, session: Uuid, kinds: set<string>)
    requires o < p
    ensures Latest(Table([o, p], [w, v]), kinds) ==
            if StoredKind(v) in kinds then Some(v) else if StoredKind(w) in kinds then Some(w) else None
    ensures Fold([w, v], session) == Update(Update(Fresh(session), w, session), v, session)
  {
    FoldOne(Fresh(session), w, session);
    FoldOne(Fold([w], session), v, session);
    FoldConcat(Fresh(session), [w], [v], session);
    assert [w] + [v] == [w, v];
    assert [o, p][..1] == [o] && [w, v][..1] == [w];
    assert [o][..0] == [] && [w][..0] == [];
    LatestAfterInsert(Table([o], [w]), p, StoredRow(v), kinds);
    LatestAfterInsert(map[], o, StoredRow(w), kinds);
  }

  lemma MisfiledDoesNothing(v: Json, session: Uuid)
    requires Misfiled(v)
    ensures forall c :: Update(c, v, session) == c
  {
  }

  lemma MisfiledHidesContext(o: nat, p: nat, v: Json, session: Uuid)
    requires o < p && Misfiled(v)
    ensures Anchor(Load(Table([o, p], [Hidden(v, session), v]), session)) == session
    ensures Anchor(Fold([Hidden(v, session), v], session)) == session + "'" != session
  {
    hide StringAtPath, Table, IsLatest, ParentSession;
    KindVersusEffect(v);
    KindVersusEffect(Hidden(v, session));
    HiddenIsHeld(v, session);
    TwoRows(o, p, Hidden(v, session), v, session, META_KINDS);
    TwoRows(o, p, Hidden(v, session), v, session, TURN_KINDS);
    MisfiledDoesNothing(v, session);
    assert |session + "'"| == |session| + 1;
  }

  /** The reload is right after every history exactly when the record is not misfiled. */
  lemma ReloadExactlyWhen(v: Json, session: Uuid)
    ensures !Misfiled(v) <==> forall offs: seq<nat>, vs: seq<Json> :: ReloadSurvives(offs, vs, v, session)
  {
    hide Misfiled, Load, FoldFrom, Table, Hidden;
    if Misfiled(v) {
      MisfiledHidesContext(0, 1, v, session);
      assert [Hidden(v, session)] + [v] == [Hidden(v, session), v];
      assert !ReloadSurvives([0, 1], [Hidden(v, session)], v, session);
    } else {
      forall offs: seq<nat>, vs: seq<Json> ensures ReloadSurvives(offs, vs, v, session) {
        if |offs| == |vs| + 1 && Increasing(offs) && forall u | u in vs :: !Misfiled(u) {
          ReloadIsFold(offs, vs + [v]);
        }
      }
    }
  }
}
