/**
 The transcript ingester of one session as a step system: bytes are appended to
 the file, a tick reads from the committed offset, lines are stored one at a
 time, the offset is committed at the end, and the process may die at any point.
 */
module Ingester {
  import opened Wrappers
  import opened Lines
  import opened CodexContext
  import Decimal

  datatype Block = Block(
    ord: int, kind: string, text: Option<string>, toolId: Option<string>, toolName: Option<string>,
    toolNameCanonical: Option<string>, toolInput: Option<Json>, toolOutput: Option<Json>,
    isError: Option<bool>, raw: Option<Json>)

  datatype Canonical = Canonical(
    speaker: string, contentKind: string, eventUuid: Option<string>, parentEventUuid: Option<string>,
    relatedToolUseId: Option<string>, isSidechain: bool, isMeta: bool, subtype: Option<string>,
    blocks: seq<Block>)

  datatype Source = ClaudeCode | Codex {
    function AgentId(): string { if Codex? then "codex" else "claude-code" }
  }

  /**
   The code this model does not look into: the JSON decoder, the two record
   parsers (the Codex parser up to its subtype), UUID parsing, the search text
   and the record's own timestamp. Each is some deterministic function.
   */
  datatype Env = Env(
    decode: Bytes -> Option<Json>,
    parseUuid: string -> Option<Uuid>,
    claude: Json -> Canonical,
    codex: Json -> Canonical,
    searchText: Canonical -> string,
    stamp: Json -> Option<string>)

  /** What is fixed for one session: the environment, the agent, and the session's id. */
  datatype Session = Session(env: Env, source: Source, id: Uuid)

  /** The derived columns of an event row; `speaker` and `contentKind` are NULL until derived. */
  datatype Columns = Columns(
    speaker: Option<string>, contentKind: Option<string>, eventUuid: Option<string>,
    parentEventUuid: Option<string>, relatedToolUseId: Option<string>, isSidechain: bool, isMeta: bool,
    subtype: Option<string>, searchText: string)

  datatype Row = Row(kind: string, payload: Json, agent: string, stamp: Option<string>, cols: Columns)

  /** This session's part of the database. */
  datatype Db = Db(rows: map<nat, Row>, blocks: map<(nat, int), Block>, parent: Option<Uuid>, offset: nat)

  const EMPTY_DB := Db(map[], map[], None, 0)

  /******* One record *******/

  function FirstToolId(blocks: seq<Block>): Option<string> {
    if blocks == [] then None
    else if blocks[0].toolId.Some? then blocks[0].toolId
    else FirstToolId(blocks[1..])
  }

  function SyntheticId(session: Uuid, at: nat): string { "codex:" + session + ":" + Decimal.Render(at) }

  function EnrichLineage(parsed: Canonical, v: Json, session: Uuid, at: nat, ctx: Option<Context>): Canonical {
    var sessionId := if ctx.Some? then ctx.value.sessionId else session;
    var sessionParent := if ctx.Some? then ctx.value.parentSessionId else None;
    var turn := if ctx.Some? then ctx.value.currentTurnId else None;
    var synthetic := Some(SyntheticId(session, at));
    var payload := Payload(v);
    var subtype := parsed.subtype.GetOr("");
    match RecordKind(v)
    case "session_meta" =>
      parsed.(eventUuid := OrElse(StringAtPath(payload, ["id"]), Some(sessionId)),
              parentEventUuid := ParentSession(v),
              isSidechain := ParentSession(v).Some?)
    case "turn_context" =>
      parsed.(eventUuid := OrElse(StringAtPath(payload, ["turn_id"]), synthetic),
              parentEventUuid := Some(sessionId),
              isSidechain := sessionParent.Some?)
    case "response_item" =>
      parsed.(parentEventUuid := OrElse(turn, Some(sessionId)),
              isSidechain := sessionParent.Some?,
              eventUuid :=
                if subtype in {"function_call", "custom_tool_call"} then
                  OrElse(FirstToolId(parsed.blocks), synthetic)
                else if subtype in {"function_call_output", "custom_tool_call_output"} then
                  if parsed.relatedToolUseId.Some?
                  then Some(parsed.relatedToolUseId.value + ":output:" + Decimal.Render(at))
                  else synthetic
                else synthetic)
    case "event_msg" =>
      var p := parsed.(relatedToolUseId := OrElse(parsed.relatedToolUseId, StringAtPath(payload, ["call_id"])),
                       isSidechain := sessionParent.Some?);
      (match subtype
       case "task_started" =>
         p.(eventUuid := OrElse(StringAtPath(payload, ["turn_id"]), synthetic), parentEventUuid := Some(sessionId))
       case "collab_agent_spawn_end" =>
         p.(eventUuid := OrElse(StringAtPath(payload, ["new_thread_id"]), synthetic),
            parentEventUuid := OrElse(turn, Some(sessionId)),
            isSidechain := false)
       case _ =>
         p.(eventUuid := synthetic,
            parentEventUuid := OrElse(OrElse(StringAtPath(payload, ["turn_id"]), turn), Some(sessionId))))
    case _ => parsed
  }

  function Parse(s: Session, agent: string, v: Json, at: nat, ctx: Option<Context>): Canonical {
    if agent == "codex" then
      EnrichLineage(s.env.codex(v).(subtype := Some(Subtype(v))), v, s.id, at, ctx)
    else s.env.claude(v)
  }

  function Kind(source: Source, v: Json): string {
    match source
    case ClaudeCode => AsStr(Get(v, "type")).GetOr("unknown")
    case Codex => StoredKind(v)
  }

  function Derived(s: Session, c: Canonical): Columns {
    Columns(Some(c.speaker), Some(c.contentKind), c.eventUuid, c.parentEventUuid, c.relatedToolUseId,
            c.isSidechain, c.isMeta, c.subtype, s.env.searchText(c))
  }

  function MakeRow(s: Session, v: Json, at: nat, ctx: Option<Context>): Row {
    Row(Kind(s.source, v), v, s.source.AgentId(), s.env.stamp(v),
        Derived(s, Parse(s, s.source.AgentId(), v, at, ctx)))
  }

  /** `INSERT .. ON CONFLICT (session_uuid, byte_offset, ord) DO UPDATE`, block by block. */
  function InsertBlocks(table: map<(nat, int), Block>, at: nat, bs: seq<Block>): map<(nat, int), Block> {
    if bs == [] then table
    else InsertBlocks(table, at, bs[..|bs| - 1])[(at, bs[|bs| - 1].ord) := bs[|bs| - 1]]
  }

  /** One transaction: the row with `ON CONFLICT DO NOTHING`, and its blocks if the row was new. */
  function InsertEvent(s: Session, db: Db, v: Json, at: nat, ctx: Option<Context>): Db {
    if at in db.rows then db
    else
      db.(rows := db.rows[at := MakeRow(s, v, at, ctx)],
          blocks := InsertBlocks(db.blocks, at, Parse(s, s.source.AgentId(), v, at, ctx).blocks))
  }

  /******* Parent links *******/

  function Lower(s: string): string {
    seq(|s|, i requires 0 <= i < |s| => if 'A' <= s[i] <= 'Z' then (s[i] as int + 32) as char else s[i])
  }

  const PARENT_KEYS: seq<string> :=
    ["leafUuid", "parentSessionUuid", "parent_session_uuid", "parentSessionId", "parent_session_id",
     "compactedFromSessionUuid"]

  function IsCompactSummary(v: Json): bool {
    || Get(v, "isCompactSummary") == Some(Bool(true))
    || (AsStr(Get(v, "type")).Some? &&
        Lower(AsStr(Get(v, "type")).value) in {"summary", "compact_summary"})
  }

  function FirstParentHint(s: Session, v: Json, keys: seq<string>): Option<Uuid> {
    if keys == [] then None
    else
      var text := AsStr(Get(v, keys[0]));
      var hint := if text.Some? then s.env.parseUuid(text.value) else None;
      if hint.Some? && hint.value != s.id && (IsCompactSummary(v) || keys[0] != "leafUuid") then hint
      else FirstParentHint(s, v, keys[1..])
  }

  /** The parent session a record points at, for either agent. A self-reference is no parent. */
  function DetectParent(s: Session, v: Json): Option<Uuid> {
    match s.source
    case ClaudeCode => FirstParentHint(s, v, PARENT_KEYS)
    case Codex =>
      var text := ParentSession(v);
      var hint := if text.Some? then s.env.parseUuid(text.value) else None;
      if hint.Some? && hint.value != s.id then hint else None
  }

  /** `SET parent_session_uuid = $2 WHERE .. parent_session_uuid IS NULL` */
  function SetParent(s: Session, parent: Option<Uuid>, v: Json): Option<Uuid> {
    OrElse(parent, DetectParent(s, v))
  }

  /******* The step system *******/

  predicate IsBlank(text: Bytes) { forall b | b in text :: b in {9, 10, 12, 13, 32} }

  /** The record on a line; blank and malformed lines have none. */
  function Record(s: Session, text: Bytes): Option<Json> {
    if IsBlank(text) then None else s.env.decode(text)
  }

  function Events(rows: map<nat, Row>): map<nat, Stored> {
    map at | at in rows :: Stored(rows[at].agent, rows[at].kind, rows[at].payload)
  }

  ghost function LoadContext(s: Session, db: Db): Option<Context> {
    if s.source.Codex? then Some(Load(Events(db.rows), s.id)) else None
  }

  function Advance(s: Session, ctx: Option<Context>, v: Json): Option<Context> {
    if ctx.Some? then Some(Update(ctx.value, v, s.id)) else None
  }

  /**
   A tick holds in memory the bytes it read, how many lines of them it is done
   with, whether the row of the next one is already stored, and the context.
   */
  datatype Tick =
    | Idle
    | Reading(base: nat, buf: Bytes, next: nat, stored: bool, ctx: Option<Context>)

  datatype State = State(file: Bytes, db: Db, tick: Tick)

  datatype Action =
    | Append(bytes: Bytes) // the agent writes to its transcript
    | StartTick            // offset and context are loaded, the rest of the file is read
    | StoreLine            // the insert transaction of the next line
    | FinishLine           // context and parent link after it
    | Commit               // the offset moves past the last line read
    | Crash

  const START := State([], EMPTY_DB, Idle)

  ghost function Apply(s: Session, st: State, a: Action): State {
    match a
    case Append(bytes) => st.(file := st.file + bytes)
    case StartTick =>
      if st.tick != Idle || |st.file| == st.db.offset then st
      else if |st.file| < st.db.offset then st.(db := st.db.(offset := 0))
      else st.(tick := Reading(st.db.offset, st.file[st.db.offset..], 0, false, LoadContext(s, st.db)))
    case StoreLine =>
      if st.tick.Reading? && !st.tick.stored && st.tick.next < |Scan(st.tick.buf).lines| then
        var line := Scan(st.tick.buf).lines[st.tick.next];
        match Record(s, line.text)
        case None => st.(tick := st.tick.(next := st.tick.next + 1))
        case Some(v) =>
          st.(db := InsertEvent(s, st.db, v, st.tick.base + line.offset, st.tick.ctx),
              tick := st.tick.(stored := true))
      else st
    case FinishLine =>
      if st.tick.Reading? && st.tick.stored && st.tick.next < |Scan(st.tick.buf).lines| then
        match Record(s, Scan(st.tick.buf).lines[st.tick.next].text)
        case None => st
        case Some(v) =>
          st.(db := st.db.(parent := SetParent(s, st.db.parent, v)),
              tick := st.tick.(next := st.tick.next + 1, stored := false, ctx := Advance(s, st.tick.ctx, v)))
      else st
    case Commit =>
      if st.tick.Reading? && !st.tick.stored && st.tick.next == |Scan(st.tick.buf).lines| then
        st.(db := st.db.(offset := st.tick.base + Scan(st.tick.buf).start), tick := Idle)
      else st
    case Crash => st.(tick := Idle)
  }

  /** Any schedule of appends, ticks and crashes. Steps that are not enabled do nothing. */
  ghost function Run(s: Session, st: State, schedule: seq<Action>): State {
    if schedule == [] then st
    else Apply(s, Run(s, st, schedule[..|schedule| - 1]), schedule[|schedule| - 1])
  }

  /******* What a crash-free ingest of some lines stores *******/

  function Records(s: Session, ls: seq<Line>): seq<Json> {
    if ls == [] then [] else
    var last := |ls| - 1;
    var v := Record(s, ls[last].text);
    Records(s, ls[..last]) + if v.Some? then [v.value] else []
  }

  function Offsets(s: Session, ls: seq<Line>): (r: seq<nat>)
    ensures |r| == |Records(s, ls)|
  {
    if ls == [] then [] else
    var last := |ls| - 1;
    Offsets(s, ls[..last]) + if Record(s, ls[last].text).Some? then [ls[last].offset] else []
  }

  function CleanContext(s: Session, ls: seq<Line>): Option<Context> {
    if s.source.Codex? then Some(Fold(Records(s, ls), s.id)) else None
  }

  function Clean(s: Session, ls: seq<Line>): Db {
    if ls == [] then EMPTY_DB else
    var last := |ls| - 1;
    var before := Clean(s, ls[..last]);
    match Record(s, ls[last].text)
    case None => before
    case Some(v) =>
      InsertEvent(s, before, v, ls[last].offset, CleanContext(s, ls[..last]))
        .(parent := SetParent(s, before.parent, v))
  }

  predicate Ordered(ls: seq<Line>) { forall i, j | 0 <= i < j < |ls| :: ls[i].offset < ls[j].offset }

  /** No Codex line is stored under a kind that the context query mistakes for another. */
  predicate WellFiled(s: Session, ls: seq<Line>) {
    s.source.Codex? ==> forall v | v in Records(s, ls) :: !Misfiled(v)
  }
}
