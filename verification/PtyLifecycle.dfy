/**
 Terminal sessions: their database rows, the in-memory map, and the operations that
 change both in separate steps, interleaved in any way.
 */
module PtyLifecycle {
  import opened Wrappers
  import opened CodexContext

  datatype PtyState = Live | Dead | Deleted | Orphaned

  datatype Phase = NoAgent | Starting | Running | Exited

  /** The agent launched inside a terminal. */
  datatype Runtime = Runtime(
    agent: Option<string>, phase: Phase, startedAt: Option<int>, endedAt: Option<int>, exitCode: Option<int>)

  datatype Row = Row(state: PtyState, createdAt: int, endedAt: Option<int>, exitCode: Option<int>, runtime: Runtime)

  const NO_RUNTIME := Runtime(None, NoAgent, None, None, None)

  predicate InUse(r: Runtime) { r.phase == Starting || r.phase == Running }

  /******* What each statement does to a row *******/

  function Spawned(agent: Option<string>, at: int): Row {
    Row(Live, at, None, None, if agent.Some? then Runtime(agent, Starting, Some(at), None, None) else NO_RUNTIME)
  }

  function MarkedStarting(row: Row, agent: string, now: int): Row {
    if row.state == Live then row.(runtime := Runtime(Some(agent), Starting, Some(now), None, None)) else row
  }

  function MarkedRunning(row: Row, agent: string, now: int): Row {
    if row.state == Live then
      row.(runtime := Runtime(Some(agent), Running, OrElse(row.runtime.startedAt, Some(now)), None, None))
    else row
  }

  function MarkedExited(row: Row, agent: string, code: Option<int>, now: int): Row {
    if InUse(row.runtime) && (row.runtime.agent.None? || row.runtime.agent == Some(agent)) then
      row.(runtime := row.runtime.(agent := OrElse(row.runtime.agent, Some(agent)), phase := Exited,
                                   endedAt := Some(now), exitCode := code))
    else row
  }

  function MarkedDead(row: Row, code: Option<int>, now: int): Row {
    if row.state == Live then
      row.(state := Dead, endedAt := Some(now), exitCode := code,
           runtime := if InUse(row.runtime)
                      then row.runtime.(phase := Exited, endedAt := Some(now), exitCode := code)
                      else row.runtime)
    else row
  }

  function MarkedDeleted(row: Row, now: int): Row {
    row.(state := Deleted, endedAt := OrElse(row.endedAt, Some(now)))
  }

  function MarkedOrphaned(row: Row, now: int): Row {
    if row.state == Live then
      row.(state := Orphaned, endedAt := OrElse(row.endedAt, Some(now)),
           runtime := if InUse(row.runtime)
                      then row.runtime.(phase := Exited, endedAt := OrElse(row.runtime.endedAt, Some(now)))
                      else row.runtime)
    else row
  }

  /******* What the statements say, column by column *******/

  /** The agent is starting or running, and is the one that reports, or not known by name. */
  predicate HearsExit(row: Row, agent: string) {
    && (row.runtime.phase == Starting || row.runtime.phase == Running)
    && (row.runtime.agent == None || row.runtime.agent == Some(agent))
  }

  /** The row after its agent exited; the agent's name is filled in if it is missing, and nothing else moves. */
  predicate AfterExit(was: Row, row: Row, agent: string, code: Option<int>, now: int) {
    row == was.(runtime := Runtime(if was.runtime.agent == None then Some(agent) else was.runtime.agent, Exited,
                                   was.runtime.startedAt, Some(now), code))
  }

  /** The row after its agent reported that it runs; a start time it had is kept. */
  predicate AfterRunning(was: Row, row: Row, agent: string, now: int) {
    row == was.(runtime := Runtime(Some(agent), Running,
                                   if was.runtime.startedAt == None then Some(now) else was.runtime.startedAt, None, None))
  }

  predicate AfterStarting(was: Row, row: Row, agent: string, now: int) {
    row == was.(runtime := Runtime(Some(agent), Starting, Some(now), None, None))
  }

  /** The terminal is over in the given way; an agent in use has exited by then. */
  predicate Over(was: Row, row: Row, state: PtyState, endedAt: int, code: Option<int>, agentCode: Option<int>) {
    && row.state == state && row.createdAt == was.createdAt && row.endedAt == Some(endedAt) && row.exitCode == code
    && (was.runtime.phase == Starting || was.runtime.phase == Running ==>
          row.runtime == Runtime(was.runtime.agent, Exited, was.runtime.startedAt, Some(endedAt), agentCode))
    && (was.runtime.phase == NoAgent || was.runtime.phase == Exited ==> row.runtime == was.runtime)
  }

  /** An end time the row had is kept. */
  predicate AfterDelete(was: Row, row: Row, now: int) {
    row == was.(state := Deleted, endedAt := if was.endedAt == None then Some(now) else was.endedAt)
  }

  /** Every statement does what its columns say, and nothing to a row that its condition leaves out. */
  lemma StatementsExactly(row: Row, agent: string, code: Option<int>, now: int)
    requires RowOk(row, now)
    ensures if HearsExit(row, agent) then AfterExit(row, MarkedExited(row, agent, code, now), agent, code, now)
            else MarkedExited(row, agent, code, now) == row
    ensures row.state == Live ==>
              && AfterStarting(row, MarkedStarting(row, agent, now), agent, now)
              && AfterRunning(row, MarkedRunning(row, agent, now), agent, now)
              && Over(row, MarkedDead(row, code, now), Dead, now, code, code)
              && Over(row, MarkedOrphaned(row, now), Orphaned, now, None, None)
    ensures row.state != Live ==>
              MarkedStarting(row, agent, now) == MarkedRunning(row, agent, now) == MarkedDead(row, code, now) ==
              MarkedOrphaned(row, now) == row
    ensures AfterDelete(row, MarkedDeleted(row, now), now)
  {
  }

  /** A new row is live, with its agent starting or none at all. */
  lemma SpawnedExactly(agent: Option<string>, at: int)
    ensures var row := Spawned(agent, at);
      && row.state == Live && row.createdAt == at && row.endedAt == None && row.exitCode == None
      && (agent.Some? ==> row.runtime == Runtime(agent, Starting, Some(at), None, None))
      && (agent.None? ==> row.runtime == Runtime(None, NoAgent, None, None, None))
  {
  }

  /******* What every row satisfies *******/

  predicate RuntimeOk(r: Runtime, now: int) {
    match r.phase
    case NoAgent => r == NO_RUNTIME
    case Exited =>
      r.agent.Some? && r.startedAt.Some? && r.endedAt.Some? && r.startedAt.value <= r.endedAt.value <= now
    case _ => r.agent.Some? && r.startedAt.Some? && r.endedAt.None? && r.exitCode.None? && r.startedAt.value <= now
  }

  predicate RowOk(row: Row, now: int) {
    && RuntimeOk(row.runtime, now)
    && (row.endedAt.None? <==> row.state == Live)
    && (row.state == Live ==> row.exitCode.None?)
    && row.createdAt <= now
    && (row.endedAt.Some? ==> row.createdAt <= row.endedAt.value <= now)
    && (row.state == Dead || row.state == Orphaned ==> !InUse(row.runtime))
  }

  /** A later state of the same row: live, then dead or orphaned, then deleted; an end never moves. */
  predicate Leads(a: Row, b: Row) {
    && b.createdAt == a.createdAt
    && (a.state == b.state || a.state == Live || b.state == Deleted)
    && (a.endedAt.Some? ==> b.endedAt == a.endedAt)
    && (a.state != Live ==> b.exitCode == a.exitCode)
  }

  lemma LeadsTransitive(a: Row, b: Row, c: Row, now: int)
    requires RowOk(a, now) && RowOk(b, now) && Leads(a, b) && Leads(b, c)
    ensures Leads(a, c)
  {
  }

  /******* The step system *******/

  /** The rest of an operation that is between its steps. */
  datatype Task =
    | Inserting(id: Uuid, agent: Option<string>, at: int) // spawn, before its row
    | Mapping(id: Uuid)                                    // spawn, after its row
    | Deleting(id: Uuid)                                   // delete, after the map
    | Dying(id: Uuid, code: Option<int>)                   // the supervisor, after the map

  datatype State = State(
    now: int, rows: map<Uuid, Row>, sessions: set<Uuid>, supervised: set<Uuid>, tasks: map<nat, Task>)

  datatype Action =
    | Tick(micros: nat)
    | BeginSpawn(task: nat, id: Uuid, initial: Option<string>)
    | InsertRow(task: nat)
    | InsertMap(task: nat)
    | MarkStarting(id: Uuid, agent: string)
    | ReportRunning(id: Uuid, agent: string)
    | ReportExited(id: Uuid, agent: string, code: Option<int>)
    | BeginDelete(task: nat, id: Uuid)
    | BeginDeath(task: nat, id: Uuid, code: Option<int>)
    | FinishTask(task: nat)
    | Restart

  function Start(now: int): State { State(now, map[], {}, {}, map[]) }

  function SetRow(st: State, id: Uuid, row: Row): State { st.(rows := st.rows[id := row]) }

  predicate Unused(st: State, id: Uuid) {
    id !in st.rows && forall t | t in st.tasks && st.tasks[t].Inserting? :: st.tasks[t].id != id
  }

  function Apply(st: State, a: Action): State {
    match a
    case Tick(micros) => st.(now := st.now + micros)
    case BeginSpawn(t, id, agent) =>
      if t !in st.tasks && Unused(st, id) then st.(tasks := st.tasks[t := Inserting(id, agent, st.now)]) else st
    case InsertRow(t) =>
      if t in st.tasks && st.tasks[t].Inserting? then
        var task := st.tasks[t];
        st.(rows := st.rows[task.id := Spawned(task.agent, task.at)], tasks := st.tasks[t := Mapping(task.id)])
      else st
    case InsertMap(t) =>
      if t in st.tasks && st.tasks[t].Mapping? then
        var id := st.tasks[t].id;
        st.(sessions := st.sessions + {id}, supervised := st.supervised + {id}, tasks := st.tasks - {t})
      else st
    case MarkStarting(id, agent) =>
      if id in st.rows then SetRow(st, id, MarkedStarting(st.rows[id], agent, st.now)) else st
    case ReportRunning(id, agent) =>
      if id in st.rows then SetRow(st, id, MarkedRunning(st.rows[id], agent, st.now)) else st
    case ReportExited(id, agent, code) =>
      if id in st.rows then SetRow(st, id, MarkedExited(st.rows[id], agent, code, st.now)) else st
    case BeginDelete(t, id) =>
      if t !in st.tasks then st.(sessions := st.sessions - {id}, tasks := st.tasks[t := Deleting(id)]) else st
    case BeginDeath(t, id, code) =>
      if t !in st.tasks && id in st.supervised then
        st.(sessions := st.sessions - {id}, supervised := st.supervised - {id}, tasks := st.tasks[t := Dying(id, code)])
      else st
    case FinishTask(t) =>
      if t in st.tasks && (st.tasks[t].Deleting? || st.tasks[t].Dying?) then
        var task, done := st.tasks[t], st.(tasks := st.tasks - {t});
        if task.id !in st.rows then done
        else if task.Deleting? then SetRow(done, task.id, MarkedDeleted(st.rows[task.id], st.now))
        else SetRow(done, task.id, MarkedDead(st.rows[task.id], task.code, st.now))
      else st
    case Restart =>
      State(st.now, map id | id in st.rows :: MarkedOrphaned(st.rows[id], st.now), {}, {}, map[])
  }

  function Run(st: State, schedule: seq<Action>): State {
    if schedule == [] then st else Apply(Run(st, schedule[..|schedule| - 1]), schedule[|schedule| - 1])
  }

  ghost predicate Valid(st: State) {
    && (forall id | id in st.rows :: RowOk(st.rows[id], st.now))
    && (forall id | id in st.sessions + st.supervised :: id in st.rows)
    && (forall t | t in st.tasks && st.tasks[t].Mapping? :: st.tasks[t].id in st.rows)
    && (forall t | t in st.tasks && st.tasks[t].Inserting? :: st.tasks[t].id !in st.rows && st.tasks[t].at <= st.now)
    && (forall t, u | t in st.tasks && u in st.tasks && st.tasks[t].Inserting? && st.tasks[u].Inserting? &&
                      st.tasks[t].id == st.tasks[u].id :: t == u)
  }

  lemma StatementsKeepRows(row: Row, agent: string, code: Option<int>, now: int)
    requires RowOk(row, now)
    ensures forall after | after in {MarkedStarting(row, agent, now), MarkedRunning(row, agent, now),
                                     MarkedExited(row, agent, code, now), MarkedDead(row, code, now),
                                     MarkedDeleted(row, now), MarkedOrphaned(row, now)} ::
              RowOk(after, now) && Leads(row, after)
  {
  }

  lemma SpawnedIsOk(agent: Option<string>, at: int, now: int)
    requires at <= now
    ensures RowOk(Spawned(agent, at), now)
  {
  }

  lemma LaterIsOk(row: Row, now: int, later: int)
    requires RowOk(row, now) && now <= later
    ensures RowOk(row, later)
  {
  }

  /** Rows are kept, and each moves only forward. */
  ghost predicate Forward(a: State, b: State) {
    && a.now <= b.now
    && forall id | id in a.rows :: id in b.rows && Leads(a.rows[id], b.rows[id])
  }

  lemma OneRow(st: State, id: Uuid, row: Row, tasks: map<nat, Task>)
    requires Valid(st) && id in st.rows && RowOk(row, st.now) && Leads(st.rows[id], row)
    requires forall t | t in tasks :: t in st.tasks && tasks[t] == st.tasks[t]
    ensures var after := st.(rows := st.rows[id := row], tasks := tasks); Valid(after) && Forward(st, after)
  {
    hide RowOk;
  }

  lemma StepKeeps(st: State, a: Action)
    requires Valid(st)
    ensures Valid(Apply(st, a)) && Forward(st, Apply(st, a))
  {
    hide RowOk, MarkedStarting, MarkedRunning, MarkedExited, MarkedDead, MarkedDeleted, MarkedOrphaned, Spawned;
    match a
    case Tick(micros) =>
      forall id | id in st.rows ensures RowOk(st.rows[id], st.now + micros) {
        LaterIsOk(st.rows[id], st.now, st.now + micros);
      }
    case BeginSpawn(_, _, _) => SpawnKeeps(st, a);
    case InsertRow(_) => SpawnKeeps(st, a);
    case InsertMap(_) => SpawnKeeps(st, a);
    case MarkStarting(id, agent) =>
      if id in st.rows {
        StatementsKeepRows(st.rows[id], agent, None, st.now);
        OneRow(st, id, MarkedStarting(st.rows[id], agent, st.now), st.tasks);
      }
    case ReportRunning(id, agent) =>
      if id in st.rows {
        StatementsKeepRows(st.rows[id], agent, None, st.now);
        OneRow(st, id, MarkedRunning(st.rows[id], agent, st.now), st.tasks);
      }
    case ReportExited(id, agent, code) =>
      if id in st.rows {
        StatementsKeepRows(st.rows[id], agent, code, st.now);
        OneRow(st, id, MarkedExited(st.rows[id], agent, code, st.now), st.tasks);
      }
    case FinishTask(t) => FinishKeeps(st, t);
    case Restart => RestartKeeps(st);
    case _ =>
  }

  lemma SpawnKeeps(st: State, a: Action)
    requires Valid(st) && (a.BeginSpawn? || a.InsertRow? || a.InsertMap?)
    ensures Valid(Apply(st, a)) && Forward(st, Apply(st, a))
  {
    hide RowOk, Spawned;
    match a
    case InsertRow(t) =>
      if t in st.tasks && st.tasks[t].Inserting? {
        SpawnedIsOk(st.tasks[t].agent, st.tasks[t].at, st.now);
      }
    case _ =>
  }

  lemma FinishKeeps(st: State, t: nat)
    requires Valid(st)
    ensures Valid(Apply(st, FinishTask(t))) && Forward(st, Apply(st, FinishTask(t)))
  {
    hide RowOk, MarkedDead, MarkedDeleted, Leads;
    if t in st.tasks && (st.tasks[t].Deleting? || st.tasks[t].Dying?) {
      var task := st.tasks[t];
      AllLead(st);
      if task.id in st.rows {
        StatementsKeepRows(st.rows[task.id], "", if task.Dying? then task.code else None, st.now);
        if task.Deleting? {
          OneRow(st, task.id, MarkedDeleted(st.rows[task.id], st.now), st.tasks - {t});
        } else {
          OneRow(st, task.id, MarkedDead(st.rows[task.id], task.code, st.now), st.tasks - {t});
        }
      }
    } else {
      AllLead(st);
    }
  }

  lemma AllLead(st: State)
    ensures Forward(st, st)
  {
  }

  lemma RestartKeeps(st: State)
    requires Valid(st)
    ensures Valid(Apply(st, Restart)) && Forward(st, Apply(st, Restart))
  {
    hide RowOk, MarkedOrphaned;
    forall id | id in st.rows
      ensures RowOk(MarkedOrphaned(st.rows[id], st.now), st.now) && Leads(st.rows[id], MarkedOrphaned(st.rows[id], st.now))
    {
      StatementsKeepRows(st.rows[id], "", None, st.now);
    }
  }

  /******* What each step does *******/

  /** Only the row of `id` may differ. */
  ghost predicate OnlyRow(st: State, after: State, id: Uuid) {
    && after == st.(rows := after.rows) && after.rows.Keys == st.rows.Keys
    && forall o | o in st.rows && o != id :: after.rows[o] == st.rows[o]
  }

  /** Reports change the one row they are about: starts in a live terminal, exits of the agent in use. */
  lemma ReportsExactly(st: State, id: Uuid, agent: string, code: Option<int>)
    requires Valid(st)
    ensures var starting, running, exited :=
              Apply(st, MarkStarting(id, agent)), Apply(st, ReportRunning(id, agent)), Apply(st, ReportExited(id, agent, code));
      && OnlyRow(st, starting, id) && OnlyRow(st, running, id) && OnlyRow(st, exited, id)
      && (id in st.rows ==>
            && (if HearsExit(st.rows[id], agent) then AfterExit(st.rows[id], exited.rows[id], agent, code, st.now)
                else exited.rows[id] == st.rows[id])
            && (if st.rows[id].state == Live
                then AfterStarting(st.rows[id], starting.rows[id], agent, st.now) &&
                     AfterRunning(st.rows[id], running.rows[id], agent, st.now)
                else starting.rows[id] == running.rows[id] == st.rows[id]))
  {
    hide RowOk, MarkedStarting, MarkedRunning, MarkedExited, AfterExit, AfterRunning, AfterStarting, HearsExit;
    if id in st.rows {
      StatementsExactly(st.rows[id], agent, code, st.now);
    }
  }

  /** A spawn adds a live row, then maps it. Its terminal is new when the spawn begins. */
  lemma SpawnExactly(st: State, t: nat, id: Uuid, agent: Option<string>)
    ensures t !in st.tasks && Unused(st, id) ==>
              Apply(st, BeginSpawn(t, id, agent)) == st.(tasks := st.tasks[t := Inserting(id, agent, st.now)])
    ensures t in st.tasks || !Unused(st, id) ==> Apply(st, BeginSpawn(t, id, agent)) == st
    ensures t in st.tasks && st.tasks[t].Inserting? ==>
              var task, after := st.tasks[t], Apply(st, InsertRow(t));
              && after.tasks == st.tasks[t := Mapping(task.id)] && after.sessions == st.sessions
              && after.rows.Keys == st.rows.Keys + {task.id}
              && (forall o | o in st.rows && o != task.id :: after.rows[o] == st.rows[o])
              && after.rows[task.id].state == Live && after.rows[task.id].createdAt == task.at
              && after.rows[task.id].runtime ==
                 (if task.agent.Some? then Runtime(task.agent, Starting, Some(task.at), None, None)
                  else Runtime(None, NoAgent, None, None, None))
    ensures t in st.tasks && st.tasks[t].Mapping? ==>
              var after := Apply(st, InsertMap(t));
              && after.sessions == st.sessions + {st.tasks[t].id} && after.supervised == st.supervised + {st.tasks[t].id}
              && after.tasks == st.tasks - {t} && after.rows == st.rows
    ensures t !in st.tasks ==> Apply(st, InsertRow(t)) == Apply(st, InsertMap(t)) == st
  {
  }

  /** A delete, and a death of a supervised process, first unmap the terminal and then end its row. */
  lemma EndsExactly(st: State, t: nat, id: Uuid, code: Option<int>)
    requires Valid(st)
    ensures t !in st.tasks ==>
              Apply(st, BeginDelete(t, id)) == st.(sessions := st.sessions - {id}, tasks := st.tasks[t := Deleting(id)])
    ensures t !in st.tasks && id in st.supervised ==>
              Apply(st, BeginDeath(t, id, code)) ==
              st.(sessions := st.sessions - {id}, supervised := st.supervised - {id}, tasks := st.tasks[t := Dying(id, code)])
    ensures t !in st.tasks && id !in st.supervised ==> Apply(st, BeginDeath(t, id, code)) == st
    ensures t in st.tasks && (st.tasks[t] == Deleting(id) || st.tasks[t] == Dying(id, code)) ==>
              var after := Apply(st, FinishTask(t));
              && after.tasks == st.tasks - {t} && OnlyRow(st, after.(tasks := st.tasks), id)
              && (id in st.rows && st.tasks[t] == Deleting(id) ==> AfterDelete(st.rows[id], after.rows[id], st.now))
              && (id in st.rows && st.tasks[t] == Dying(id, code) ==>
                    if st.rows[id].state == Live then Over(st.rows[id], after.rows[id], Dead, st.now, code, code)
                    else after.rows[id] == st.rows[id])
  {
    hide RowOk, MarkedDead, MarkedDeleted, AfterDelete, Over;
    if id in st.rows {
      StatementsExactly(st.rows[id], "", code, st.now);
    }
  }

  /** A restart orphans the live rows, ends their agents, and forgets maps, supervisors and unfinished work. */
  lemma RestartExactly(st: State)
    requires Valid(st)
    ensures var after := Apply(st, Restart);
      && after.sessions == {} && after.supervised == {} && after.tasks == map[] && after.rows.Keys == st.rows.Keys
      && forall id | id in st.rows ::
           if st.rows[id].state == Live then Over(st.rows[id], after.rows[id], Orphaned, st.now, None, None)
           else after.rows[id] == st.rows[id]
  {
    hide RowOk, MarkedOrphaned, Over;
    forall id | id in st.rows
      ensures if st.rows[id].state == Live then Over(st.rows[id], MarkedOrphaned(st.rows[id], st.now), Orphaned, st.now, None, None)
              else MarkedOrphaned(st.rows[id], st.now) == st.rows[id]
    {
      StatementsExactly(st.rows[id], "", None, st.now);
    }
  }

  /** What holds of the rows after every interleaving. */
  lemma {:induction false} EveryRunIsValid(now: int, schedule: seq<Action>)
    ensures Valid(Run(Start(now), schedule))
  {
    hide Apply, RowOk;
    if schedule != [] {
      EveryRunIsValid(now, schedule[..|schedule| - 1]);
      StepKeeps(Run(Start(now), schedule[..|schedule| - 1]), schedule[|schedule| - 1]);
    }
  }

  /** Over any stretch of any run, every row only moves forward. */
  lemma {:induction false} RunsMoveForward(now: int, schedule: seq<Action>, n: nat)
    requires n <= |schedule|
    ensures Forward(Run(Start(now), schedule[..n]), Run(Start(now), schedule))
    decreases |schedule|
  {
    hide Apply, RowOk, Leads;
    if n == |schedule| {
      assert schedule[..n] == schedule;
      AllLead(Run(Start(now), schedule));
    } else {
      var front := schedule[..|schedule| - 1];
      RunsMoveForward(now, front, n);
      assert front[..n] == schedule[..n];
      EveryRunIsValid(now, schedule[..n]);
      EveryRunIsValid(now, front);
      var a, b := Run(Start(now), schedule[..n]), Run(Start(now), front);
      StepKeeps(b, schedule[|schedule| - 1]);
      forall id | id in a.rows ensures Leads(a.rows[id], Apply(b, schedule[|schedule| - 1]).rows[id]) {
        LaterIsOk(a.rows[id], a.now, b.now);
        LeadsTransitive(a.rows[id], b.rows[id], Apply(b, schedule[|schedule| - 1]).rows[id], b.now);
      }
    }
  }

  /******* Mapped sessions whose row is deleted *******/

  /** The row is deleted, or a delete is under way that will make it so. */
  ghost predicate Doomed(st: State, id: Uuid) {
    || (id in st.rows && st.rows[id].state == Deleted)
    || exists t :: t in st.tasks && st.tasks[t] == Deleting(id)
  }

  ghost predicate MappedIsKept(st: State) { forall id | id in st.sessions :: !Doomed(st, id) }

  /** The map step of a spawn, come after a delete of the same terminal. */
  ghost predicate LateMap(st: State, a: Action) {
    a.InsertMap? && a.task in st.tasks && st.tasks[a.task].Mapping? && Doomed(st, st.tasks[a.task].id)
  }

  /** Which terminals one step dooms: only the one whose delete it begins. */
  lemma DoomedAfter(st: State, a: Action, id: Uuid)
    requires Valid(st) && Doomed(Apply(st, a), id)
    ensures Doomed(st, id) || (a.BeginDelete? && a.id == id)
  {
    hide RowOk;
    var after := Apply(st, a);
    if exists t :: t in after.tasks && after.tasks[t] == Deleting(id) {
      var t :| t in after.tasks && after.tasks[t] == Deleting(id);
      assert (t in st.tasks && st.tasks[t] == Deleting(id)) || (a.BeginDelete? && a.id == id);
    } else {
      assert id in after.rows && after.rows[id].state == Deleted;
      if a.FinishTask? && a.task in st.tasks && st.tasks[a.task] == Deleting(id) {
        assert Doomed(st, id);
      }
    }
  }

  /** A doomed terminal stays doomed, short of a restart that drops the delete. */
  lemma DoomedStays(st: State, a: Action, id: Uuid)
    requires Valid(st) && Doomed(st, id) && id in st.rows && a != Restart
    ensures Doomed(Apply(st, a), id)
  {
    hide RowOk;
    var after := Apply(st, a);
    if st.rows[id].state == Deleted {
      assert after.rows[id].state == Deleted;
    } else {
      var t :| t in st.tasks && st.tasks[t] == Deleting(id);
      if a == FinishTask(t) {
        assert after.rows[id].state == Deleted;
      } else {
        assert t in after.tasks && after.tasks[t] == Deleting(id);
      }
    }
  }

  /** A step maps a deleted terminal exactly when it is a late map step. */
  lemma MapsDeletedExactly(st: State, a: Action)
    requires Valid(st) && MappedIsKept(st)
    ensures MappedIsKept(Apply(st, a)) <==> !LateMap(st, a)
  {
    hide RowOk, Doomed;
    var after := Apply(st, a);
    if LateMap(st, a) {
      var id := st.tasks[a.task].id;
      DoomedStays(st, a, id);
      assert id in after.sessions;
    } else {
      forall id | id in after.sessions ensures !Doomed(after, id) {
        if Doomed(after, id) {
          DoomedAfter(st, a, id);
        }
      }
    }
  }

  /** In a run, mapped terminals are never deleted ones exactly if no map step comes late. */
  lemma RunMapsDeletedExactly(now: int, schedule: seq<Action>)
    ensures (forall n | 0 <= n <= |schedule| :: MappedIsKept(Run(Start(now), schedule[..n]))) <==>
            (forall n | 0 <= n < |schedule| :: !LateMap(Run(Start(now), schedule[..n]), schedule[n]))
  {
    hide Apply, Valid, LateMap, MappedIsKept;
    if forall n | 0 <= n < |schedule| :: !LateMap(Run(Start(now), schedule[..n]), schedule[n]) {
      forall n | 0 <= n <= |schedule| ensures MappedIsKept(Run(Start(now), schedule[..n])) {
        KeptUpTo(now, schedule, n);
      }
    }
    if forall n | 0 <= n <= |schedule| :: MappedIsKept(Run(Start(now), schedule[..n])) {
      forall n | 0 <= n < |schedule| ensures !LateMap(Run(Start(now), schedule[..n]), schedule[n]) {
        EveryRunIsValid(now, schedule[..n]);
        MapsDeletedExactly(Run(Start(now), schedule[..n]), schedule[n]);
        assert schedule[..n + 1][..n] == schedule[..n];
        assert MappedIsKept(Run(Start(now), schedule[..n + 1]));
      }
    }
  }

  lemma {:induction false} KeptUpTo(now: int, schedule: seq<Action>, n: nat)
    requires n <= |schedule|
    requires forall k | 0 <= k < n :: !LateMap(Run(Start(now), schedule[..k]), schedule[k])
    ensures MappedIsKept(Run(Start(now), schedule[..n]))
  {
    hide Apply, Valid, LateMap, Doomed;
    if n > 0 {
      KeptUpTo(now, schedule, n - 1);
      EveryRunIsValid(now, schedule[..n - 1]);
      MapsDeletedExactly(Run(Start(now), schedule[..n - 1]), schedule[n - 1]);
      assert schedule[..n][..n - 1] == schedule[..n - 1];
    }
  }

  /** Only a delete that was begun dooms a terminal. */
  lemma {:induction false} DoomedWasDeleted(now: int, schedule: seq<Action>, id: Uuid)
    requires Doomed(Run(Start(now), schedule), id)
    ensures exists n :: 0 <= n < |schedule| && schedule[n].BeginDelete? && schedule[n].id == id
  {
    hide Apply, Valid;
    if schedule != [] {
      var front := schedule[..|schedule| - 1];
      EveryRunIsValid(now, front);
      DoomedAfter(Run(Start(now), front), schedule[|schedule| - 1], id);
      if Doomed(Run(Start(now), front), id) {
        DoomedWasDeleted(now, front, id);
        var n :| 0 <= n < |front| && front[n].BeginDelete? && front[n].id == id;
        assert schedule[n] == front[n];
      }
    }
  }

  /** If every terminal is mapped before a delete of it begins, no run maps a deleted one. */
  lemma PromptMapsAreKept(now: int, schedule: seq<Action>)
    requires forall m, n | 0 <= m < n < |schedule| && schedule[m].BeginDelete? && schedule[n].InsertMap? ::
               var st := Run(Start(now), schedule[..n]);
               schedule[n].task in st.tasks && st.tasks[schedule[n].task].Mapping? ==>
                 st.tasks[schedule[n].task].id != schedule[m].id
    ensures MappedIsKept(Run(Start(now), schedule))
  {
    hide Apply, Valid, Doomed, MappedIsKept, Run;
    forall n | 0 <= n < |schedule| ensures !LateMap(Run(Start(now), schedule[..n]), schedule[n]) {
      var st := Run(Start(now), schedule[..n]);
      if LateMap(st, schedule[n]) {
        DoomedWasDeleted(now, schedule[..n], st.tasks[schedule[n].task].id);
      }
    }
    assert schedule[..|schedule|] == schedule;
    KeptUpTo(now, schedule, |schedule|);
  }

  /** A late map step happens: a delete between the two steps of a spawn. */
  lemma DeletedCanBeMapped(now: int, id: Uuid)
    ensures var st := Run(Start(now), [BeginSpawn(0, id, None), InsertRow(0), BeginDelete(1, id), FinishTask(1), InsertMap(0)]);
      id in st.sessions && id in st.rows && st.rows[id].state == Deleted
  {
    var st := Start(now);
    var s1 := Apply(st, BeginSpawn(0, id, None));
    var s2 := Apply(s1, InsertRow(0));
    var s3 := Apply(s2, BeginDelete(1, id));
    var s4 := Apply(s3, FinishTask(1));
    var all := [BeginSpawn(0, id, None), InsertRow(0), BeginDelete(1, id), FinishTask(1), InsertMap(0)];
    assert all[..4] == [BeginSpawn(0, id, None), InsertRow(0), BeginDelete(1, id), FinishTask(1)];
    assert all[..4][..3] == [BeginSpawn(0, id, None), InsertRow(0), BeginDelete(1, id)];
    assert all[..4][..3][..2] == [BeginSpawn(0, id, None), InsertRow(0)];
    assert all[..4][..3][..2][..1] == [BeginSpawn(0, id, None)];
    hide Apply;
    assert Run(st, all[..4][..3][..2][..1]) == s1;
    assert Run(st, all[..4][..3][..2]) == s2;
    assert Run(st, all[..4][..3]) == s3;
    assert Run(st, all[..4]) == s4;
    assert Run(st, all) == Apply(s4, InsertMap(0));
    MappedAfterDelete(s1, s2, s3, s4, now, id);
  }

  lemma MappedAfterDelete(s1: State, s2: State, s3: State, s4: State, now: int, id: Uuid)
    requires s1 == Apply(Start(now), BeginSpawn(0, id, None)) && s2 == Apply(s1, InsertRow(0))
    requires s3 == Apply(s2, BeginDelete(1, id)) && s4 == Apply(s3, FinishTask(1))
    ensures var st := Apply(s4, InsertMap(0)); id in st.sessions && id in st.rows && st.rows[id].state == Deleted
  {
    assert s1.tasks == map[0 := Inserting(id, None, now)];
    assert s2.tasks == map[0 := Mapping(id)] && id in s2.rows;
    assert s3.tasks == map[0 := Mapping(id), 1 := Deleting(id)];
    assert s4.tasks == map[0 := Mapping(id)] && s4.rows[id].state == Deleted;
  }

  /******* The manager, one operation at a time *******/

  class PtyManager {
    var rows: map<Uuid, Row>
    var sessions: set<Uuid>

    ghost predicate Ok(now: int)
      reads this
    {
      && (forall id | id in rows :: RowOk(rows[id], now))
      && forall id | id in sessions :: id in rows
    }

    constructor ()
      ensures rows == map[] && sessions == {}
    {
      rows, sessions := map[], {};
    }

    method Spawn(id: Uuid, agent: Option<string>, now: int)
      requires Ok(now) && id !in rows
      modifies this
      ensures Ok(now)
      ensures rows == old(rows)[id := Spawned(agent, now)] && sessions == old(sessions) + {id}
      ensures rows[id] == Row(Live, now, None, None,
                              if agent.Some? then Runtime(agent, Starting, Some(now), None, None)
                              else Runtime(None, NoAgent, None, None, None))
    {
      SpawnedIsOk(agent, now, now);
      rows := rows[id := Spawned(agent, now)];
      sessions := sessions + {id};
    }

    /** Fails, changing nothing, exactly when the terminal is not live. */
    method MarkAgentStarting(id: Uuid, agent: string, now: int) returns (ok: bool)
      requires Ok(now)
      modifies this`rows
      ensures Ok(now)
      ensures ok <==> id in old(rows) && old(rows)[id].state == Live
      ensures rows == if ok then old(rows)[id := MarkedStarting(old(rows)[id], agent, now)] else old(rows)
      ensures ok ==> AfterStarting(old(rows)[id], rows[id], agent, now)
    {
      ok := id in rows && rows[id].state == Live;
      if ok {
        StatementsKeepRows(rows[id], agent, None, now);
        rows := rows[id := rows[id].(runtime := Runtime(Some(agent), Starting, Some(now), None, None))];
      }
    }

    /** An exit is heard only from the agent that is in use; a start only in a live terminal. */
    method ApplyRuntime(id: Uuid, agent: string, running: bool, code: Option<int>, now: int)
      requires Ok(now)
      modifies this`rows
      ensures Ok(now)
      ensures rows.Keys == old(rows).Keys && forall o | o in rows && o != id :: rows[o] == old(rows)[o]
      ensures id in rows && running ==>
                if old(rows)[id].state == Live then AfterRunning(old(rows)[id], rows[id], agent, now)
                else rows[id] == old(rows)[id]
      ensures id in rows && !running ==>
                if HearsExit(old(rows)[id], agent) then AfterExit(old(rows)[id], rows[id], agent, code, now)
                else rows[id] == old(rows)[id]
    {
      if id in rows {
        StatementsKeepRows(rows[id], agent, code, now);
        StatementsExactly(rows[id], agent, code, now);
        rows := rows[id := if running then MarkedRunning(rows[id], agent, now) else MarkedExited(rows[id], agent, code, now)];
      }
    }

    method Delete(id: Uuid, now: int)
      requires Ok(now)
      modifies this
      ensures Ok(now) && id !in sessions && sessions == old(sessions) - {id}
      ensures rows == if id in old(rows) then old(rows)[id := MarkedDeleted(old(rows)[id], now)] else old(rows)
      ensures id in rows ==> AfterDelete(old(rows)[id], rows[id], now)
    {
      sessions := sessions - {id};
      if id in rows {
        StatementsKeepRows(rows[id], "", None, now);
        rows := rows[id := MarkedDeleted(rows[id], now)];
      }
    }

    method MarkDead(id: Uuid, code: Option<int>, now: int)
      requires Ok(now)
      modifies this
      ensures Ok(now) && id !in sessions && sessions == old(sessions) - {id}
      ensures rows == if id in old(rows) then old(rows)[id := MarkedDead(old(rows)[id], code, now)] else old(rows)
      ensures id in rows ==>
                if old(rows)[id].state == Live then Over(old(rows)[id], rows[id], Dead, now, code, code)
                else rows[id] == old(rows)[id]
    {
      sessions := sessions - {id};
      if id in rows {
        StatementsKeepRows(rows[id], "", code, now);
        StatementsExactly(rows[id], "", code, now);
        rows := rows[id := MarkedDead(rows[id], code, now)];
      }
    }

    /** At startup: no row is live afterwards, and the rows that were are counted. */
    method ReconcileOrphans(now: int) returns (count: nat)
      requires Ok(now)
      modifies this
      ensures Ok(now) && sessions == {}
      ensures rows.Keys == old(rows).Keys
      ensures forall id | id in rows ::
                if old(rows)[id].state == Live then Over(old(rows)[id], rows[id], Orphaned, now, None, None)
                else rows[id] == old(rows)[id]
      ensures count == |set id | id in old(rows) && old(rows)[id].state == Live|
    {
      hide RowOk, MarkedOrphaned, Over;
      forall id | id in rows
        ensures RowOk(MarkedOrphaned(rows[id], now), now)
        ensures if rows[id].state == Live then Over(rows[id], MarkedOrphaned(rows[id], now), Orphaned, now, None, None)
                else MarkedOrphaned(rows[id], now) == rows[id]
      {
        StatementsKeepRows(rows[id], "", None, now);
        StatementsExactly(rows[id], "", None, now);
      }
      count := |set id | id in rows && rows[id].state == Live|;
      rows := map id | id in rows :: MarkedOrphaned(rows[id], now);
      sessions := {};
    }
  }
}
