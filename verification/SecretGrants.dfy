/**
 Secrets, the grants that unlock them for a terminal and a tool, and the request
 that redeems them.
 */
module SecretGrants {
  import opened Wrappers
  import opened Ordering
  import opened CodexContext
  import opened SecretProtocol
  import ReplayGuard

  type Refusal = ReplayGuard.Refusal

  const SECOND := ReplayGuard.SECOND

  /** A secret's environment, decrypted. */
  type Env = map<string, string>

  /** A grant's secret is a foreign key that cascades on delete. */
  datatype Grant = Grant(pty: Uuid, secret: string, tool: string, expiresAt: int, revokedAt: Option<int>)

  /** What is shown of a secret; the repository is optional. */
  datatype About = About(description: string, scope: string, repo: Option<string>)

  datatype Tables = Tables(secrets: map<string, Env>, about: map<string, About>, grants: seq<Grant>)

  datatype Use = Use(pty: Uuid, secret: string, tool: string, at: int)

  datatype Failure =
    | Unauthorized(refusal: Refusal)
    | BadTool | BadSecretId | BadTtl | EmptyEnv | EmptyValue(key: string)
    | AwsNeedsSecret | NoSuchSecret | NotUnlocked | Conflict(key: string)

  /** What the handlers are asked for. A post carries the values as they were sent. */
  datatype Op =
    | Put(id: string, env: Env, about: About)
    | Delete(id: string)
    | Unlock(pty: Uuid, secret: string, tool: string, ttl: int, at: int)
    | RevokeAll(pty: Uuid, secret: string, tool: string, at: int)

  const NOTHING := Tables(map[], map[], [])

  predicate Matches(g: Grant, pty: Uuid, secret: string, tool: string) {
    g.pty == pty && g.secret == secret && g.tool == tool
  }

  function Without(grants: seq<Grant>, secret: string): seq<Grant> {
    if grants == [] then []
    else
      var last := grants[|grants| - 1];
      Without(grants[..|grants| - 1], secret) + if last.secret == secret then [] else [last]
  }

  /** `SET revoked_at = NOW() WHERE .. AND revoked_at IS NULL` */
  function Revoked(grants: seq<Grant>, pty: Uuid, secret: string, tool: string, now: int): (r: seq<Grant>)
    ensures |r| == |grants|
    ensures forall i | 0 <= i < |r| ::
              r[i] == if Matches(grants[i], pty, secret, tool) && grants[i].revokedAt.None?
                      then grants[i].(revokedAt := Some(now)) else grants[i]
  {
    seq(|grants|, i requires 0 <= i < |grants| =>
      if Matches(grants[i], pty, secret, tool) && grants[i].revokedAt.None?
      then grants[i].(revokedAt := Some(now)) else grants[i])
  }

  /** An empty value stands for the value already stored. */
  function Merged(existing: Option<Env>, body: Env): Env {
    map k | k in body :: if body[k] == "" && existing.Some? && k in existing.value then existing.value[k] else body[k]
  }

  predicate MissingValue(existing: Option<Env>, body: Env, k: string) {
    k in body && body[k] == "" && !(existing.Some? && k in existing.value)
  }

  function Stored(t: Tables, id: string): Option<Env> { if id in t.secrets then Some(t.secrets[id]) else None }

  function Apply(t: Tables, op: Op): Tables {
    match op
    case Put(id, body, about) =>
      if body == map[] || exists k | k in body :: MissingValue(Stored(t, id), body, k) then t
      else t.(secrets := t.secrets[id := Merged(Stored(t, id), body)], about := t.about[id := about])
    case Delete(id) => Tables(t.secrets - {id}, t.about - {id}, Without(t.grants, id))
    case Unlock(pty, secret, tool, ttl, at) =>
      if secret in t.secrets then t.(grants := t.grants + [Grant(pty, secret, tool, at + ttl * SECOND, None)]) else t
    case RevokeAll(pty, secret, tool, at) => t.(grants := Revoked(t.grants, pty, secret, tool, at))
  }

  function After(history: seq<Op>): Tables {
    if history == [] then NOTHING else Apply(After(history[..|history| - 1]), history[|history| - 1])
  }

  /******* What a history unlocks *******/

  predicate IsLive(g: Grant, now: int) { g.revokedAt.None? && now < g.expiresAt }

  /** The secrets the redeeming query joins to. */
  function LiveSecrets(t: Tables, now: int, pty: Uuid, tool: string): set<string> {
    set g | g in t.grants && g.pty == pty && g.tool == tool && IsLive(g, now) && g.secret in t.secrets :: g.secret
  }

  predicate Gives(env: Env, k: string, value: string) { k in env && env[k] == value }

  /** The secret has the variable: it was in the last post taken for it, and the secret was not deleted since. */
  predicate Knows(history: seq<Op>, id: string, k: string)
    decreases |history|, 0
  {
    if history == [] then false
    else
      var front, op := history[..|history| - 1], history[|history| - 1];
      if op.Put? && op.id == id && Taken(front, id, op.env) then k in op.env
      else op != Delete(id) && Knows(front, id, k)
  }

  /** A post is taken if it has variables, and leaves values out only for variables the secret has. */
  predicate Taken(history: seq<Op>, id: string, body: Env)
    decreases |history|, 1
  {
    body != map[] && forall k | k in body && body[k] == "" :: Knows(history, id, k)
  }

  ghost predicate Exists(history: seq<Op>, id: string) { exists k :: Knows(history, id, k) }

  /**
   Post `i` gave variable `k` the value, every later post taken for the secret named `k`
   without a value, and the secret was not deleted since.
   */
  ghost predicate GivenBy(history: seq<Op>, id: string, k: string, value: string, i: nat) {
    && i < |history| && history[i].Put? && history[i].id == id && Taken(history[..i], id, history[i].env)
    && value != "" && Gives(history[i].env, k, value)
    && forall j | i < j < |history| ::
         && history[j] != Delete(id)
         && (history[j].Put? && history[j].id == id && Taken(history[..j], id, history[j].env) ==>
               Gives(history[j].env, k, ""))
  }

  /** The value last given to variable `k` of the secret. */
  ghost predicate Holds(history: seq<Op>, id: string, k: string, value: string) {
    exists i: nat :: GivenBy(history, id, k, value, i)
  }

  predicate Withdraws(op: Op, pty: Uuid, secret: string, tool: string) {
    || op == Delete(secret)
    || (op.RevokeAll? && op.pty == pty && op.secret == secret && op.tool == tool)
  }

  /** Operation `i` unlocked an existing secret, its time is not up, and nothing after it took that back. */
  ghost predicate UnlockedBy(history: seq<Op>, now: int, pty: Uuid, secret: string, tool: string, i: nat) {
    && i < |history|
    && history[i].Unlock?
    && history[i].pty == pty && history[i].secret == secret && history[i].tool == tool
    && now < history[i].at + history[i].ttl * SECOND
    && Exists(history[..i], secret)
    && forall j | i < j < |history| :: !Withdraws(history[j], pty, secret, tool)
  }

  ghost predicate Unlocked(history: seq<Op>, now: int, pty: Uuid, secret: string, tool: string) {
    exists i: nat :: UnlockedBy(history, now, pty, secret, tool, i)
  }

  /** The variables a secret has in the table are those that history says it has; it has some, all with a value. */
  lemma {:induction false} KnownAreStored(history: seq<Op>, id: string)
    ensures var secrets := After(history).secrets;
      && (forall k :: Knows(history, id, k) <==> id in secrets && k in secrets[id])
      && (id in secrets ==> WellFormed(secrets[id]))
  {
    hide Without, Revoked;
    if history != [] {
      var front, op := history[..|history| - 1], history[|history| - 1];
      KnownAreStored(front, id);
      if op.Put? && op.id == id {
        var existing := Stored(After(front), id);
        assert Taken(front, id, op.env) <==> op.env != map[] && forall k | k in op.env :: !MissingValue(existing, op.env, k);
        if Taken(front, id, op.env) {
          MergedIsWellFormed(existing, op.env);
        }
      }
    }
  }

  lemma GivenNext(front: seq<Op>, op: Op, id: string, k: string, value: string)
    ensures Holds(front + [op], id, k, value) <==>
            if op.Put? && op.id == id && Taken(front, id, op.env) then
              (value != "" && Gives(op.env, k, value)) || (Gives(op.env, k, "") && Holds(front, id, k, value))
            else op != Delete(id) && Holds(front, id, k, value)
  {
    hide Taken;
    var n, all := |front|, front + [op];
    assert all[..n] == front && all[n] == op;
    forall i: nat | i < n
      ensures GivenBy(all, id, k, value, i) <==>
              && GivenBy(front, id, k, value, i) && op != Delete(id)
              && (op.Put? && op.id == id && Taken(front, id, op.env) ==> Gives(op.env, k, ""))
    {
      assert forall j | 0 <= j < n :: all[..j] == front[..j] && all[j] == front[j];
    }
    if Holds(all, id, k, value) {
      var i: nat :| GivenBy(all, id, k, value, i);
      if i < n {
        assert GivenBy(front, id, k, value, i);
      }
    }
    if op.Put? && op.id == id && Taken(front, id, op.env) && value != "" && Gives(op.env, k, value) {
      assert GivenBy(all, id, k, value, n);
    } else if Holds(front, id, k, value) {
      var i: nat :| GivenBy(front, id, k, value, i);
      assert i < n && (GivenBy(all, id, k, value, i) <==>
              && op != Delete(id) && (op.Put? && op.id == id && Taken(front, id, op.env) ==> Gives(op.env, k, "")));
    }
  }

  /** What is stored, told by the posts: a secret is there once one was taken, and holds the values last given. */
  lemma {:induction false} SecretsAfter(history: seq<Op>, id: string, k: string, value: string)
    ensures id in After(history).secrets <==> Exists(history, id)
    ensures id in After(history).secrets && Gives(After(history).secrets[id], k, value) <==> Holds(history, id, k, value)
  {
    hide Without, Revoked, Holds, Taken;
    KnownAreStored(history, id);
    if history == [] {
      NothingGiven(id, k, value);
    } else {
      var front, op := history[..|history| - 1], history[|history| - 1];
      assert history == front + [op];
      SecretsAfter(front, id, k, value);
      KnownAreStored(front, id);
      GivenNext(front, op, id, k, value);
      if op.Put? && op.id == id {
        TakenExactly(front, op.env, id);
        hide Knows;
      }
    }
  }

  lemma TakenExactly(front: seq<Op>, body: Env, id: string)
    ensures Taken(front, id, body) <==>
            body != map[] && forall k | k in body :: !MissingValue(Stored(After(front), id), body, k)
  {
    KnownAreStored(front, id);
  }

  lemma NothingGiven(id: string, k: string, value: string)
    ensures !Holds([], id, k, value)
  {
  }

  predicate HasRow(grants: seq<Grant>, now: int, pty: Uuid, secret: string, tool: string) {
    exists g | g in grants :: Matches(g, pty, secret, tool) && IsLive(g, now)
  }

  lemma RowsOf(t: Tables, now: int, pty: Uuid, secret: string, tool: string)
    ensures secret in LiveSecrets(t, now, pty, tool) <==> HasRow(t.grants, now, pty, secret, tool) && secret in t.secrets
  {
  }

  lemma {:induction false} WithoutHas(grants: seq<Grant>, secret: string, g: Grant)
    ensures g in Without(grants, secret) <==> g in grants && g.secret != secret
  {
    if grants != [] {
      assert grants == grants[..|grants| - 1] + [grants[|grants| - 1]];
      WithoutHas(grants[..|grants| - 1], secret, g);
    }
  }

  lemma RowAfterDelete(grants: seq<Grant>, id: string, now: int, pty: Uuid, secret: string, tool: string)
    ensures HasRow(Without(grants, id), now, pty, secret, tool) <==> HasRow(grants, now, pty, secret, tool) && secret != id
  {
    forall g ensures g in Without(grants, id) <==> g in grants && g.secret != id {
      WithoutHas(grants, id, g);
    }
  }

  lemma RowAfterRevoke(
    grants: seq<Grant>, p: Uuid, s: string, t: string, at: int, now: int, pty: Uuid, secret: string, tool: string)
    ensures HasRow(Revoked(grants, p, s, t, at), now, pty, secret, tool) <==>
            HasRow(grants, now, pty, secret, tool) && !(p == pty && s == secret && t == tool)
  {
    var after := Revoked(grants, p, s, t, at);
    if HasRow(after, now, pty, secret, tool) {
      var g :| g in after && Matches(g, pty, secret, tool) && IsLive(g, now);
      var i :| 0 <= i < |after| && after[i] == g;
      assert grants[i] in grants;
    }
    if HasRow(grants, now, pty, secret, tool) && !(p == pty && s == secret && t == tool) {
      var g :| g in grants && Matches(g, pty, secret, tool) && IsLive(g, now);
      var i :| 0 <= i < |grants| && grants[i] == g;
      assert after[i] in after;
    }
  }

  lemma UnlockedNext(history: seq<Op>, op: Op, now: int, pty: Uuid, secret: string, tool: string)
    ensures Unlocked(history + [op], now, pty, secret, tool) <==>
            || (op.Unlock? && op.pty == pty && op.secret == secret && op.tool == tool &&
                now < op.at + op.ttl * SECOND && Exists(history, secret))
            || (Unlocked(history, now, pty, secret, tool) && !Withdraws(op, pty, secret, tool))
  {
    hide Exists;
    var n, longer := |history|, history + [op];
    assert longer[..n] == history;
    forall i: nat | i < n
      ensures UnlockedBy(longer, now, pty, secret, tool, i) <==>
              UnlockedBy(history, now, pty, secret, tool, i) && !Withdraws(op, pty, secret, tool)
    {
      assert longer[..i] == history[..i];
      assert longer[n] == op;
      assert forall j | i < j < n :: longer[j] == history[j];
    }
    if Unlocked(longer, now, pty, secret, tool) {
      var i: nat :| UnlockedBy(longer, now, pty, secret, tool, i);
      if i < n {
        assert UnlockedBy(history, now, pty, secret, tool, i);
      }
    }
    if op.Unlock? && op.pty == pty && op.secret == secret && op.tool == tool && now < op.at + op.ttl * SECOND
       && Exists(history, secret) {
      assert UnlockedBy(longer, now, pty, secret, tool, n);
    } else if Unlocked(history, now, pty, secret, tool) && !Withdraws(op, pty, secret, tool) {
      var i: nat :| UnlockedBy(history, now, pty, secret, tool, i);
      assert UnlockedBy(longer, now, pty, secret, tool, i);
    }
  }

  lemma RowAfterOp(t: Tables, op: Op, now: int, pty: Uuid, secret: string, tool: string)
    ensures HasRow(Apply(t, op).grants, now, pty, secret, tool) <==>
            || (op.Unlock? && op.pty == pty && op.secret == secret && op.tool == tool &&
                now < op.at + op.ttl * SECOND && secret in t.secrets)
            || (HasRow(t.grants, now, pty, secret, tool) && !Withdraws(op, pty, secret, tool))
  {
    hide Without;
    match op
    case Put(_, _, _) =>
    case Delete(id) => RowAfterDelete(t.grants, id, now, pty, secret, tool);
    case Unlock(p, s, tl, ttl, at) =>
      if s in t.secrets {
        RowAdded(t.grants, Grant(p, s, tl, at + ttl * SECOND, None), now, pty, secret, tool);
      }
    case RevokeAll(p, s, tl, at) => RowAfterRevoke(t.grants, p, s, tl, at, now, pty, secret, tool);
  }

  lemma RowAdded(grants: seq<Grant>, g: Grant, now: int, pty: Uuid, secret: string, tool: string)
    ensures HasRow(grants + [g], now, pty, secret, tool) <==>
            HasRow(grants, now, pty, secret, tool) || (Matches(g, pty, secret, tool) && IsLive(g, now))
  {
    forall h ensures h in grants + [g] <==> h in grants || h == g {
    }
    assert g in grants + [g];
  }

  /** Every live row has its secret: deleting a secret takes its grants with it. */
  lemma {:induction false} GrantsHaveSecrets(history: seq<Op>)
    ensures forall g | g in After(history).grants :: g.secret in After(history).secrets
  {
    if history != [] {
      var t, op := After(history[..|history| - 1]), history[|history| - 1];
      GrantsHaveSecrets(history[..|history| - 1]);
      match op
      case Put(_, _, _) =>
      case Delete(id) =>
        forall g | g in Without(t.grants, id) ensures g.secret in t.secrets - {id} {
          WithoutHas(t.grants, id, g);
        }
      case Unlock(p, s, tl, ttl, at) =>
      case RevokeAll(p, s, tl, at) =>
        var after := Revoked(t.grants, p, s, tl, at);
        forall g | g in after ensures g.secret in t.secrets {
          var i :| 0 <= i < |after| && after[i] == g;
          assert t.grants[i] in t.grants;
        }
    }
  }

  /**
   The grant table refines history: the query finds a secret exactly when it was
   unlocked for this terminal and tool, in time, and neither revoked nor deleted since.
   */
  lemma {:induction false} LiveExactlyUnlocked(history: seq<Op>, now: int, pty: Uuid, secret: string, tool: string)
    ensures secret in LiveSecrets(After(history), now, pty, tool) <==> Unlocked(history, now, pty, secret, tool)
    ensures HasRow(After(history).grants, now, pty, secret, tool) <==> Unlocked(history, now, pty, secret, tool)
  {
    hide LiveSecrets, Unlocked, Apply, HasRow, Exists;
    if history == [] {
      NoHistory(now, pty, secret, tool);
    } else {
      var front, op := history[..|history| - 1], history[|history| - 1];
      assert history == front + [op];
      LiveExactlyUnlocked(front, now, pty, secret, tool);
      RowAfterOp(After(front), op, now, pty, secret, tool);
      UnlockedNext(front, op, now, pty, secret, tool);
      SecretsAfter(front, secret, "", "");
    }
    RowsOf(After(history), now, pty, secret, tool);
    RowHasSecret(history, now, pty, secret, tool);
  }

  lemma RowHasSecret(history: seq<Op>, now: int, pty: Uuid, secret: string, tool: string)
    ensures HasRow(After(history).grants, now, pty, secret, tool) ==> secret in After(history).secrets
  {
    GrantsHaveSecrets(history);
  }

  lemma NoHistory(now: int, pty: Uuid, secret: string, tool: string)
    ensures !HasRow(After([]).grants, now, pty, secret, tool) && !Unlocked([], now, pty, secret, tool)
  {
  }

  /******* Redeeming *******/

  /** The secrets a request is about: the one it names, or all that are live. */
  function Wanted(t: Tables, now: int, r: Request): set<string> {
    var live := LiveSecrets(t, now, r.pty, r.tool);
    if r.secret.Some? then live * {r.secret.value} else live
  }

  /** No variable is in two of the secrets. */
  ghost predicate Disjoint(secrets: map<string, Env>, ids: set<string>)
    requires ids <= secrets.Keys
  {
    forall a, b, k | a in ids && b in ids && k in secrets[a] && k in secrets[b] :: a == b
  }

  ghost predicate IsUnion(secrets: map<string, Env>, ids: set<string>, env: Env)
    requires ids <= secrets.Keys
  {
    && (forall k | k in env :: exists a :: a in ids && k in secrets[a])
    && (forall a, k | a in ids && k in secrets[a] :: k in env && env[k] == secrets[a][k])
  }

  /** A variable that two of the secrets share. */
  ghost predicate Shared(secrets: map<string, Env>, ids: set<string>, key: string)
    requires ids <= secrets.Keys
  {
    exists a, b :: a in ids && b in ids && a != b && key in secrets[a] && key in secrets[b]
  }

  method AddAll(env: Env, more: Env) returns (r: Result<Env, string>)
    ensures r.Ok? ==> env.Keys !! more.Keys && r.value == env + more
    ensures r.Err? ==> r.error in env && r.error in more
  {
    var all, todo := env, more.Keys;
    while todo != {}
      invariant todo <= more.Keys && env.Keys !! (more.Keys - todo)
      invariant all == env + map k | k in more.Keys - todo :: more[k]
      decreases todo
    {
      var k :| k in todo;
      if k in all {
        return Err(k);
      }
      all := all[k := more[k]];
      todo := todo - {k};
    }
    assert (map k | k in more.Keys - todo :: more[k]) == more;
    return Ok(all);
  }

  lemma UnionNext(secrets: map<string, Env>, ids: set<string>, env: Env, id: string)
    requires ids <= secrets.Keys && id in secrets && id !in ids
    requires Disjoint(secrets, ids) && IsUnion(secrets, ids, env)
    ensures env.Keys !! secrets[id].Keys ==>
              Disjoint(secrets, ids + {id}) && IsUnion(secrets, ids + {id}, env + secrets[id])
    ensures forall k | k in env && k in secrets[id] :: Shared(secrets, ids + {id}, k)
  {
    forall k | k in env && k in secrets[id] ensures Shared(secrets, ids + {id}, k) {
      var a :| a in ids && k in secrets[a];
      assert a in ids + {id};
    }
    if env.Keys !! secrets[id].Keys {
      UnionGrows(secrets, ids, env, id);
    }
  }

  lemma UnionGrows(secrets: map<string, Env>, ids: set<string>, env: Env, id: string)
    requires ids <= secrets.Keys && id in secrets && id !in ids
    requires Disjoint(secrets, ids) && IsUnion(secrets, ids, env) && env.Keys !! secrets[id].Keys
    ensures Disjoint(secrets, ids + {id}) && IsUnion(secrets, ids + {id}, env + secrets[id])
  {
    var all, more := ids + {id}, env + secrets[id];
    forall k | k in more ensures exists a :: a in all && k in secrets[a] {
      if k in secrets[id] {
        assert id in all;
      } else {
        var a :| a in ids && k in secrets[a];
        assert a in all;
      }
    }
    forall a, k | a in all && k in secrets[a] ensures k in more && more[k] == secrets[a][k] {
      if a != id {
        assert k in env && k !in secrets[id];
      }
    }
    forall a, b, k | a in all && b in all && k in secrets[a] && k in secrets[b] ensures a == b {
      assert a in ids ==> k in env;
      assert b in ids ==> k in env;
    }
  }

  lemma SharedNotDisjoint(secrets: map<string, Env>, ids: set<string>, all: set<string>, k: string)
    requires ids <= all <= secrets.Keys && Shared(secrets, ids, k)
    ensures !Disjoint(secrets, all) && Shared(secrets, all, k)
  {
  }

  /** Merging the rows, in whatever order the query returns them. */
  method MergeEnvs(secrets: map<string, Env>, rows: seq<string>) returns (r: Result<Env, string>)
    requires Members(rows) <= secrets.Keys
    requires forall i, j | 0 <= i < j < |rows| :: rows[i] != rows[j]
    ensures r.Ok? <==> Disjoint(secrets, Members(rows))
    ensures r.Ok? ==> IsUnion(secrets, Members(rows), r.value)
    ensures r.Err? ==> Shared(secrets, Members(rows), r.error)
  {
    hide Disjoint, IsUnion, Shared;
    var env: Env := map[];
    NothingMerged(secrets);
    for i := 0 to |rows|
      invariant Members(rows[..i]) <= Members(rows)
      invariant Disjoint(secrets, Members(rows[..i])) && IsUnion(secrets, Members(rows[..i]), env)
    {
      assert rows[..i + 1] == rows[..i] + [rows[i]];
      MembersSnoc(rows[..i], rows[i]);
      assert rows[i] in Members(rows) && rows[i] !in rows[..i];
      UnionNext(secrets, Members(rows[..i]), env, rows[i]);
      var added := AddAll(env, secrets[rows[i]]);
      if added.Err? {
        SharedNotDisjoint(secrets, Members(rows[..i + 1]), Members(rows), added.error);
        return Err(added.error);
      }
      env := added.value;
    }
    assert rows[..|rows|] == rows;
    return Ok(env);
  }

  lemma NothingMerged(secrets: map<string, Env>)
    ensures Members([]) == {} && Disjoint(secrets, {}) && IsUnion(secrets, {}, map[])
  {
  }

  /** Two merges of the same rows agree, however the rows are ordered. */
  lemma UnionUnique(secrets: map<string, Env>, ids: set<string>, a: Env, b: Env)
    requires ids <= secrets.Keys && IsUnion(secrets, ids, a) && IsUnion(secrets, ids, b)
    ensures a == b
  {
    forall k | k in a ensures k in b && a[k] == b[k] {
      var s :| s in ids && k in secrets[s];
    }
    forall k | k in b ensures k in a {
      var s :| s in ids && k in secrets[s];
    }
  }

  /** One audit row for each secret. */
  ghost predicate Audited(was: seq<Use>, now: seq<Use>, ids: set<string>, r: Request, at: int) {
    exists order ::
      && Sorted(order) && Members(order) == ids
      && now == was + seq(|order|, i requires 0 <= i < |order| => Use(r.pty, order[i], r.tool, at))
  }

  /** The answers a redeeming request may get, given the tables. */
  ghost predicate Answers(t: Tables, now: int, r: Request, verified: Result<(), Refusal>, answer: Result<Env, Failure>) {
    if verified.Err? then answer == Err(Unauthorized(verified.error))
    else if !ValidTool(r.tool) then answer == Err(BadTool)
    else if r.tool == "aws" && r.secret.None? then answer == Err(AwsNeedsSecret)
    else if r.secret.Some? && !ValidSecretId(r.secret.value) then answer == Err(BadSecretId)
    else
      var ids := Wanted(t, now, r);
      if ids == {} then answer == Err(NotUnlocked)
      else match answer
        case Ok(env) => Disjoint(t.secrets, ids) && IsUnion(t.secrets, ids, env)
        case Err(Conflict(key)) => Shared(t.secrets, ids, key)
        case Err(_) => false
  }

  /** History has `s` unlocked for the request, which names it or names none. */
  ghost predicate Redeems(history: seq<Op>, now: int, r: Request, s: string) {
    r.secret.GetOr(s) == s && Unlocked(history, now, r.pty, s, r.tool)
  }

  /** No variable is in two of the secrets the request redeems. */
  ghost predicate NoConflict(history: seq<Op>, now: int, r: Request) {
    forall a, b, k, x, y |
      Redeems(history, now, r, a) && Redeems(history, now, r, b) && Holds(history, a, k, x) && Holds(history, b, k, y) ::
      a == b
  }

  lemma TablesByHistory(history: seq<Op>, now: int, r: Request)
    ensures forall s :: s in Wanted(After(history), now, r) <==> Redeems(history, now, r, s)
    ensures forall s, k, x ::
              Holds(history, s, k, x) <==>
              s in After(history).secrets && k in After(history).secrets[s] && After(history).secrets[s][k] == x
  {
    hide LiveSecrets, Unlocked, After, Holds;
    forall s ensures s in Wanted(After(history), now, r) <==> Redeems(history, now, r, s) {
      LiveExactlyUnlocked(history, now, r.pty, s, r.tool);
    }
    forall s, k, x ensures Holds(history, s, k, x) <==>
              s in After(history).secrets && k in After(history).secrets[s] && After(history).secrets[s][k] == x {
      SecretsAfter(history, s, k, x);
    }
  }

  /**
   A redemption told by history alone. It succeeds exactly when something is unlocked
   for the terminal and tool and no two such secrets share a variable; it hands out
   the variables last put under those secrets, and nothing else.
   */
  lemma AnswerIsByHistory(
    history: seq<Op>, now: int, r: Request, verified: Result<(), Refusal>, answer: Result<Env, Failure>)
    requires Answers(After(history), now, r, verified, answer)
    ensures answer.Ok? <==>
            && verified.Ok? && ValidTool(r.tool) && (r.tool == "aws" ==> r.secret.Some?)
            && (r.secret.Some? ==> ValidSecretId(r.secret.value))
            && (exists s :: Redeems(history, now, r, s)) && NoConflict(history, now, r)
    ensures answer.Ok? ==>
              forall k, x :: Gives(answer.value, k, x) <==>
                exists s :: Redeems(history, now, r, s) && Holds(history, s, k, x)
  {
    hide Redeems, Holds, After, ValidSecretId, Wanted;
    var t, ids := After(history), Wanted(After(history), now, r);
    TablesByHistory(history, now, r);
    WantedExist(t, now, r);
    if exists s :: Redeems(history, now, r, s) {
      var s :| Redeems(history, now, r, s);
      assert s in ids;
    } else {
      assert ids == {};
    }
    assert NoConflict(history, now, r) <==> Disjoint(t.secrets, ids) by {
      ConflictByHistory(history, now, r);
    }
    if answer.Ok? {
      forall k, x ensures Gives(answer.value, k, x) <==>
                exists s :: Redeems(history, now, r, s) && Holds(history, s, k, x) {
        if Gives(answer.value, k, x) {
          var s :| s in ids && k in t.secrets[s];
          assert Redeems(history, now, r, s) && Holds(history, s, k, x);
        }
      }
    }
  }

  lemma ConflictByHistory(history: seq<Op>, now: int, r: Request)
    ensures Wanted(After(history), now, r) <= After(history).secrets.Keys
    ensures NoConflict(history, now, r) <==> Disjoint(After(history).secrets, Wanted(After(history), now, r))
  {
    hide Redeems, Holds, After, Wanted;
    var t, ids := After(history), Wanted(After(history), now, r);
    TablesByHistory(history, now, r);
    WantedExist(t, now, r);
    if NoConflict(history, now, r) {
      forall a, b, k | a in ids && b in ids && k in t.secrets[a] && k in t.secrets[b] ensures a == b {
        assert Holds(history, a, k, t.secrets[a][k]) && Holds(history, b, k, t.secrets[b][k]);
      }
    }
  }

  /******* Storing secrets *******/

  /** What reading a secret shows of it: its variables, without values. */
  function Masked(env: Env): Env { map k | k in env :: "" }

  /** Writing back what was read changes nothing. */
  lemma ReadThenWriteKeeps(env: Env)
    ensures Merged(Some(env), Masked(env)) == env
    ensures forall k :: !MissingValue(Some(env), Masked(env), k)
  {
  }

  predicate WellFormed(env: Env) { env != map[] && forall k | k in env :: env[k] != "" }

  /** A write that is not refused stores a value for every variable it names, and no others. */
  lemma MergedIsWellFormed(existing: Option<Env>, body: Env)
    requires body != map[] && (existing.Some? ==> WellFormed(existing.value))
    ensures Merged(existing, body).Keys == body.Keys
    ensures WellFormed(Merged(existing, body)) <==> forall k | k in body :: !MissingValue(existing, body, k)
  {
    var k :| k in body;
    assert k in Merged(existing, body);
    forall k | k in body && MissingValue(existing, body, k) ensures Merged(existing, body)[k] == "" {
    }
  }

  /** Stored values fill in for empty ones, variable by variable. */
  method MergeValues(existing: Option<Env>, body: Env) returns (r: Result<Env, Failure>)
    ensures r.Ok? <==> forall k | k in body && body[k] == "" :: existing.Some? && k in existing.value
    ensures r.Ok? ==>
              && r.value.Keys == body.Keys
              && (forall k | k in body && body[k] != "" :: r.value[k] == body[k])
              && (forall k | k in body && body[k] == "" :: r.value[k] == existing.value[k])
    ensures r.Ok? ==> r.value == Merged(existing, body) && forall k | k in body :: !MissingValue(existing, body, k)
    ensures r.Err? ==> r.error.EmptyValue? && MissingValue(existing, body, r.error.key)
  {
    var env: Env := map[];
    var todo := body.Keys;
    while todo != {}
      invariant todo <= body.Keys
      invariant env == map k | k in body.Keys - todo :: Merged(existing, body)[k]
      invariant forall k | k in body.Keys - todo :: !MissingValue(existing, body, k)
      decreases todo
    {
      var k :| k in todo;
      todo := todo - {k};
      if body[k] == "" {
        if existing.Some? && k in existing.value {
          env := env[k := existing.value[k]];
        } else {
          return Err(EmptyValue(k));
        }
      } else {
        env := env[k := body[k]];
      }
    }
    assert forall k | k in body && body[k] == "" :: !MissingValue(existing, body, k);
    return Ok(env);
  }

  class SecretStore {
    var secrets: map<string, Env>
    var about: map<string, About>
    var grants: seq<Grant>
    var audit: seq<Use>

    ghost predicate Valid()
      reads this
    {
      && about.Keys == secrets.Keys
      && (forall s | s in secrets :: WellFormed(secrets[s]))
      && (forall g | g in grants :: g.secret in secrets)
    }

    function Contents(): Tables
      reads this
    {
      Tables(secrets, about, grants)
    }

    constructor ()
      ensures Valid() && Contents() == NOTHING && audit == []
    {
      secrets, about, grants, audit := map[], map[], [], [];
    }

    method UpsertSecret(id: string, body: Env, details: About) returns (r: Result<(), Failure>)
      requires Valid()
      modifies this`secrets, this`about
      ensures Valid()
      ensures r.Ok? <==>
              && ValidSecretId(id) && body != map[]
              && forall k | k in body && body[k] == "" :: id in old(secrets) && k in old(secrets)[id]
      ensures r.Ok? ==>
                && id in secrets && secrets[id].Keys == body.Keys
                && (forall k | k in body && body[k] != "" :: secrets[id][k] == body[k])
                && (forall k | k in body && body[k] == "" :: secrets[id][k] == old(secrets)[id][k])
                && secrets == old(secrets)[id := secrets[id]] && about == old(about)[id := details]
      ensures r.Err? ==> Contents() == old(Contents())
      ensures r == Err(BadSecretId) <==> !ValidSecretId(id)
      ensures r == Err(EmptyEnv) <==> ValidSecretId(id) && body == map[]
      ensures r.Ok? ==> Contents() == Apply(old(Contents()), Put(id, body, details))
    {
      hide ValidSecretId, Merged, MissingValue, WellFormed;
      if !ValidSecretId(id) {
        return Err(BadSecretId);
      }
      if body == map[] {
        return Err(EmptyEnv);
      }
      var existing := if id in secrets then Some(secrets[id]) else None;
      var env := MergeValues(existing, body);
      if env.Err? {
        return Err(env.error);
      }
      MergedIsWellFormed(existing, body);
      secrets, about := secrets[id := env.value], about[id := details];
      return Ok(());
    }

    /** What is read of a secret: its variables without their values, and its description. */
    method ReadSecret(id: string) returns (r: Result<(Env, About), Failure>)
      requires Valid()
      ensures r == Err(BadSecretId) <==> !ValidSecretId(id)
      ensures r == Err(NoSuchSecret) <==> ValidSecretId(id) && id !in secrets
      ensures r.Ok? <==> ValidSecretId(id) && id in secrets
      ensures r.Ok? ==>
                r.value.1 == about[id] && r.value.0.Keys == secrets[id].Keys && forall k | k in r.value.0 :: r.value.0[k] == ""
    {
      if !ValidSecretId(id) {
        return Err(BadSecretId);
      }
      if id !in secrets {
        return Err(NoSuchSecret);
      }
      return Ok((Masked(secrets[id]), about[id]));
    }

    method DeleteSecret(id: string)
      requires Valid()
      modifies this`secrets, this`about, this`grants
      ensures Valid() && Contents() == Apply(old(Contents()), Delete(id))
      ensures secrets == old(secrets) - {id} && about == old(about) - {id}
      ensures forall g :: g in grants <==> g in old(grants) && g.secret != id
    {
      forall g ensures g in Without(grants, id) <==> g in grants && g.secret != id {
        WithoutHas(grants, id, g);
      }
      secrets, about, grants := secrets - {id}, about - {id}, Without(grants, id);
    }

    method UnlockGrant(pty: Uuid, secret: string, tool: string, ttl: int, now: int) returns (r: Result<(), Failure>)
      requires Valid()
      modifies this`grants
      ensures Valid()
      ensures r.Ok? <==>
              ValidSecretId(secret) && (tool == "with-cred" || tool == "aws") && 60 <= ttl <= 86_400 && secret in secrets
      ensures grants ==
              if r.Ok? then old(grants) + [Grant(pty, secret, tool, now + ttl * 1_000_000, None)] else old(grants)
      ensures Contents() == if r.Ok? then Apply(old(Contents()), Unlock(pty, secret, tool, ttl, now)) else old(Contents())
    {
      if !ValidSecretId(secret) {
        return Err(BadSecretId);
      }
      if !ValidTool(tool) {
        return Err(BadTool);
      }
      if !(60 <= ttl <= 86_400) {
        return Err(BadTtl);
      }
      if secret !in secrets {
        return Err(NoSuchSecret);
      }
      grants := grants + [Grant(pty, secret, tool, now + ttl * SECOND, None)];
      return Ok(());
    }

    method RevokeGrant(pty: Uuid, secret: string, tool: string, now: int)
      requires Valid()
      modifies this`grants
      ensures Valid() && Contents() == Apply(old(Contents()), RevokeAll(pty, secret, tool, now))
      ensures |grants| == |old(grants)|
      ensures forall i | 0 <= i < |grants| ::
                var was := old(grants)[i];
                grants[i] == if was.pty == pty && was.secret == secret && was.tool == tool && was.revokedAt.None?
                             then was.(revokedAt := Some(now)) else was
    {
      forall g | g in Revoked(grants, pty, secret, tool, now) ensures g.secret in secrets {
        var i :| 0 <= i < |grants| && Revoked(grants, pty, secret, tool, now)[i] == g;
        assert grants[i] in grants;
      }
      grants := Revoked(grants, pty, secret, tool, now);
    }

    /** The redeeming request, after its signature was judged. Refusals leave no audit. */
    method UseSecret(r: Request, verified: Result<(), Refusal>, now: int) returns (answer: Result<Env, Failure>)
      requires Valid()
      modifies this`audit
      ensures Answers(Contents(), now, r, verified, answer)
      ensures answer.Ok? ==> Audited(old(audit), audit, Wanted(Contents(), now, r), r, now)
      ensures answer.Err? ==> audit == old(audit)
    {
      hide LiveSecrets, ValidSecretId, Disjoint, IsUnion, Shared, WellFormed, Wanted, Valid;
      if verified.Err? {
        return Err(Unauthorized(verified.error));
      }
      if !ValidTool(r.tool) {
        return Err(BadTool);
      }
      if r.tool == "aws" && r.secret.None? {
        return Err(AwsNeedsSecret);
      }
      if r.secret.Some? && !ValidSecretId(r.secret.value) {
        return Err(BadSecretId);
      }
      WantedExist(Contents(), now, r);
      var rows := Sort(Wanted(Contents(), now, r));
      NoMembers(rows);
      if rows == [] {
        return Err(NotUnlocked);
      }
      SortedHasNoRepeats(rows);
      var merged := MergeEnvs(secrets, rows);
      if merged.Err? {
        return Err(Conflict(merged.error));
      }
      ghost var was := audit;
      for i := 0 to |rows|
        invariant audit == was + seq(i, j requires 0 <= j < i <= |rows| => Use(r.pty, rows[j], r.tool, now))
      {
        audit := audit + [Use(r.pty, rows[i], r.tool, now)];
      }
      return Ok(merged.value);
    }
  }

  lemma WantedExist(t: Tables, now: int, r: Request)
    ensures Wanted(t, now, r) <= t.secrets.Keys
  {
  }
}
