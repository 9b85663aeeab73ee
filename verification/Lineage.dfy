/**
 Parent links between sessions: the ancestor walk, the recursive descendant query,
 and which projections a Codex insert makes stale.
 */
module Lineage {
  import opened Wrappers
  import opened Ordering
  import opened CodexContext

  /** The session table: a row per key, holding its parent link. */
  type Sessions = map<Uuid, Option<Uuid>>

  function Parent(t: Sessions, u: Uuid): Option<Uuid> { if u in t then t[u] else None }

  /** The `n`-th ancestor. */
  function Up(t: Sessions, u: Uuid, n: nat): Option<Uuid> {
    if n == 0 then Some(u)
    else match Up(t, u, n - 1)
      case None => None
      case Some(v) => Parent(t, v)
  }

  predicate IsUp(t: Sessions, u: Uuid, n: nat, a: Uuid) { Up(t, u, n) == Some(a) }

  ghost predicate Descends(t: Sessions, u: Uuid, a: Uuid) {
    exists n: nat :: n > 0 && IsUp(t, u, n, a)
  }

  ghost predicate WalkEnds(t: Sessions, u: Uuid) { exists n: nat :: Up(t, u, n).None? }

  /******* Ancestors *******/

  lemma {:induction false} UpAdds(t: Sessions, u: Uuid, m: nat, n: nat)
    ensures Up(t, u, m + n) == match Up(t, u, m) case None => None case Some(v) => Up(t, v, n)
  {
    if n == 0 {
    } else {
      UpAdds(t, u, m, n - 1);
    }
  }

  lemma GoneStaysGone(t: Sessions, u: Uuid, m: nat, n: nat)
    requires m <= n && Up(t, u, m).None?
    ensures Up(t, u, n).None?
  {
    UpAdds(t, u, m, n - m);
  }

  /** A walk that comes back goes on for ever. */
  lemma {:induction false} CycleGoesOn(t: Sessions, u: Uuid, n: nat, m: nat)
    requires n > 0 && Up(t, u, n) == Some(u)
    ensures Up(t, u, m).Some?
  {
    if m < n {
      if Up(t, u, m).None? {
        GoneStaysGone(t, u, m, n);
      }
    } else {
      CycleGoesOn(t, u, n, m - n);
      UpAdds(t, u, n, m - n);
    }
  }

  lemma EndedWalkHasNoCycle(t: Sessions, u: Uuid, m: nat, v: Uuid)
    requires WalkEnds(t, u) && Up(t, u, m) == Some(v)
    ensures !Descends(t, v, v) && WalkEnds(t, v)
  {
    var end: nat :| Up(t, u, end).None?;
    GoneStaysGone(t, u, end, m + end);
    UpAdds(t, u, m, end);
    if Descends(t, v, v) {
      var n: nat :| n > 0 && IsUp(t, v, n, v);
      CycleGoesOn(t, v, n, end);
    }
  }

  /** The first `n` sessions of a walk. */
  function Walked(t: Sessions, u: Uuid, n: nat): (r: set<Uuid>)
    requires Up(t, u, n).Some?
  {
    if n == 0 then {}
    else
      assert Up(t, u, n - 1).Some?;
      Walked(t, u, n - 1) + {Up(t, u, n - 1).value}
  }

  lemma {:induction false} WalkedAre(t: Sessions, u: Uuid, n: nat)
    requires Up(t, u, n).Some?
    ensures Walked(t, u, n) <= t.Keys
    ensures forall v | v in Walked(t, u, n) :: exists i: nat :: i < n && IsUp(t, u, i, v)
  {
    if n > 0 {
      WalkedAre(t, u, n - 1);
      var before := Walked(t, u, n - 1);
      var last := Up(t, u, n - 1).value;
      assert Walked(t, u, n) == before + {last};
      forall v | v in Walked(t, u, n) ensures exists i: nat :: i < n && IsUp(t, u, i, v) {
        if v in before {
          var i: nat :| i < n - 1 && IsUp(t, u, i, v);
          assert i < n && IsUp(t, u, i, v);
        } else {
          assert IsUp(t, u, n - 1, v);
        }
      }
    }
  }

  /** A walk of `n` steps visits `n` rows, or comes back to a session it has left. */
  lemma {:induction false} WalkVisits(t: Sessions, u: Uuid, n: nat)
    requires Up(t, u, n).Some?
    ensures |Walked(t, u, n)| == n || exists i: nat, v :: i < n && IsUp(t, u, i, v) && Descends(t, v, v)
  {
    if n > 0 {
      WalkVisits(t, u, n - 1);
      if |Walked(t, u, n - 1)| == n - 1 {
        var v := Up(t, u, n - 1).value;
        if v in Walked(t, u, n - 1) {
          WalkedAre(t, u, n - 1);
          var i: nat :| i < n - 1 && IsUp(t, u, i, v);
          UpAdds(t, u, i, n - 1 - i);
          assert IsUp(t, v, n - 1 - i, v);
          assert i < n;
        }
      } else {
        var i: nat, v :| i < n - 1 && IsUp(t, u, i, v) && Descends(t, v, v);
        assert i < n;
      }
    }
  }

  /** The ancestor walk ends exactly when it meets no session that descends from itself. */
  lemma WalkEndsExactly(t: Sessions, u: Uuid)
    ensures WalkEnds(t, u) <==> forall n: nat, v | IsUp(t, u, n, v) :: !Descends(t, v, v)
  {
    if WalkEnds(t, u) {
      forall n: nat, v | IsUp(t, u, n, v) ensures !Descends(t, v, v) {
        EndedWalkHasNoCycle(t, u, n, v);
      }
    } else {
      var n := |t.Keys| + 1;
      assert Up(t, u, n).Some?;
      WalkVisits(t, u, n);
      WalkedAre(t, u, n);
      SubsetSize(Walked(t, u, n), t.Keys);
    }
  }

  /** All ancestors, nearest first. */
  ghost predicate IsChain(t: Sessions, u: Uuid, chain: seq<Uuid>) {
    && (forall i | 0 <= i < |chain| :: Up(t, u, i + 1) == Some(chain[i]))
    && Up(t, u, |chain| + 1).None?
  }

  lemma ChainHolds(t: Sessions, u: Uuid, chain: seq<Uuid>)
    requires IsChain(t, u, chain)
    ensures forall a :: a in chain <==> Descends(t, u, a)
    ensures forall i, j | 0 <= i < j < |chain| :: chain[i] != chain[j]
    ensures u !in chain
  {
    forall a | Descends(t, u, a) ensures a in chain {
      var n: nat :| n > 0 && IsUp(t, u, n, a);
      if n > |chain| {
        GoneStaysGone(t, u, |chain| + 1, n);
      } else {
        assert chain[n - 1] == a;
      }
    }
    forall a | a in chain ensures Descends(t, u, a) {
      var i :| 0 <= i < |chain| && chain[i] == a;
      assert IsUp(t, u, i + 1, a);
    }
    assert WalkEnds(t, u);
    forall i, j | 0 <= i < j < |chain| ensures chain[i] != chain[j] {
      UpAdds(t, u, i + 1, j - i);
      if chain[i] == chain[j] {
        assert IsUp(t, chain[i], j - i, chain[i]);
      }
      EndedWalkHasNoCycle(t, u, i + 1, chain[i]);
    }
    EndedWalkHasNoCycle(t, u, 0, u);
  }

  lemma ChainIsLinks(t: Sessions, u: Uuid, chain: seq<Uuid>)
    requires IsChain(t, u, chain)
    ensures forall i | 0 <= i < |chain| :: ([u] + chain)[i] in t && t[([u] + chain)[i]] == Some(chain[i])
    ensures var last := ([u] + chain)[|chain|]; last !in t || t[last].None?
  {
    forall i: nat | i <= |chain| ensures Up(t, u, i) == Some(([u] + chain)[i]) {
    }
    forall i: nat | i < |chain| ensures ([u] + chain)[i] in t && t[([u] + chain)[i]] == Some(chain[i]) {
      assert Up(t, u, i + 1) == Parent(t, ([u] + chain)[i]);
    }
    assert Up(t, u, |chain| + 1) == Parent(t, ([u] + chain)[|chain|]);
  }

  /** The walk up the parent links, one query a step. */
  method ParentChain(t: Sessions, start: Uuid) returns (chain: seq<Uuid>)
    requires WalkEnds(t, start)
    ensures IsChain(t, start, chain)
    ensures forall i | 0 <= i < |chain| :: ([start] + chain)[i] in t && t[([start] + chain)[i]] == Some(chain[i])
    ensures var last := ([start] + chain)[|chain|]; last !in t || t[last].None?
    ensures forall a :: a in chain <==> Descends(t, start, a)
    ensures forall i, j | 0 <= i < j < |chain| :: chain[i] != chain[j]
  {
    ghost var bound: nat :| Up(t, start, bound).None?;
    chain := [];
    var current := start;
    while true
      invariant Up(t, start, |chain|) == Some(current)
      invariant forall i | 0 <= i < |chain| :: Up(t, start, i + 1) == Some(chain[i])
      decreases bound - |chain|
    {
      if bound <= |chain| {
        GoneStaysGone(t, start, bound, |chain|);
      }
      var row := Parent(t, current);
      if row.None? {
        break;
      }
      chain := chain + [row.value];
      current := row.value;
    }
    ChainHolds(t, start, chain);
    ChainIsLinks(t, start, chain);
  }

  /** Links of the table that lead from the first session to the last. */
  predicate IsLinkPath(t: Sessions, path: seq<Uuid>) {
    |path| >= 2 && forall i | 0 <= i < |path| - 1 :: path[i] in t && t[path[i]] == Some(path[i + 1])
  }

  lemma {:induction false} LinkPathIsUp(t: Sessions, path: seq<Uuid>)
    requires IsLinkPath(t, path)
    ensures Up(t, path[0], |path| - 1) == Some(path[|path| - 1])
  {
    if |path| > 2 {
      LinkPathIsUp(t, path[..|path| - 1]);
    } else {
      assert Up(t, path[0], 1) == Parent(t, path[0]);
    }
  }

  lemma {:induction false} UpIsLinkPath(t: Sessions, u: Uuid, n: nat, a: Uuid) returns (path: seq<Uuid>)
    requires n > 0 && Up(t, u, n) == Some(a)
    ensures IsLinkPath(t, path) && path[0] == u && path[|path| - 1] == a
  {
    if n == 1 {
      assert Up(t, u, 1) == Parent(t, u);
      path := [u, a];
    } else {
      var v := Up(t, u, n - 1).value;
      path := UpIsLinkPath(t, u, n - 1, v);
      path := path + [a];
    }
  }

  /** A session descends from another exactly if links of the table lead from the one to the other. */
  lemma DescendsByLinks(t: Sessions, u: Uuid, a: Uuid)
    ensures Descends(t, u, a) <==> exists path :: IsLinkPath(t, path) && path[0] == u && path[|path| - 1] == a
  {
    if Descends(t, u, a) {
      var n: nat :| n > 0 && IsUp(t, u, n, a);
      var path := UpIsLinkPath(t, u, n, a);
    }
    if exists path :: IsLinkPath(t, path) && path[0] == u && path[|path| - 1] == a {
      var path :| IsLinkPath(t, path) && path[0] == u && path[|path| - 1] == a;
      LinkPathIsUp(t, path);
      assert IsUp(t, u, |path| - 1, a);
    }
  }

  /** `SET parent_session_uuid = p WHERE .. IS NULL`; only a self-reference is refused. */
  function Link(t: Sessions, u: Uuid, p: Uuid): Sessions {
    if u in t && t[u].None? && p != u then t[u := Some(p)] else t
  }

  /** A link is set exactly where there is a row without one and another session to point at; nothing else moves. */
  lemma LinkExactly(t: Sessions, u: Uuid, p: Uuid)
    ensures Link(t, u, p).Keys == t.Keys
    ensures forall x | x in t ::
              Link(t, u, p)[x] == if x == u && t[x] == None && u != p then Some(p) else t[x]
  {
  }

  /** Nothing in the links' own rules keeps two sessions from being each other's parent. */
  lemma MutualParents(a: Uuid, b: Uuid)
    requires a != b
    ensures !WalkEnds(Link(Link(map[a := None, b := None], a, b), b, a), a)
  {
    var t := Link(Link(map[a := None, b := None], a, b), b, a);
    assert Up(t, a, 1) == Some(b);
    assert Up(t, a, 2) == Some(a);
    if WalkEnds(t, a) {
      assert IsUp(t, a, 2, a);
      EndedWalkHasNoCycle(t, a, 0, a);
    }
  }

  /******* Descendants *******/

  /** The rows whose parent link is `w`, by id. */
  ghost predicate AreChildren(t: Sessions, w: Uuid, rows: seq<Uuid>) {
    Sorted(rows) && forall c :: c in rows <==> c in t && t[c] == Some(w)
  }

  method Children(t: Sessions, w: Uuid) returns (rows: seq<Uuid>)
    ensures AreChildren(t, w, rows)
  {
    rows := Sort(set c | c in t && t[c] == Some(w));
    assert forall c :: c in rows <==> c in Members(rows);
  }

  ghost predicate Repeats(s: seq<Uuid>) { exists i, j :: 0 <= i < j < |s| && s[i] == s[j] }

  /** The rows of the query at depth `d`, each of them once. */
  ghost predicate IsLevel(t: Sessions, a: Uuid, d: nat, level: seq<Uuid>) {
    && (forall u :: u in level <==> a in t && u in t && Up(t, u, d) == Some(a))
    && !Repeats(level)
  }

  /** One round of the recursive part: the children of every row of the working table. */
  method Join(t: Sessions, working: seq<Uuid>) returns (next: seq<Uuid>)
    requires !Repeats(working)
    ensures forall u :: u in next <==> u in t && t[u].Some? && t[u].value in working
    ensures !Repeats(next)
  {
    next := [];
    for i := 0 to |working|
      invariant forall u :: u in next <==> u in t && t[u].Some? && t[u].value in working[..i]
      invariant !Repeats(next)
    {
      var rows := Children(t, working[i]);
      assert working[..i + 1] == working[..i] + [working[i]];
      SortedHasNoRepeats(rows);
      NewRow(working, i);
      NoRepeatsJoined(next, rows);
      next := next + rows;
    }
    assert working[..|working|] == working;
  }

  lemma NewRow(s: seq<Uuid>, i: nat)
    requires i < |s| && !Repeats(s)
    ensures s[i] !in s[..i]
  {
  }

  lemma NoRepeatsJoined(a: seq<Uuid>, b: seq<Uuid>)
    requires !Repeats(a) && !Repeats(b) && forall x | x in a :: x !in b
    ensures !Repeats(a + b)
  {
    var both := a + b;
    forall i, j | 0 <= i < j < |both| ensures both[i] != both[j] {
      if i < |a| <= j {
        assert both[i] in a && both[j] in b;
      } else if j < |a| {
        assert both[i] == a[i] && both[j] == a[j];
      } else {
        assert both[i] == b[i - |a|] && both[j] == b[j - |a|];
      }
    }
  }

  lemma NextLevel(t: Sessions, a: Uuid, d: nat, u: Uuid)
    ensures Up(t, u, d + 1) == match Parent(t, u) case None => None case Some(p) => Up(t, p, d)
  {
    UpAdds(t, u, 1, d);
    assert Up(t, u, 1) == Parent(t, u);
  }

  lemma LevelJoined(t: Sessions, a: Uuid, d: nat, level: seq<Uuid>, next: seq<Uuid>)
    requires IsLevel(t, a, d, level) && !Repeats(next)
    requires forall u :: u in next <==> u in t && t[u].Some? && t[u].value in level
    ensures IsLevel(t, a, d + 1, next)
  {
    forall u ensures u in next <==> a in t && u in t && Up(t, u, d + 1) == Some(a) {
      NextLevel(t, a, d, u);
      if u in t && t[u].Some? && a in t && Up(t, u, d + 1) == Some(a) {
        var p := t[u].value;
        assert Up(t, p, d) == Some(a);
        UpInTable(t, p, d, a);
      }
    }
  }

  lemma UpInTable(t: Sessions, u: Uuid, n: nat, a: Uuid)
    requires Up(t, u, n) == Some(a) && a in t
    ensures u in t
  {
    if n > 0 {
      UpAdds(t, u, 1, n - 1);
      assert Up(t, u, 1) == Parent(t, u);
    }
  }

  ghost predicate AtDepth(t: Sessions, u: Uuid, a: Uuid, d: nat) { u in t && Up(t, u, d) == Some(a) }

  /** Nearer to `a`, or as near and earlier by id. */
  ghost predicate Sooner(t: Sessions, a: Uuid, x: Uuid, y: Uuid) {
    exists m: nat, n: nat ::
      AtDepth(t, x, a, m) && AtDepth(t, y, a, n) && (m < n || (m == n && Before(x, y)))
  }

  /** The query's answer: every row below `a`, once, by depth and then by id. */
  ghost predicate AreDescendants(t: Sessions, a: Uuid, ids: seq<Uuid>) {
    && (forall u :: u in ids <==> a in t && u in t && Descends(t, u, a))
    && !Repeats(ids)
    && forall i, j | 0 <= i < j < |ids| :: Sooner(t, a, ids[i], ids[j])
  }

  ghost predicate Above(t: Sessions, u: Uuid, a: Uuid, d: nat) {
    exists m: nat :: 0 < m < d && AtDepth(t, u, a, m)
  }

  /** After the rounds up to depth `d`. */
  ghost predicate Gathered(t: Sessions, a: Uuid, ids: seq<Uuid>, d: nat) {
    && (forall i | 0 <= i < |ids| :: Above(t, ids[i], a, d))
    && (a in t ==> forall u | Above(t, u, a, d) :: u in ids)
    && (a !in t ==> ids == [])
    && forall i, j | 0 <= i < j < |ids| :: Sooner(t, a, ids[i], ids[j])
  }

  lemma EmptyLevel(s: seq<Uuid>)
    ensures s != [] ==> exists u :: u in s
  {
    if s != [] {
      assert s[0] in s;
    }
  }

  lemma GatheredNext(t: Sessions, a: Uuid, ids: seq<Uuid>, d: nat, level: seq<Uuid>)
    requires Gathered(t, a, ids, d) && d > 0
    requires Sorted(level) && forall u :: u in level <==> a in t && AtDepth(t, u, a, d)
    ensures Gathered(t, a, ids + level, d + 1)
  {
    hide Before, Up;
    var all := ids + level;
    if a !in t {
      EmptyLevel(level);
    }
    forall i | 0 <= i < |all| ensures Above(t, all[i], a, d + 1) {
      if i < |ids| {
        assert Above(t, ids[i], a, d);
        var m: nat :| 0 < m < d && AtDepth(t, ids[i], a, m);
        assert AtDepth(t, all[i], a, m) && m < d + 1;
      } else {
        assert all[i] in level;
        assert AtDepth(t, all[i], a, d);
      }
    }
    if a in t {
      forall u | Above(t, u, a, d + 1) ensures u in all {
        var m: nat :| 0 < m < d + 1 && AtDepth(t, u, a, m);
        if m == d {
          assert u in level;
        } else {
          assert Above(t, u, a, d);
        }
      }
    }
    forall i, j | 0 <= i < j < |all| ensures Sooner(t, a, all[i], all[j]) {
      if j < |ids| {
        assert Sooner(t, a, ids[i], ids[j]);
      } else if i < |ids| {
        assert all[j] in level;
        assert Above(t, ids[i], a, d);
        var m: nat :| 0 < m < d && AtDepth(t, ids[i], a, m);
        assert AtDepth(t, all[i], a, m) && AtDepth(t, all[j], a, d);
      } else {
        assert all[i] in level && all[j] in level;
        assert Before(level[i - |ids|], level[j - |ids|]);
        assert AtDepth(t, all[i], a, d) && AtDepth(t, all[j], a, d);
      }
    }
  }

  /** Below a session that does not descend from itself, every session is at one depth only. */
  lemma OneDepth(t: Sessions, a: Uuid, u: Uuid, m: nat, n: nat)
    requires !Descends(t, a, a) && AtDepth(t, u, a, m) && AtDepth(t, u, a, n)
    ensures m == n
  {
    if m < n {
      UpAdds(t, u, m, n - m);
      assert IsUp(t, a, n - m, a);
    } else if n < m {
      UpAdds(t, u, n, m - n);
      assert IsUp(t, a, m - n, a);
    }
  }

  /** Once a level is empty, so are all below it. */
  lemma NothingDeeper(t: Sessions, a: Uuid, u: Uuid, d: nat, m: nat)
    requires a in t && d <= m && forall v :: !AtDepth(t, v, a, d)
    ensures !AtDepth(t, u, a, m)
  {
    if AtDepth(t, u, a, m) {
      UpAdds(t, u, m - d, d);
      var v := Up(t, u, m - d).value;
      UpInTable(t, v, d, a);
      assert AtDepth(t, v, a, d);
    }
  }

  lemma GatheredAll(t: Sessions, a: Uuid, ids: seq<Uuid>, d: nat)
    requires !Descends(t, a, a) && Gathered(t, a, ids, d) && d > 0
    requires a in t ==> forall v :: !AtDepth(t, v, a, d)
    ensures AreDescendants(t, a, ids)
  {
    hide Before, Up;
    forall u ensures u in ids <==> a in t && u in t && Descends(t, u, a) {
      if u in ids {
        var i :| 0 <= i < |ids| && ids[i] == u;
        assert Above(t, ids[i], a, d);
        var m: nat :| 0 < m < d && AtDepth(t, ids[i], a, m);
        assert IsUp(t, u, m, a);
      }
      if a in t && u in t && Descends(t, u, a) {
        var m: nat :| m > 0 && IsUp(t, u, m, a);
        assert AtDepth(t, u, a, m);
        if m < d {
          assert Above(t, u, a, d);
        } else {
          NothingDeeper(t, a, u, d, m);
        }
      }
    }
    forall i, j | 0 <= i < j < |ids| ensures ids[i] != ids[j] {
      assert Sooner(t, a, ids[i], ids[j]);
      var m: nat, n: nat :| AtDepth(t, ids[i], a, m) && AtDepth(t, ids[j], a, n) &&
                            (m < n || (m == n && Before(ids[i], ids[j])));
      if ids[i] == ids[j] {
        OneDepth(t, a, ids[i], m, n);
        BeforeIsStrict(ids[i], ids[j]);
      }
    }
  }

  lemma SoonerIsStrict(t: Sessions, a: Uuid, x: Uuid, y: Uuid)
    requires !Descends(t, a, a) && Sooner(t, a, x, y)
    ensures !Sooner(t, a, y, x)
  {
    hide Up;
    var m: nat, n: nat :| AtDepth(t, x, a, m) && AtDepth(t, y, a, n) && (m < n || (m == n && Before(x, y)));
    if Sooner(t, a, y, x) {
      var p: nat, q: nat :| AtDepth(t, y, a, p) && AtDepth(t, x, a, q) && (p < q || (p == q && Before(y, x)));
      OneDepth(t, a, x, m, q);
      OneDepth(t, a, y, n, p);
      BeforeIsStrict(x, y);
    }
  }

  lemma {:induction false} SoonestFirst(t: Sessions, a: Uuid, p: seq<Uuid>, q: seq<Uuid>)
    requires !Descends(t, a, a) && !Repeats(p) && !Repeats(q)
    requires forall i, j | 0 <= i < j < |p| :: Sooner(t, a, p[i], p[j])
    requires forall i, j | 0 <= i < j < |q| :: Sooner(t, a, q[i], q[j])
    requires forall u :: u in p <==> u in q
    ensures p == q
    decreases |p|
  {
    hide Sooner, Descends;
    EmptyLevel(p);
    EmptyLevel(q);
    if p != [] {
      assert p[0] in q && q[0] in p;
      var i :| 0 <= i < |q| && q[i] == p[0];
      var j :| 0 <= j < |p| && p[j] == q[0];
      if i > 0 && j > 0 {
        SoonerIsStrict(t, a, q[0], q[i]);
      }
      var x, y := p[1..], q[1..];
      forall u ensures u in x <==> u in y {
        RestHasNotFirst(p, u);
        RestHasNotFirst(q, u);
      }
      RestHasNotFirst(p, p[0]);
      RestHasNotFirst(q, q[0]);
      SoonestFirst(t, a, x, y);
      assert p == [p[0]] + x && q == [q[0]] + y;
    }
  }

  lemma RestHasNotFirst(s: seq<Uuid>, u: Uuid)
    requires s != [] && !Repeats(s)
    ensures u in s[1..] <==> u in s && u != s[0]
    ensures !Repeats(s[1..])
  {
    assert s == [s[0]] + s[1..];
    if u in s[1..] {
      var i :| 0 <= i < |s[1..]| && s[1..][i] == u;
      assert s[i + 1] == u;
    }
  }

  /** The query has one answer. */
  lemma DescendantsUnique(t: Sessions, a: Uuid, p: seq<Uuid>, q: seq<Uuid>)
    requires !Descends(t, a, a) && AreDescendants(t, a, p) && AreDescendants(t, a, q)
    ensures p == q
  {
    hide Sooner, Descends;
    SoonestFirst(t, a, p, q);
  }

  /** A walk that meets a cycle before `a` finds `a` on that cycle. */
  lemma CycleHolds(t: Sessions, v: Uuid, a: Uuid, m: nat)
    requires Descends(t, v, v) && Up(t, v, m) == Some(a)
    ensures Descends(t, a, a)
  {
    var n: nat :| n > 0 && IsUp(t, v, n, v);
    UpAdds(t, v, m, n);
    UpAdds(t, v, n, m);
    assert IsUp(t, a, n, a);
  }

  /** No level as deep as the table is large has a row. */
  lemma LevelsEnd(t: Sessions, a: Uuid, u: Uuid, d: nat)
    requires !Descends(t, a, a) && |t.Keys| < d
    ensures !AtDepth(t, u, a, d)
  {
    if AtDepth(t, u, a, d) {
      WalkVisits(t, u, d);
      WalkedAre(t, u, d);
      SubsetSize(Walked(t, u, d), t.Keys);
      var i: nat, v :| i < d && IsUp(t, u, i, v) && Descends(t, v, v);
      UpAdds(t, u, i, d - i);
      CycleHolds(t, v, a, d - i);
    }
  }

  /** Some round of the query finds no row. */
  ghost predicate QueryEnds(t: Sessions, a: Uuid) {
    a in t ==> exists d: nat :: NoRowAt(t, a, d)
  }

  ghost predicate NoRowAt(t: Sessions, a: Uuid, d: nat) { forall u :: !AtDepth(t, u, a, d) }

  lemma {:induction false} CycleRepeats(t: Sessions, a: Uuid, n: nat, k: nat)
    requires Up(t, a, n) == Some(a)
    ensures Up(t, a, n * k) == Some(a)
  {
    if k > 0 {
      CycleRepeats(t, a, n, k - 1);
      UpAdds(t, a, n * (k - 1), n);
      assert n * (k - 1) + n == n * k;
    }
  }

  /** The recursive query from `a` ends exactly if `a` does not descend from itself. */
  lemma QueryEndsExactly(t: Sessions, a: Uuid)
    ensures QueryEnds(t, a) <==> !Descends(t, a, a)
  {
    if Descends(t, a, a) {
      var n: nat :| n > 0 && IsUp(t, a, n, a);
      UpAdds(t, a, 1, n - 1);
      assert a in t by { assert Up(t, a, 1) == Parent(t, a); }
      forall d: nat ensures !NoRowAt(t, a, d) {
        CycleRepeats(t, a, n, d);
        assert AtDepth(t, a, a, n * d);
        assert d <= n * d;
        if NoRowAt(t, a, d) {
          NothingDeeper(t, a, a, d, n * d);
        }
      }
    } else {
      var d := |t.Keys| + 1;
      forall u ensures !AtDepth(t, u, a, d) {
        LevelsEnd(t, a, u, d);
      }
      assert NoRowAt(t, a, d);
    }
  }

  lemma SameMembers(level: seq<Uuid>, sorted: seq<Uuid>)
    requires Members(sorted) == Members(level)
    ensures forall u :: u in sorted <==> u in level
  {
    forall u ensures u in sorted <==> u in level {
      assert u in sorted <==> u in Members(sorted);
      assert u in level <==> u in Members(level);
    }
  }

  /** The recursive query, round by round until a round finds no row, then its `ORDER BY`. */
  method DescendantIds(t: Sessions, a: Uuid) returns (ids: seq<Uuid>)
    requires !Descends(t, a, a)
    ensures AreDescendants(t, a, ids)
  {
    hide Before, Up, Gathered, AreDescendants;
    var working := if a in t then [a] else [];
    ids := [];
    var d := 1;
    FirstLevel(t, a, working);
    working := Join(t, working);
    FirstJoin(t, a, working);
    GatheredNone(t, a);
    while working != []
      invariant 1 <= d && IsLevel(t, a, d, working) && Gathered(t, a, ids, d)
      decreases |t.Keys| + 1 - d
    {
      assert working[0] in working;
      assert AtDepth(t, working[0], a, d);
      if |t.Keys| < d {
        LevelsEnd(t, a, working[0], d);
      }
      var sorted := Sort(Members(working));
      SameMembers(working, sorted);
      GatheredNext(t, a, ids, d, sorted);
      ids := ids + sorted;
      var next := Join(t, working);
      LevelJoined(t, a, d, working, next);
      working, d := next, d + 1;
    }
    if a in t {
      forall v ensures !AtDepth(t, v, a, d) {
        assert v !in working;
      }
    }
    GatheredAll(t, a, ids, d);
  }

  lemma FirstLevel(t: Sessions, a: Uuid, level: seq<Uuid>)
    requires level == if a in t then [a] else []
    ensures IsLevel(t, a, 0, level)
  {
  }

  lemma FirstJoin(t: Sessions, a: Uuid, next: seq<Uuid>)
    requires !Repeats(next)
    requires forall u :: u in next <==> u in t && t[u].Some? && t[u].value in (if a in t then [a] else [])
    ensures IsLevel(t, a, 1, next)
  {
    FirstLevel(t, a, if a in t then [a] else []);
    LevelJoined(t, a, 0, if a in t then [a] else [], next);
  }

  lemma GatheredNone(t: Sessions, a: Uuid)
    ensures Gathered(t, a, [], 1)
  {
  }

  /******* Which projections an insert makes stale *******/

  /** Session `x`'s projection loads the events of session `d`. */
  ghost predicate Reads(t: Sessions, x: Uuid, d: Uuid) {
    x == d || (x in t && d in t && Descends(t, d, x))
  }

  /** The sessions a projection loads events of: its own, then its descendants. */
  method ProjectionSources(t: Sessions, x: Uuid) returns (sources: seq<Uuid>)
    requires !Descends(t, x, x)
    ensures forall d :: d in sources <==> Reads(t, x, d)
    ensures !Repeats(sources)
  {
    hide Before, Up;
    var below := DescendantIds(t, x);
    sources := [x] + below;
    NoRepeatsJoined([x], below);
  }

  /**
   The projections rebuilt after an insert into `d`. For a Codex session these are,
   among sessions with a row, exactly the ones that read `d`, each once. A Claude
   insert rebuilds only its own.
   */
  method RebuildAfterInsert(t: Sessions, d: Uuid, codex: bool) returns (rebuilt: seq<Uuid>)
    requires d in t && (codex ==> WalkEnds(t, d))
    ensures !Repeats(rebuilt)
    ensures codex ==> forall x | x in t :: x in rebuilt <==> Reads(t, x, d)
    ensures codex ==> forall x :: Reads(t, x, d) ==> x in rebuilt
    ensures codex ==> forall x | x in rebuilt :: QueryEnds(t, x)
    ensures !codex ==> rebuilt == [d]
  {
    hide Up;
    rebuilt := [d];
    if codex {
      var chain := ParentChain(t, d);
      ChainHolds(t, d, chain);
      NoRepeatsJoined([d], chain);
      rebuilt := rebuilt + chain;
      RebuiltQueriesEnd(t, d, chain);
    }
  }

  /** Where the walk ends, so does the query of every session it meets. */
  lemma RebuiltQueriesEnd(t: Sessions, d: Uuid, chain: seq<Uuid>)
    requires WalkEnds(t, d) && IsChain(t, d, chain)
    ensures forall x | x in [d] + chain :: QueryEnds(t, x)
  {
    hide QueryEnds;
    forall x | x in [d] + chain ensures QueryEnds(t, x) {
      var i :| 0 <= i < |[d] + chain| && ([d] + chain)[i] == x;
      assert Up(t, d, i) == Some(x);
      EndedWalkHasNoCycle(t, d, i, x);
      QueryEndsExactly(t, x);
    }
  }

  /** Rebuilding `d` alone reaches every reader exactly when no ancestor of `d` has a row. */
  lemma ClaudeRebuildSuffices(t: Sessions, d: Uuid)
    requires d in t && WalkEnds(t, d)
    ensures (forall x | Reads(t, x, d) :: x in [d]) <==> (Parent(t, d).None? || Parent(t, d).value !in t)
  {
    if Parent(t, d).Some? {
      var p := Parent(t, d).value;
      assert Up(t, d, 1) == Some(p);
      EndedWalkHasNoCycle(t, d, 0, d);
      assert IsUp(t, d, 1, p);
      if p in t {
        assert Reads(t, p, d) && p != d;
      } else {
        forall x | Reads(t, x, d) ensures x == d {
          if x != d {
            var n: nat :| n > 0 && IsUp(t, d, n, x);
            UpAdds(t, d, 1, n - 1);
            UpInTable(t, p, n - 1, x);
          }
        }
      }
    } else {
      forall x | Reads(t, x, d) ensures x == d {
        if x != d {
          var n: nat :| n > 0 && IsUp(t, d, n, x);
          assert Up(t, d, 1) == Parent(t, d);
          GoneStaysGone(t, d, 1, n);
        }
      }
    }
  }
}
