/**
 The events a session's timeline is built from: its own, and those parts of its
 descendants' events that hang off the point where the descendant was spawned.
 */
module ProjectionSource {
  import opened Wrappers
  import opened Ordering
  import opened Picking
  import opened CodexContext
  import opened Lineage

  datatype Event = Event(
    at: nat, stamp: int, uuid: Option<string>, parent: Option<string>, isSidechain: bool, rest: string)

  /******* The fixpoint over one descendant's events *******/

  function Ids(events: seq<Event>): set<string> { set e | e in events && e.uuid.Some? :: e.uuid.value }

  /** Events hanging directly off the spawned session, unless the caller has them already. */
  function Seeds(events: seq<Event>, known: set<string>, d: Uuid): set<string> {
    set e | e in events && e.isSidechain && e.parent == Some(d) && e.uuid.Some? && e.uuid.value !in known :: e.uuid.value
  }

  ghost predicate Linked(events: seq<Event>, parent: string, child: string) {
    exists e :: e in events && e.parent == Some(parent) && e.uuid == Some(child)
  }

  /** A chain of parent links, each an event, from a seed. */
  ghost predicate IsPath(events: seq<Event>, seeds: set<string>, path: seq<string>) {
    && path != [] && path[0] in seeds
    && forall i | 0 < i < |path| :: Linked(events, path[i - 1], path[i])
  }

  ghost predicate Reachable(events: seq<Event>, seeds: set<string>, id: string) {
    exists path :: IsPath(events, seeds, path) && path[|path| - 1] == id
  }

  ghost predicate IsReach(events: seq<Event>, seeds: set<string>, ids: set<string>) {
    forall id :: id in ids <==> Reachable(events, seeds, id)
  }

  predicate Closed(events: seq<Event>, ids: set<string>) {
    forall e | e in events && e.parent.Some? && e.uuid.Some? && e.parent.value in ids :: e.uuid.value in ids
  }

  predicate Kept(e: Event, ids: set<string>) {
    (e.uuid.Some? && e.uuid.value in ids) || (e.parent.Some? && e.parent.value in ids)
  }

  /** The events that pass, in order. */
  function Keep(events: seq<Event>, ids: set<string>): seq<Event> {
    if events == [] then []
    else
      var last := events[|events| - 1];
      Keep(events[..|events| - 1], ids) + if Kept(last, ids) then [last] else []
  }

  lemma {:induction false} PathInside(events: seq<Event>, seeds: set<string>, ids: set<string>, path: seq<string>, i: nat)
    requires seeds <= ids && Closed(events, ids) && IsPath(events, seeds, path) && i < |path|
    ensures path[i] in ids
  {
    if i > 0 {
      PathInside(events, seeds, ids, path, i - 1);
      assert Linked(events, path[i - 1], path[i]);
    }
  }

  /** What is reachable is the least closed set that holds the seeds. */
  lemma ReachIsLeast(events: seq<Event>, seeds: set<string>, ids: set<string>)
    requires IsReach(events, seeds, ids)
    ensures seeds <= ids && Closed(events, ids)
    ensures forall other | seeds <= other && Closed(events, other) :: ids <= other
  {
    forall id | id in seeds ensures id in ids {
      assert IsPath(events, seeds, [id]);
    }
    forall e | e in events && e.parent.Some? && e.uuid.Some? && e.parent.value in ids ensures e.uuid.value in ids {
      ReachStep(events, seeds, e);
    }
    forall other, id | seeds <= other && Closed(events, other) && id in ids ensures id in other {
      var path :| IsPath(events, seeds, path) && path[|path| - 1] == id;
      PathInside(events, seeds, other, path, |path| - 1);
    }
  }

  lemma ReachStep(events: seq<Event>, seeds: set<string>, e: Event)
    requires e in events && e.parent.Some? && e.uuid.Some? && Reachable(events, seeds, e.parent.value)
    ensures Reachable(events, seeds, e.uuid.value)
  {
    var path :| IsPath(events, seeds, path) && path[|path| - 1] == e.parent.value;
    var longer := path + [e.uuid.value];
    forall i | 0 < i < |longer| ensures Linked(events, longer[i - 1], longer[i]) {
      if i < |path| {
        assert Linked(events, path[i - 1], path[i]);
      }
    }
    assert IsPath(events, seeds, longer);
  }

  lemma ClosedIsReach(events: seq<Event>, seeds: set<string>, ids: set<string>)
    requires seeds <= ids && Closed(events, ids) && forall id | id in ids :: Reachable(events, seeds, id)
    ensures IsReach(events, seeds, ids)
  {
    forall id | Reachable(events, seeds, id) ensures id in ids {
      var path :| IsPath(events, seeds, path) && path[|path| - 1] == id;
      PathInside(events, seeds, ids, path, |path| - 1);
    }
  }

  lemma SeedsReachable(events: seq<Event>, seeds: set<string>)
    ensures forall id | id in seeds :: Reachable(events, seeds, id)
  {
    forall id | id in seeds ensures Reachable(events, seeds, id) {
      assert IsPath(events, seeds, [id]);
    }
  }

  /** The loop that adds ids until a pass adds none. */
  method GrowIncluded(events: seq<Event>, seeds: set<string>) returns (included: set<string>)
    requires seeds <= Ids(events)
    ensures IsReach(events, seeds, included)
  {
    hide Reachable;
    included := seeds;
    SeedsReachable(events, seeds);
    var changed := true;
    while changed
      invariant seeds <= included <= Ids(events)
      invariant forall id | id in included :: Reachable(events, seeds, id)
      invariant !changed ==> Closed(events, included)
      decreases Ids(events) - included, changed
    {
      changed := false;
      ghost var before := included;
      for i := 0 to |events|
        invariant before <= included <= Ids(events)
        invariant changed <==> included != before
        invariant !changed ==> forall e | e in events[..i] :: Closed([e], included)
        invariant forall id | id in included :: Reachable(events, seeds, id)
      {
        var e := events[i];
        assert events[..i + 1] == events[..i] + [e];
        if e.parent.Some? && e.parent.value in included && e.uuid.Some? {
          ReachStep(events, seeds, e);
          if e.uuid.value !in included {
            included := included + {e.uuid.value};
            changed := true;
          }
        }
      }
      if !changed {
        ClosedOneByOne(events, included);
      }
    }
    ClosedIsReach(events, seeds, included);
  }

  lemma ClosedOneByOne(events: seq<Event>, ids: set<string>)
    requires forall e | e in events[..|events|] :: Closed([e], ids)
    ensures Closed(events, ids)
  {
    assert events[..|events|] == events;
    forall e | e in events && e.parent.Some? && e.uuid.Some? && e.parent.value in ids ensures e.uuid.value in ids {
      assert Closed([e], ids) && e in [e];
    }
  }

  method CollectSeeds(events: seq<Event>, known: set<string>, d: Uuid) returns (seeds: set<string>)
    ensures seeds == Seeds(events, known, d)
  {
    seeds := {};
    for i := 0 to |events|
      invariant seeds == Seeds(events[..i], known, d)
    {
      var e := events[i];
      assert events[..i + 1] == events[..i] + [e];
      if e.isSidechain && e.parent == Some(d) && e.uuid.Some? && e.uuid.value !in known {
        seeds := seeds + {e.uuid.value};
      }
    }
    assert events[..|events|] == events;
  }

  lemma SeedsAreIds(events: seq<Event>, known: set<string>, d: Uuid)
    ensures Seeds(events, known, d) <= Ids(events)
  {
  }

  /******* What passes the filter *******/

  /** The event hangs directly off the spawned session `d`, on a sidechain, and its id `x` is not known yet. */
  predicate HangsOff(e: Event, known: set<string>, d: Uuid, x: string) {
    e.isSidechain && e.parent == Some(d) && e.uuid == Some(x) && x !in known
  }

  /** Ids from an event that hangs off `d`, each the parent of the next. */
  ghost predicate Chained(events: seq<Event>, known: set<string>, d: Uuid, path: seq<string>) {
    && path != [] && (exists e :: e in events && HangsOff(e, known, d, path[0]))
    && forall i | 0 < i < |path| :: Linked(events, path[i - 1], path[i])
  }

  ghost predicate OnChain(events: seq<Event>, known: set<string>, d: Uuid, x: string) {
    exists path :: Chained(events, known, d, path) && path[|path| - 1] == x
  }

  /** The event's own id, or the id of its parent, is on a chain. */
  ghost predicate Passes(events: seq<Event>, known: set<string>, d: Uuid, e: Event) {
    (e.uuid.Some? && OnChain(events, known, d, e.uuid.value)) || (e.parent.Some? && OnChain(events, known, d, e.parent.value))
  }

  lemma ChainIsPath(events: seq<Event>, known: set<string>, d: Uuid, path: seq<string>)
    ensures Chained(events, known, d, path) <==> IsPath(events, Seeds(events, known, d), path)
  {
    hide Linked;
    if path != [] && path[0] in Seeds(events, known, d) {
      var e :| e in events && e.isSidechain && e.parent == Some(d) && e.uuid.Some? && e.uuid.value !in known &&
               e.uuid.value == path[0];
      assert HangsOff(e, known, d, path[0]);
    }
  }

  lemma ChainsReach(events: seq<Event>, known: set<string>, d: Uuid, ids: set<string>)
    requires IsReach(events, Seeds(events, known, d), ids)
    ensures forall x :: x in ids <==> OnChain(events, known, d, x)
  {
    hide Seeds, Linked;
    forall x ensures Reachable(events, Seeds(events, known, d), x) <==> OnChain(events, known, d, x) {
      forall path ensures Chained(events, known, d, path) <==> IsPath(events, Seeds(events, known, d), path) {
        ChainIsPath(events, known, d, path);
      }
    }
  }

  /** What is kept of `events`, told by its positions: in order, and all that `Passes`. */
  ghost predicate KeptAt(events: seq<Event>, known: set<string>, d: Uuid, kept: seq<Event>, at: seq<nat>) {
    Picks(events, kept, at) && forall j: nat | j < |events| :: j in at <==> Passes(events, known, d, events[j])
  }

  lemma {:induction false} KeepPicks(events: seq<Event>, ids: set<string>) returns (at: seq<nat>)
    ensures Picks(events, Keep(events, ids), at)
    ensures forall j: nat | j < |events| :: j in at <==> Kept(events[j], ids)
  {
    hide Kept, Picks;
    if events == [] {
      PicksNothing(events);
      at := [];
    } else {
      var front, last := events[..|events| - 1], events[|events| - 1];
      at := KeepPicks(front, ids);
      assert events == front + [last];
      PicksNext(front, last, Keep(front, ids), at);
      at := if Kept(last, ids) then at + [|front|] else at;
      assert Keep(events, ids) == Keep(front, ids) + if Kept(last, ids) then [last] else [];
      assert Keep(front, ids) + [] == Keep(front, ids);
    }
  }

  /** The filter keeps, in order, exactly the events whose id or parent is on a chain from the spawned session. */
  lemma FilteredExactly(events: seq<Event>, known: set<string>, d: Uuid, kept: seq<Event>) returns (at: seq<nat>)
    requires IsFiltered(events, known, d, kept)
    ensures KeptAt(events, known, d, kept, at)
  {
    hide Keep, Picks, Seeds, Reachable, OnChain;
    var ids :| IsReach(events, Seeds(events, known, d), ids) && kept == Keep(events, ids);
    ChainsReach(events, known, d, ids);
    at := KeepPicks(events, ids);
    hide IsReach;
  }

  /** The part of a descendant's events that belongs under the session that spawned it. */
  method FilterDescendantEvents(events: seq<Event>, known: set<string>, d: Uuid) returns (kept: seq<Event>)
    ensures IsFiltered(events, known, d, kept)
    ensures exists at :: KeptAt(events, known, d, kept, at)
  {
    hide Seeds, Ids, IsReach, Kept, KeptAt;
    var seeds := CollectSeeds(events, known, d);
    SeedsAreIds(events, known, d);
    var included := GrowIncluded(events, seeds);
    kept := [];
    for i := 0 to |events|
      invariant kept == Keep(events[..i], included)
    {
      assert events[..i + 1][..i] == events[..i];
      if Kept(events[i], included) {
        kept := kept + [events[i]];
      }
    }
    assert events[..|events|] == events;
    ghost var at := FilteredExactly(events, known, d, kept);
  }

  ghost predicate IsFiltered(events: seq<Event>, known: set<string>, d: Uuid, kept: seq<Event>) {
    exists ids :: IsReach(events, Seeds(events, known, d), ids) && kept == Keep(events, ids)
  }

  /******* Filtering does not look at the order of events *******/

  function Count(events: seq<Event>, e: Event): nat {
    if events == [] then 0
    else Count(events[..|events| - 1], e) + if events[|events| - 1] == e then 1 else 0
  }

  lemma {:induction false} CountKeep(events: seq<Event>, ids: set<string>, e: Event)
    ensures Count(Keep(events, ids), e) == if Kept(e, ids) then Count(events, e) else 0
  {
    if events != [] {
      var last := events[|events| - 1];
      var front := Keep(events[..|events| - 1], ids);
      CountKeep(events[..|events| - 1], ids, e);
      assert (front + [last])[..|front|] == front;
      assert front + [] == front;
    }
  }

  lemma {:induction false} CountPositive(events: seq<Event>, e: Event)
    ensures e in events <==> Count(events, e) > 0
  {
    if events != [] {
      assert events == events[..|events| - 1] + [events[|events| - 1]];
      CountPositive(events[..|events| - 1], e);
    }
  }

  /** Whatever order the events come in, the same events pass, as often. */
  lemma FilterIgnoresOrder(
    a: seq<Event>, b: seq<Event>, known: set<string>, d: Uuid, keptA: seq<Event>, keptB: seq<Event>)
    requires forall e :: Count(a, e) == Count(b, e)
    requires IsFiltered(a, known, d, keptA) && IsFiltered(b, known, d, keptB)
    ensures forall e :: Count(keptA, e) == Count(keptB, e)
  {
    hide Count, IsReach, Keep, Seeds;
    forall e ensures e in a <==> e in b {
      CountPositive(a, e);
      CountPositive(b, e);
    }
    SameSeeds(a, b, known, d);
    var seeds := Seeds(a, known, d);
    var idsA :| IsReach(a, seeds, idsA) && keptA == Keep(a, idsA);
    var idsB :| IsReach(b, seeds, idsB) && keptB == Keep(b, idsB);
    SameReach(a, b, seeds, idsA, idsB);
    forall e ensures Count(keptA, e) == Count(keptB, e) {
      CountKeep(a, idsA, e);
      CountKeep(b, idsB, e);
    }
  }

  lemma SameSeeds(a: seq<Event>, b: seq<Event>, known: set<string>, d: Uuid)
    requires forall e :: e in a <==> e in b
    ensures Seeds(a, known, d) == Seeds(b, known, d)
  {
  }

  lemma SameReach(a: seq<Event>, b: seq<Event>, seeds: set<string>, p: set<string>, q: set<string>)
    requires forall e :: e in a <==> e in b
    requires IsReach(a, seeds, p) && IsReach(b, seeds, q)
    ensures p == q
  {
    hide IsReach;
    ReachIsLeast(a, seeds, p);
    ReachIsLeast(b, seeds, q);
    assert Closed(a, q) && Closed(b, p);
  }

  /** A filtered list is determined by its inputs. */
  lemma FilteredUnique(events: seq<Event>, known: set<string>, d: Uuid, a: seq<Event>, b: seq<Event>)
    requires IsFiltered(events, known, d, a) && IsFiltered(events, known, d, b)
    ensures a == b
  {
    var seeds := Seeds(events, known, d);
    var idsA :| IsReach(events, seeds, idsA) && a == Keep(events, idsA);
    var idsB :| IsReach(events, seeds, idsB) && b == Keep(events, idsB);
    assert idsA == idsB;
  }

  /******* The whole source *******/

  predicate Earlier(a: Event, b: Event) { a.stamp < b.stamp || (a.stamp == b.stamp && a.at < b.at) }

  /** By timestamp, and by offset where timestamps are equal. */
  predicate InOrder(events: seq<Event>) {
    forall i, j | 0 <= i < j < |events| ::
      events[i].stamp < events[j].stamp || (events[i].stamp == events[j].stamp && events[i].at <= events[j].at)
  }

  /** The events with one sort key, in order. */
  function WithKey(events: seq<Event>, stamp: int, at: nat): seq<Event> {
    if events == [] then []
    else
      var last := events[|events| - 1];
      WithKey(events[..|events| - 1], stamp, at) + if last.stamp == stamp && last.at == at then [last] else []
  }

  /** A stable sort: in order, and events with equal keys keep the order they came in. */
  ghost predicate IsStableSort(events: seq<Event>, sorted: seq<Event>) {
    InOrder(sorted) && forall stamp, at :: WithKey(sorted, stamp, at) == WithKey(events, stamp, at)
  }

  lemma {:induction false} WithKeyConcat(a: seq<Event>, b: seq<Event>, stamp: int, at: nat)
    ensures WithKey(a + b, stamp, at) == WithKey(a, stamp, at) + WithKey(b, stamp, at)
  {
    if b == [] {
      assert a + b == a;
    } else {
      assert (a + b)[..|a| + |b| - 1] == a + b[..|b| - 1];
      WithKeyConcat(a, b[..|b| - 1], stamp, at);
    }
  }

  lemma {:induction false} NoneWithKey(events: seq<Event>, stamp: int, at: nat)
    requires forall e | e in events :: e.stamp != stamp || e.at != at
    ensures WithKey(events, stamp, at) == []
  {
    if events != [] {
      var front := events[..|events| - 1];
      assert forall e | e in front :: e in events;
      assert events[|events| - 1] in events;
      NoneWithKey(front, stamp, at);
    }
  }

  lemma LaterHasNot(events: seq<Event>, e: Event)
    requires forall j | 0 <= j < |events| :: Earlier(e, events[j])
    ensures WithKey(events, e.stamp, e.at) == []
  {
    NoneWithKey(events, e.stamp, e.at);
  }

  lemma Inserted(sorted: seq<Event>, i: nat, e: Event, stamp: int, at: nat)
    requires i <= |sorted| && forall j | i <= j < |sorted| :: Earlier(e, sorted[j])
    ensures WithKey(sorted[..i] + [e] + sorted[i..], stamp, at) == WithKey(sorted + [e], stamp, at)
  {
    hide Earlier;
    assert sorted[..i] + sorted[i..] == sorted;
    WithKeyConcat(sorted[..i] + [e], sorted[i..], stamp, at);
    WithKeyConcat(sorted[..i], [e], stamp, at);
    WithKeyConcat(sorted[..i] + sorted[i..], [e], stamp, at);
    WithKeyConcat(sorted[..i], sorted[i..], stamp, at);
    if e.stamp == stamp && e.at == at {
      LaterHasNot(sorted[i..], e);
    } else {
      NoneWithKey([e], stamp, at);
    }
  }

  lemma HasKey(events: seq<Event>, stamp: int, at: nat)
    requires WithKey(events, stamp, at) != []
    ensures exists e :: e in events && e.stamp == stamp && e.at == at
  {
    if forall e | e in events :: e.stamp != stamp || e.at != at {
      NoneWithKey(events, stamp, at);
    }
  }

  lemma LastIsLatest(a: seq<Event>, b: seq<Event>)
    requires InOrder(a) && InOrder(b) && a != []
    requires forall stamp, at :: WithKey(a, stamp, at) == WithKey(b, stamp, at)
    ensures b != [] && !Earlier(b[|b| - 1], a[|a| - 1])
  {
    var last := a[|a| - 1];
    assert WithKey(a, last.stamp, last.at) != [];
    HasKey(b, last.stamp, last.at);
    var e :| e in b && e.stamp == last.stamp && e.at == last.at;
    var i :| 0 <= i < |b| && b[i] == e;
    assert i < |b| - 1 ==> !Earlier(b[|b| - 1], b[i]);
  }

  lemma WithoutLast(events: seq<Event>, stamp: int, at: nat)
    requires events != []
    ensures var last := events[|events| - 1];
      WithKey(events, stamp, at) ==
      WithKey(events[..|events| - 1], stamp, at) + if last.stamp == stamp && last.at == at then [last] else []
  {
  }

  lemma SameFront(p: seq<Event>, q: seq<Event>, end: seq<Event>)
    ensures p + end == q + end ==> p == q
  {
    if p + end == q + end {
      assert (p + end)[..|p|] == p && (q + end)[..|q|] == q;
    }
  }

  /** There is one stable sort of a list. */
  lemma {:induction false} StableSortUnique(a: seq<Event>, b: seq<Event>)
    requires InOrder(a) && InOrder(b)
    requires forall stamp, at :: WithKey(a, stamp, at) == WithKey(b, stamp, at)
    ensures a == b
  {
    if a == [] {
      if b != [] {
        LastIsLatest(b, a);
      }
    } else {
      LastIsLatest(a, b);
      LastIsLatest(b, a);
      var x, y := a[|a| - 1], b[|b| - 1];
      assert WithKey(a, x.stamp, x.at)[|WithKey(a, x.stamp, x.at)| - 1] == x;
      assert WithKey(b, x.stamp, x.at)[|WithKey(b, x.stamp, x.at)| - 1] == y;
      var front, back := a[..|a| - 1], b[..|b| - 1];
      forall stamp, at ensures WithKey(front, stamp, at) == WithKey(back, stamp, at) {
        WithoutLast(a, stamp, at);
        WithoutLast(b, stamp, at);
        SameFront(WithKey(front, stamp, at), WithKey(back, stamp, at),
                  if x.stamp == stamp && x.at == at then [x] else []);
      }
      StableSortUnique(a[..|a| - 1], b[..|b| - 1]);
      assert a == a[..|a| - 1] + [x] && b == b[..|b| - 1] + [y];
    }
  }

  method SortEvents(events: seq<Event>) returns (sorted: seq<Event>)
    ensures IsStableSort(events, sorted)
  {
    sorted := [];
    hide WithKey;
    for n := 0 to |events|
      invariant IsStableSort(events[..n], sorted)
    {
      var e, i := events[n], |sorted|;
      while i > 0 && Earlier(e, sorted[i - 1])
        invariant 0 <= i <= |sorted| && forall j | i <= j < |sorted| :: Earlier(e, sorted[j])
      {
        i := i - 1;
      }
      assert events[..n + 1] == events[..n] + [e];
      forall stamp, at
        ensures WithKey(sorted[..i] + [e] + sorted[i..], stamp, at) == WithKey(events[..n] + [e], stamp, at)
      {
        Inserted(sorted, i, e, stamp, at);
        WithKeyConcat(sorted, [e], stamp, at);
        WithKeyConcat(events[..n], [e], stamp, at);
      }
      sorted := sorted[..i] + [e] + sorted[i..];
    }
    assert events[..|events|] == events;
  }

  function EventsOf(tables: map<Uuid, seq<Event>>, u: Uuid): seq<Event> { if u in tables then tables[u] else [] }

  /** The root's events, then what passes of each listed descendant's, given all ids before it. */
  ghost predicate IsGathered(tables: map<Uuid, seq<Event>>, root: Uuid, ids: seq<Uuid>, events: seq<Event>)
    decreases |ids|
  {
    if ids == [] then events == EventsOf(tables, root)
    else
      var last := ids[|ids| - 1];
      exists before, kept ::
        && IsGathered(tables, root, ids[..|ids| - 1], before)
        && IsFiltered(EventsOf(tables, last), Ids(before), last, kept)
        && events == before + kept
  }

  ghost predicate IsSource(t: Sessions, tables: map<Uuid, seq<Event>>, root: Uuid, events: seq<Event>) {
    exists ids, gathered ::
      AreDescendants(t, root, ids) && IsGathered(tables, root, ids, gathered) && IsStableSort(gathered, events)
  }

  /******* The source, part by part *******/

  /** All parts, one after the other. */
  function Flat(parts: seq<seq<Event>>): seq<Event> {
    if parts == [] then [] else Flat(parts[..|parts| - 1]) + parts[|parts| - 1]
  }

  /** The ids that events in the parts have. */
  ghost predicate KnownIn(parts: seq<seq<Event>>, x: string) {
    exists i, e :: 0 <= i < |parts| && e in parts[i] && e.uuid == Some(x)
  }

  /** A part is what passes of `own`, the events of `d`, given the ids of all parts before it. */
  ghost predicate IsPart(own: seq<Event>, d: Uuid, before: seq<seq<Event>>, part: seq<Event>) {
    exists known, at :: (forall x :: x in known <==> KnownIn(before, x)) && KeptAt(own, known, d, part, at)
  }

  /** The root's own events, and a part for each listed descendant. A session without a table has no events. */
  ghost predicate AreParts(tables: map<Uuid, seq<Event>>, root: Uuid, ids: seq<Uuid>, parts: seq<seq<Event>>) {
    && |parts| == |ids| + 1
    && (root in tables ==> parts[0] == tables[root]) && (root !in tables ==> parts[0] == [])
    && forall i | 0 <= i < |ids| ::
         && (ids[i] in tables ==> IsPart(tables[ids[i]], ids[i], parts[..i + 1], parts[i + 1]))
         && (ids[i] !in tables ==> parts[i + 1] == [])
  }

  lemma {:induction false} FlatHolds(parts: seq<seq<Event>>, e: Event)
    ensures e in Flat(parts) <==> exists i :: 0 <= i < |parts| && e in parts[i]
  {
    if parts != [] {
      var front := parts[..|parts| - 1];
      FlatHolds(front, e);
      if exists i :: 0 <= i < |parts| && e in parts[i] {
        var i :| 0 <= i < |parts| && e in parts[i];
        assert i < |front| ==> front[i] == parts[i];
      }
      if e in Flat(front) {
        var i :| 0 <= i < |front| && e in front[i];
        assert e in parts[i];
      }
    }
  }

  lemma KnownAreIds(parts: seq<seq<Event>>)
    ensures forall x :: x in Ids(Flat(parts)) <==> KnownIn(parts, x)
  {
    hide Flat;
    forall x ensures x in Ids(Flat(parts)) <==> KnownIn(parts, x) {
      if x in Ids(Flat(parts)) {
        var e :| e in Flat(parts) && e.uuid == Some(x);
        FlatHolds(parts, e);
        var i :| 0 <= i < |parts| && e in parts[i];
        assert e in parts[i] && e.uuid == Some(x);
      }
      if KnownIn(parts, x) {
        var i, e :| 0 <= i < |parts| && e in parts[i] && e.uuid == Some(x);
        FlatHolds(parts, e);
      }
    }
  }

  lemma FilteredIsPart(own: seq<Event>, d: Uuid, before: seq<seq<Event>>, part: seq<Event>)
    requires IsFiltered(own, Ids(Flat(before)), d, part)
    ensures IsPart(own, d, before, part)
    ensures own == [] ==> part == []
  {
    hide KeptAt, Flat, Ids, KnownIn;
    var known := Ids(Flat(before));
    KnownAreIds(before);
    var at := FilteredExactly(own, known, d, part);
    assert own == [] ==> part == [];
    assert IsPart(own, d, before, part);
  }

  lemma {:induction false} GatheredIsParts(tables: map<Uuid, seq<Event>>, root: Uuid, ids: seq<Uuid>, events: seq<Event>)
    returns (parts: seq<seq<Event>>)
    requires IsGathered(tables, root, ids, events)
    ensures AreParts(tables, root, ids, parts) && Flat(parts) == events
  {
    hide IsFiltered, IsPart;
    if ids == [] {
      parts := [events];
      assert parts[..0] == [];
    } else {
      var front, last := ids[..|ids| - 1], ids[|ids| - 1];
      var before, kept :| IsGathered(tables, root, front, before) &&
                          IsFiltered(EventsOf(tables, last), Ids(before), last, kept) && events == before + kept;
      var earlier := GatheredIsParts(tables, root, front, before);
      FilteredIsPart(EventsOf(tables, last), last, earlier, kept);
      parts := earlier + [kept];
      assert parts[..|parts| - 1] == earlier;
      forall i | 0 <= i < |ids|
        ensures ids[i] in tables ==> IsPart(tables[ids[i]], ids[i], parts[..i + 1], parts[i + 1])
        ensures ids[i] !in tables ==> parts[i + 1] == []
      {
        if i < |front| {
          assert front[i] == ids[i] && parts[..i + 1] == earlier[..i + 1];
        } else {
          assert parts[..i + 1] == earlier;
        }
      }
    }
  }

  /**
   The source, told by parts: the root's own events, then of every descendant, by depth and
   id, the events on a chain from where it was spawned, unless an earlier part has the id;
   all of them sorted, and nothing else.
   */
  lemma SourceExactly(t: Sessions, tables: map<Uuid, seq<Event>>, root: Uuid, events: seq<Event>)
    returns (ids: seq<Uuid>, parts: seq<seq<Event>>)
    requires IsSource(t, tables, root, events)
    ensures AreDescendants(t, root, ids) && AreParts(tables, root, ids, parts) && IsStableSort(Flat(parts), events)
  {
    hide AreDescendants, IsGathered, IsStableSort, AreParts;
    var gathered;
    ids, gathered :| AreDescendants(t, root, ids) && IsGathered(tables, root, ids, gathered) &&
                     IsStableSort(gathered, events);
    parts := GatheredIsParts(tables, root, ids, gathered);
  }

  lemma GatheredNextSession(
    tables: map<Uuid, seq<Event>>, root: Uuid, ids: seq<Uuid>, i: nat, before: seq<Event>, kept: seq<Event>)
    requires i < |ids| && IsGathered(tables, root, ids[..i], before)
    requires IsFiltered(EventsOf(tables, ids[i]), Ids(before), ids[i], kept)
    ensures IsGathered(tables, root, ids[..i + 1], before + kept)
  {
    hide IsFiltered;
    assert ids[..i + 1][..i] == ids[..i];
  }

  method LoadProjectionSourceEvents(t: Sessions, tables: map<Uuid, seq<Event>>, root: Uuid) returns (events: seq<Event>)
    requires !Descends(t, root, root)
    ensures IsSource(t, tables, root, events)
  {
    hide IsFiltered, AreDescendants, IsStableSort, Descends, IsGathered;
    events := EventsOf(tables, root);
    var known := Ids(events);
    var ids := DescendantIds(t, root);
    GatheredRoot(tables, root, ids[..0]);
    for i := 0 to |ids|
      invariant known == Ids(events) && IsGathered(tables, root, ids[..i], events)
    {
      var kept := FilterDescendantEvents(EventsOf(tables, ids[i]), known, ids[i]);
      GatheredNextSession(tables, root, ids, i, events, kept);
      known := known + Ids(kept);
      events := events + kept;
    }
    assert ids[..|ids|] == ids;
    events := SortEvents(events);
  }

  lemma GatheredRoot(tables: map<Uuid, seq<Event>>, root: Uuid, ids: seq<Uuid>)
    requires ids == []
    ensures IsGathered(tables, root, ids, EventsOf(tables, root))
  {
  }

  lemma {:induction false} GatheredElsewhere(
    a: map<Uuid, seq<Event>>, b: map<Uuid, seq<Event>>, root: Uuid, ids: seq<Uuid>, events: seq<Event>)
    requires EventsOf(a, root) == EventsOf(b, root) && forall u | u in ids :: EventsOf(a, u) == EventsOf(b, u)
    requires IsGathered(a, root, ids, events)
    ensures IsGathered(b, root, ids, events)
  {
    hide IsFiltered;
    if ids != [] {
      var front, last := ids[..|ids| - 1], ids[|ids| - 1];
      assert last in ids && forall u | u in front :: u in ids;
      var before, kept :| IsGathered(a, root, front, before) && IsFiltered(EventsOf(a, last), Ids(before), last, kept) &&
                          events == before + kept;
      GatheredElsewhere(a, b, root, front, before);
    }
  }

  lemma {:induction false} GatheredUnique(
    tables: map<Uuid, seq<Event>>, root: Uuid, ids: seq<Uuid>, a: seq<Event>, b: seq<Event>)
    requires IsGathered(tables, root, ids, a) && IsGathered(tables, root, ids, b)
    ensures a == b
  {
    hide IsFiltered;
    if ids != [] {
      var front, last := ids[..|ids| - 1], ids[|ids| - 1];
      var x, p :| IsGathered(tables, root, front, x) && IsFiltered(EventsOf(tables, last), Ids(x), last, p) && a == x + p;
      var y, q :| IsGathered(tables, root, front, y) && IsFiltered(EventsOf(tables, last), Ids(y), last, q) && b == y + q;
      GatheredUnique(tables, root, front, x, y);
      FilteredUnique(EventsOf(tables, last), Ids(x), last, p, q);
    }
  }

  /** The source is a function of the tables. */
  lemma SourceUnique(
    t: Sessions, tables: map<Uuid, seq<Event>>, root: Uuid, a: seq<Event>, b: seq<Event>)
    requires !Descends(t, root, root) && IsSource(t, tables, root, a) && IsSource(t, tables, root, b)
    ensures a == b
  {
    hide IsGathered, AreDescendants, Descends;
    var p, x :| AreDescendants(t, root, p) && IsGathered(tables, root, p, x) && IsStableSort(x, a);
    var q, y :| AreDescendants(t, root, q) && IsGathered(tables, root, q, y) && IsStableSort(y, b);
    DescendantsUnique(t, root, p, q);
    GatheredUnique(tables, root, p, x, y);
    StableSortUnique(a, b);
  }

  /** A projection does not see what happens to a session it does not read. */
  lemma UnreadInsertInvisible(
    t: Sessions, tables: map<Uuid, seq<Event>>, root: Uuid, d: Uuid, rows: seq<Event>, was: seq<Event>, now: seq<Event>)
    requires !Descends(t, root, root) && !Reads(t, root, d)
    requires IsSource(t, tables, root, was) && IsSource(t, tables[d := rows], root, now)
    ensures was == now
  {
    hide IsGathered, IsStableSort, Sooner, Repeats;
    var ids, gathered :|
      AreDescendants(t, root, ids) && IsGathered(tables, root, ids, gathered) && IsStableSort(gathered, was);
    GatheredElsewhere(tables, tables[d := rows], root, ids, gathered);
    SourceUnique(t, tables[d := rows], root, was, now);
  }
}
