/**
 The file tree the frontend holds of one repository: listings arrive whenever their
 requests are answered, and an epoch keeps answers to outdated requests out.
 */
module TreeCache {
  import opened Wrappers
  import opened Ordering

  /** What a listing request asked for, and in which epoch. */
  datatype Request = Request(path: string, epoch: nat, showAll: bool)

  /** A listing, and the request it answers. */
  datatype Listing = Listing(request: nat, entries: seq<string>)

  /** A directory that is missing was not asked for; one that is None is loading. */
  datatype Tree = Tree(
    dirs: map<string, Option<Listing>>, epoch: nat, expanded: set<string>, collapsed: set<string>, showAll: bool)

  const NEW_TREE := Tree(map[], 0, {}, {}, false)

  /** `tree` is None until the repository is first used. `waiting` are the unanswered requests. */
  datatype State = State(tree: Option<Tree>, requests: seq<Request>, waiting: set<nat>)

  const START := State(None, [], {})

  datatype Action =
    | ToggleDir(path: string, currentlyExpanded: bool)
    | ExpandPath(dirs: seq<string>)
    | SetShowAll(value: bool, order: seq<string>)
    | LoadDir(path: string, force: bool)
    | Refresh(clear: bool, order: seq<string>)
    | Respond(request: nat, entries: seq<string>)
    | Fail(request: nat)

  function Current(st: State): Tree { st.tree.GetOr(NEW_TREE) }

  function WithTree(st: State, t: Tree): State { st.(tree := Some(t)) }

  /** One load: unless it is known already and not forced, the directory becomes loading and is asked for. */
  function Load(st: State, path: string, force: bool): State {
    var t := Current(st);
    if !force && path in t.dirs then WithTree(st, t)
    else
      State(Some(t.(dirs := t.dirs[path := None])),
            st.requests + [Request(path, t.epoch, t.showAll)],
            st.waiting + {|st.requests|})
  }

  function LoadEach(st: State, paths: seq<string>, force: bool): State {
    if paths == [] then st
    else Load(LoadEach(st, paths[..|paths| - 1], force), paths[|paths| - 1], force)
  }

  /** The root, the expanded directories, and all that are in the tree. */
  function Visible(t: Tree): set<string> { {""} + t.expanded + t.dirs.Keys }

  function Cleared(t: Tree): Tree { t.(dirs := map[], epoch := t.epoch + 1) }

  /** `order` lists the visible directories in the order they are asked for. */
  function Apply(st: State, a: Action): State {
    match a
    case ToggleDir(path, currentlyExpanded) =>
      if st.tree.None? then st
      else
        var t := st.tree.value;
        WithTree(st, if currentlyExpanded
                     then t.(expanded := t.expanded - {path}, collapsed := t.collapsed + {path})
                     else t.(expanded := t.expanded + {path}, collapsed := t.collapsed - {path}))
    case ExpandPath(dirs) =>
      var t := Current(st);
      LoadEach(WithTree(st, t.(expanded := t.expanded + Members(dirs), collapsed := t.collapsed - Members(dirs))),
               [""] + dirs, false)
    case SetShowAll(value, order) =>
      var flagged := if st.tree.None? then st else WithTree(st, Cleared(st.tree.value).(showAll := value));
      if Members(order) == Visible(Current(flagged)) then LoadEach(flagged, order, true) else st
    case LoadDir(path, force) => Load(st, path, force)
    case Refresh(clear, order) =>
      if Members(order) != Visible(Current(st)) then st
      else LoadEach(if clear then WithTree(st, Cleared(Current(st))) else st, order, true)
    case Respond(r, entries) =>
      if r !in st.waiting || |st.requests| <= r then st
      else
        var done, t := st.(waiting := st.waiting - {r}), Current(st);
        if t.epoch != st.requests[r].epoch then done
        else WithTree(done, t.(dirs := t.dirs[st.requests[r].path := Some(Listing(r, entries))]))
    case Fail(r) => st.(waiting := st.waiting - {r})
  }

  function Run(st: State, schedule: seq<Action>): State {
    if schedule == [] then st else Apply(Run(st, schedule[..|schedule| - 1]), schedule[|schedule| - 1])
  }

  /** Every listing shown was asked for in the current epoch, for its directory, with the current flag. */
  ghost predicate NothingStale(st: State) {
    forall path | path in Current(st).dirs && Current(st).dirs[path].Some? ::
      var r := Current(st).dirs[path].value.request;
      r < |st.requests| && st.requests[r] == Request(path, Current(st).epoch, Current(st).showAll)
  }

  /** Requests of the current epoch carry the current flag. */
  ghost predicate FlagIsOfEpoch(st: State) {
    && (forall r | r in st.requests :: r.epoch <= Current(st).epoch)
    && (forall r | r in st.requests && r.epoch == Current(st).epoch :: r.showAll == Current(st).showAll)
    && (forall r | r in st.waiting :: r < |st.requests|)
  }

  ghost predicate Awaited(st: State, path: string) {
    exists r :: r in st.waiting && r < |st.requests| && st.requests[r].path == path && st.requests[r].epoch == Current(st).epoch
  }

  /** Every loading directory has a request of the current epoch under way. */
  ghost predicate LoadingIsAwaited(st: State) {
    forall path | path in Current(st).dirs && Current(st).dirs[path].None? :: Awaited(st, path)
  }

  /******* One load *******/

  lemma LoadKeeps(st: State, path: string, force: bool)
    requires NothingStale(st) && FlagIsOfEpoch(st)
    ensures var after := Load(st, path, force);
      && NothingStale(after) && FlagIsOfEpoch(after)
      && Current(after).epoch == Current(st).epoch && Current(after).showAll == Current(st).showAll
      && (LoadingIsAwaited(st) ==> LoadingIsAwaited(after))
  {
    hide Awaited;
    var after, t := Load(st, path, force), Current(st);
    if force || path !in t.dirs {
      assert after.requests[|st.requests|] == Request(path, t.epoch, t.showAll);
      forall r | r in after.requests ensures r in st.requests || r == Request(path, t.epoch, t.showAll) {
      }
      if LoadingIsAwaited(st) {
        forall p | p in Current(after).dirs && Current(after).dirs[p].None? ensures Awaited(after, p) {
          AwaitedAfterLoad(st, path, force, p);
        }
      }
    }
  }

  lemma AwaitedAfterLoad(st: State, path: string, force: bool, p: string)
    requires force || path !in Current(st).dirs
    requires p != path ==> Awaited(st, p)
    ensures Awaited(Load(st, path, force), p)
  {
    var after := Load(st, path, force);
    if p == path {
      var r := |st.requests|;
      assert r in after.waiting && after.requests[r].path == p;
    } else {
      var r :| r in st.waiting && r < |st.requests| && st.requests[r].path == p && st.requests[r].epoch == Current(st).epoch;
      assert r in after.waiting && after.requests[r] == st.requests[r];
    }
  }

  ghost predicate Sound(st: State) { NothingStale(st) && FlagIsOfEpoch(st) }

  lemma {:induction false} LoadEachKeeps(st: State, paths: seq<string>, force: bool)
    requires Sound(st)
    ensures Sound(LoadEach(st, paths, force))
    ensures LoadingIsAwaited(st) ==> LoadingIsAwaited(LoadEach(st, paths, force))
  {
    hide Load, NothingStale, FlagIsOfEpoch, LoadingIsAwaited;
    if paths != [] {
      LoadEachKeeps(st, paths[..|paths| - 1], force);
      LoadKeeps(LoadEach(st, paths[..|paths| - 1], force), paths[|paths| - 1], force);
    }
  }

  lemma ClearedIsSound(st: State, showAll: bool)
    requires FlagIsOfEpoch(st)
    ensures var after := WithTree(st, Cleared(Current(st)).(showAll := showAll)); Sound(after) && LoadingIsAwaited(after)
  {
  }

  lemma ExpandedIsSound(st: State, expanded: set<string>, collapsed: set<string>)
    requires Sound(st)
    ensures var after := WithTree(st, Current(st).(expanded := expanded, collapsed := collapsed));
      Sound(after) && (LoadingIsAwaited(st) ==> LoadingIsAwaited(after))
  {
    hide Awaited;
    var after := WithTree(st, Current(st).(expanded := expanded, collapsed := collapsed));
    forall p ensures Awaited(st, p) <==> Awaited(after, p) {
      SameAwaited(st, after, p);
    }
  }

  lemma SameAwaited(a: State, b: State, p: string)
    requires a.waiting == b.waiting && a.requests == b.requests && Current(a).epoch == Current(b).epoch
    ensures Awaited(a, p) <==> Awaited(b, p)
  {
  }

  lemma ResponseKeeps(st: State, r: nat, entries: seq<string>)
    requires Sound(st)
    ensures Sound(Apply(st, Respond(r, entries)))
    ensures LoadingIsAwaited(st) ==> LoadingIsAwaited(Apply(st, Respond(r, entries)))
  {
    hide Awaited;
    var after := Apply(st, Respond(r, entries));
    if r in st.waiting {
      assert st.requests[r] in st.requests;
      if LoadingIsAwaited(st) {
        forall p | p in Current(after).dirs && Current(after).dirs[p].None? ensures Awaited(after, p) {
          StillAwaited(st, r, entries, p);
        }
      }
    }
  }

  /** An answer ends the wait of no other directory, and of its own only by filling it. */
  lemma StillAwaited(st: State, r: nat, entries: seq<string>, p: string)
    requires r in st.waiting && r < |st.requests| && Awaited(st, p)
    requires p in Current(Apply(st, Respond(r, entries))).dirs && Current(Apply(st, Respond(r, entries))).dirs[p].None?
    ensures Awaited(Apply(st, Respond(r, entries)), p)
  {
    var after := Apply(st, Respond(r, entries));
    var q :| q in st.waiting && q < |st.requests| && st.requests[q].path == p && st.requests[q].epoch == Current(st).epoch;
    assert q in after.waiting && after.requests[q] == st.requests[q];
  }

  lemma FailureKeeps(st: State, r: nat)
    requires Sound(st)
    ensures Sound(Apply(st, Fail(r)))
  {
    var after := Apply(st, Fail(r));
    assert Current(after) == Current(st) && after.requests == st.requests;
  }

  lemma StepKeeps(st: State, a: Action)
    requires Sound(st)
    ensures Sound(Apply(st, a))
    ensures LoadingIsAwaited(st) && !a.Fail? ==> LoadingIsAwaited(Apply(st, a))
  {
    hide Load, LoadEach, Awaited;
    match a
    case ToggleDir(path, open) =>
      if st.tree.Some? {
        var t := st.tree.value;
        if open {
          ExpandedIsSound(st, t.expanded - {path}, t.collapsed + {path});
        } else {
          ExpandedIsSound(st, t.expanded + {path}, t.collapsed - {path});
        }
      }
    case ExpandPath(dirs) =>
      var t := Current(st);
      var unfolded := WithTree(st, t.(expanded := t.expanded + Members(dirs), collapsed := t.collapsed - Members(dirs)));
      ExpandedIsSound(st, t.expanded + Members(dirs), t.collapsed - Members(dirs));
      LoadEachKeeps(unfolded, [""] + dirs, false);
    case SetShowAll(value, order) =>
      if st.tree.Some? {
        ClearedIsSound(st, value);
        LoadEachKeeps(WithTree(st, Cleared(st.tree.value).(showAll := value)), order, true);
      } else {
        LoadEachKeeps(st, order, true);
      }
    case LoadDir(path, force) => LoadKeeps(st, path, force);
    case Refresh(clear, order) =>
      ClearedIsSound(st, Current(st).showAll);
      assert Cleared(Current(st)).(showAll := Current(st).showAll) == Cleared(Current(st));
      LoadEachKeeps(if clear then WithTree(st, Cleared(Current(st))) else st, order, true);
    case Respond(r, entries) => ResponseKeeps(st, r, entries);
    case Fail(r) => FailureKeeps(st, r);
  }

  lemma StartIsSound()
    ensures Sound(START) && LoadingIsAwaited(START)
  {
  }

  /** No stale listing, in every run of actions, answers and failures. */
  lemma {:induction false} NoStaleListing(schedule: seq<Action>)
    ensures NothingStale(Run(START, schedule)) && FlagIsOfEpoch(Run(START, schedule))
  {
    hide Apply, NothingStale, FlagIsOfEpoch;
    if schedule == [] {
      StartIsSound();
    } else {
      NoStaleListing(schedule[..|schedule| - 1]);
      StepKeeps(Run(START, schedule[..|schedule| - 1]), schedule[|schedule| - 1]);
    }
  }

  /******* Directories left loading *******/

  /** The failure of the one request that a loading directory still waits for. */
  ghost predicate Abandons(st: State, a: Action) {
    && a.Fail? && a.request in st.waiting && a.request < |st.requests|
    && var r := st.requests[a.request];
       && r.epoch == Current(st).epoch
       && r.path in Current(st).dirs && Current(st).dirs[r.path].None?
       && !exists q :: q in st.waiting && q != a.request && q < |st.requests| && st.requests[q] == r
  }

  /** Requests of the current epoch for one directory are alike. */
  lemma AwaitedBy(st: State, path: string)
    requires Sound(st)
    ensures Awaited(st, path) <==>
            exists q :: q in st.waiting && q < |st.requests| &&
                        st.requests[q] == Request(path, Current(st).epoch, Current(st).showAll)
  {
    if Awaited(st, path) {
      var q :| q in st.waiting && q < |st.requests| && st.requests[q].path == path &&
               st.requests[q].epoch == Current(st).epoch;
      assert st.requests[q] in st.requests;
    }
  }

  /** A step leaves a loading directory without a request exactly when it abandons one. */
  lemma LoadingAwaitedExactly(st: State, a: Action)
    requires Sound(st) && LoadingIsAwaited(st)
    ensures LoadingIsAwaited(Apply(st, a)) <==> !Abandons(st, a)
  {
    hide Apply, Awaited, NothingStale, FlagIsOfEpoch;
    if a.Fail? {
      FailureAbandonsExactly(st, a.request);
    } else {
      StepKeeps(st, a);
    }
  }

  lemma FailureAbandonsExactly(st: State, r: nat)
    requires Sound(st) && LoadingIsAwaited(st)
    ensures LoadingIsAwaited(Apply(st, Fail(r))) <==> !Abandons(st, Fail(r))
  {
    hide Awaited, NothingStale, FlagIsOfEpoch;
    var after := Apply(st, Fail(r));
    FailureKeeps(st, r);
    assert Current(after) == Current(st) && after.requests == st.requests;
    if Abandons(st, Fail(r)) {
      AbandonedIsForgotten(st, r);
    } else {
      forall p | p in Current(after).dirs && Current(after).dirs[p].None? ensures Awaited(after, p) {
        AwaitedBy(st, p);
        AwaitedBy(after, p);
        StillWaiting(st, r, p);
      }
    }
  }

  lemma AbandonedIsForgotten(st: State, r: nat)
    requires Sound(st) && Abandons(st, Fail(r))
    ensures !Awaited(Apply(st, Fail(r)), st.requests[r].path)
  {
    assert st.requests[r] in st.requests;
    FailureKeeps(st, r);
    AwaitedBy(Apply(st, Fail(r)), st.requests[r].path);
  }

  lemma StillWaiting(st: State, r: nat, p: string)
    requires Sound(st) && !Abandons(st, Fail(r)) && p in Current(st).dirs && Current(st).dirs[p].None?
    requires exists q :: q in st.waiting && q < |st.requests| &&
                         st.requests[q] == Request(p, Current(st).epoch, Current(st).showAll)
    ensures exists q :: q in st.waiting - {r} && q < |st.requests| &&
                        st.requests[q] == Request(p, Current(st).epoch, Current(st).showAll)
  {
    var q :| q in st.waiting && q < |st.requests| &&
             st.requests[q] == Request(p, Current(st).epoch, Current(st).showAll);
    if q == r {
      var k :| k in st.waiting && k != r && k < |st.requests| && st.requests[k] == st.requests[r];
      assert k in st.waiting - {r};
    } else {
      assert q in st.waiting - {r};
    }
  }

  /** In a run, every loading directory is awaited at every point exactly if no failure abandons one. */
  lemma RunAwaitsExactly(schedule: seq<Action>)
    ensures (forall n | 0 <= n <= |schedule| :: LoadingIsAwaited(Run(START, schedule[..n]))) <==>
            (forall n | 0 <= n < |schedule| :: !Abandons(Run(START, schedule[..n]), schedule[n]))
  {
    hide Apply, Abandons, LoadingIsAwaited, NothingStale, FlagIsOfEpoch;
    if forall n | 0 <= n < |schedule| :: !Abandons(Run(START, schedule[..n]), schedule[n]) {
      forall n | 0 <= n <= |schedule| ensures LoadingIsAwaited(Run(START, schedule[..n])) {
        AwaitedUpTo(schedule, n);
      }
    }
    if forall n | 0 <= n <= |schedule| :: LoadingIsAwaited(Run(START, schedule[..n])) {
      forall n | 0 <= n < |schedule| ensures !Abandons(Run(START, schedule[..n]), schedule[n]) {
        NoStaleListing(schedule[..n]);
        LoadingAwaitedExactly(Run(START, schedule[..n]), schedule[n]);
        assert schedule[..n + 1][..n] == schedule[..n];
        assert LoadingIsAwaited(Run(START, schedule[..n + 1]));
      }
    }
  }

  lemma {:induction false} AwaitedUpTo(schedule: seq<Action>, n: nat)
    requires n <= |schedule| && forall k | 0 <= k < n :: !Abandons(Run(START, schedule[..k]), schedule[k])
    ensures LoadingIsAwaited(Run(START, schedule[..n]))
  {
    hide Apply, Abandons, LoadingIsAwaited, NothingStale, FlagIsOfEpoch;
    if n == 0 {
      StartIsSound();
    } else {
      AwaitedUpTo(schedule, n - 1);
      NoStaleListing(schedule[..n - 1]);
      LoadingAwaitedExactly(Run(START, schedule[..n - 1]), schedule[n - 1]);
      assert schedule[..n][..n - 1] == schedule[..n - 1];
    }
  }

  lemma FailureFreeIsAwaited(schedule: seq<Action>)
    requires forall n | 0 <= n < |schedule| :: !schedule[n].Fail?
    ensures LoadingIsAwaited(Run(START, schedule))
  {
    hide Apply, LoadingIsAwaited, Run;
    assert schedule[..|schedule|] == schedule;
    AwaitedUpTo(schedule, |schedule|);
  }

  /** Such a failure happens: it leaves the directory loading, and a plain load does not ask again. */
  lemma FailureLeavesLoading(st: State, path: string)
    requires Sound(st)
    ensures var asked := Load(st, path, true);
      var failed := Apply(asked, Fail(|st.requests|));
      && path in Current(failed).dirs && Current(failed).dirs[path].None?
      && Apply(failed, LoadDir(path, false)) == failed
      && (!Awaited(st, path) <==> Abandons(asked, Fail(|st.requests|)))
      && (!Awaited(st, path) <==> !Awaited(failed, path))
  {
    var asked, r := Load(st, path, true), |st.requests|;
    var failed := Apply(asked, Fail(r));
    AwaitedBy(st, path);
    assert asked.requests[r] == Request(path, Current(st).epoch, Current(st).showAll);
    assert forall q | q in st.waiting :: q in asked.waiting && q in failed.waiting && asked.requests[q] == st.requests[q];
    assert forall q | q in failed.waiting :: q in st.waiting;
    if Awaited(st, path) {
      var q :| q in st.waiting && q < |st.requests| &&
               st.requests[q] == Request(path, Current(st).epoch, Current(st).showAll);
      assert q in failed.waiting && failed.requests[q].path == path;
    }
    if Awaited(failed, path) {
      var q :| q in failed.waiting && q < |failed.requests| && failed.requests[q].path == path &&
               failed.requests[q].epoch == Current(failed).epoch;
      assert st.requests[q] == failed.requests[q];
    }
  }

  /** A plain load does nothing exactly if the directory is known, loading or not. */
  lemma PlainLoadDoesNotAsk(st: State, path: string)
    ensures Apply(st, LoadDir(path, false)) == st <==> st.tree.Some? && path in Current(st).dirs
  {
    if st.tree.Some? && path in Current(st).dirs {
      assert Apply(st, LoadDir(path, false)) == st;
    }
  }

  /******* Which answer is shown *******/

  /** Request `q` came after `r`, for the same directory, in the current epoch. */
  predicate Supersedes(st: State, q: int, r: int) {
    0 <= r < q < |st.requests| && st.requests[q].path == st.requests[r].path && st.requests[q].epoch == Current(st).epoch
  }

  /** Every listing shown is the newest answer: all later requests for its directory still wait. */
  ghost predicate Newest(st: State) {
    forall path | path in Current(st).dirs && Current(st).dirs[path].Some? ::
      var r := Current(st).dirs[path].value.request;
      r < |st.requests| && forall q | Supersedes(st, q, r) :: q in st.waiting
  }

  /**
   The answer to a request that a later one has been settled before, or the failure of
   a later one than the listing shown answers.
   */
  ghost predicate Outdates(st: State, a: Action) {
    match a
    case Respond(r, _) =>
      && r in st.waiting && r < |st.requests| && st.requests[r].epoch == Current(st).epoch
      && exists q :: Supersedes(st, q, r) && q !in st.waiting
    case Fail(r) =>
      && r in st.waiting && r < |st.requests| && st.requests[r].path in Current(st).dirs
      && var shown := Current(st).dirs[st.requests[r].path];
         shown.Some? && shown.value.request < |st.requests| && Supersedes(st, r, shown.value.request)
    case _ => false
  }

  lemma LoadKeepsNewest(st: State, path: string, force: bool)
    requires Sound(st) && Newest(st)
    ensures Newest(Load(st, path, force))
  {
    var after, t := Load(st, path, force), Current(st);
    if force || path !in t.dirs {
      forall p | p in Current(after).dirs && Current(after).dirs[p].Some?
        ensures var r := Current(after).dirs[p].value.request;
          r < |after.requests| && forall q | Supersedes(after, q, r) :: q in after.waiting
      {
        var r := t.dirs[p].value.request;
        forall q | Supersedes(after, q, r) ensures q in after.waiting {
          if q < |st.requests| {
            assert Supersedes(st, q, r);
          }
        }
      }
    }
  }

  lemma {:induction false} LoadEachKeepsNewest(st: State, paths: seq<string>, force: bool)
    requires Sound(st) && Newest(st)
    ensures Newest(LoadEach(st, paths, force))
  {
    hide Load, NothingStale, FlagIsOfEpoch, Newest, LoadingIsAwaited;
    if paths != [] {
      var front := paths[..|paths| - 1];
      LoadEachKeepsNewest(st, front, force);
      LoadEachKeeps(st, front, force);
      LoadKeepsNewest(LoadEach(st, front, force), paths[|paths| - 1], force);
    }
  }

  lemma NewestUnfolded(st: State, expanded: set<string>, collapsed: set<string>)
    requires Newest(st)
    ensures Newest(WithTree(st, Current(st).(expanded := expanded, collapsed := collapsed)))
  {
    var after := WithTree(st, Current(st).(expanded := expanded, collapsed := collapsed));
    assert forall q, r | r < |st.requests| :: Supersedes(after, q, r) <==> Supersedes(st, q, r);
  }

  lemma NewestCleared(st: State, showAll: bool)
    ensures Newest(WithTree(st, Cleared(Current(st)).(showAll := showAll)))
  {
  }

  /** Every step but an answer or a failure. */
  lemma OthersKeepNewest(st: State, a: Action)
    requires Sound(st) && Newest(st) && !a.Respond? && !a.Fail?
    ensures Newest(Apply(st, a))
  {
    hide Load, LoadEach, Newest, NothingStale, FlagIsOfEpoch, LoadingIsAwaited;
    match a
    case ToggleDir(path, open) =>
      if st.tree.Some? {
        var t := st.tree.value;
        if open {
          NewestUnfolded(st, t.expanded - {path}, t.collapsed + {path});
        } else {
          NewestUnfolded(st, t.expanded + {path}, t.collapsed - {path});
        }
      }
    case ExpandPath(dirs) =>
      var t := Current(st);
      var unfolded := WithTree(st, t.(expanded := t.expanded + Members(dirs), collapsed := t.collapsed - Members(dirs)));
      NewestUnfolded(st, t.expanded + Members(dirs), t.collapsed - Members(dirs));
      ExpandedIsSound(st, t.expanded + Members(dirs), t.collapsed - Members(dirs));
      LoadEachKeepsNewest(unfolded, [""] + dirs, false);
    case SetShowAll(value, order) =>
      if st.tree.Some? {
        NewestCleared(st, value);
        ClearedIsSound(st, value);
        LoadEachKeepsNewest(WithTree(st, Cleared(st.tree.value).(showAll := value)), order, true);
      } else {
        LoadEachKeepsNewest(st, order, true);
      }
    case LoadDir(path, force) => LoadKeepsNewest(st, path, force);
    case Refresh(clear, order) =>
      NewestCleared(st, Current(st).showAll);
      ClearedIsSound(st, Current(st).showAll);
      assert Cleared(Current(st)).(showAll := Current(st).showAll) == Cleared(Current(st));
      LoadEachKeepsNewest(if clear then WithTree(st, Cleared(Current(st))) else st, order, true);
  }

  lemma AnswerNewestExactly(st: State, r: nat, entries: seq<string>)
    requires Sound(st) && Newest(st)
    ensures Newest(Apply(st, Respond(r, entries))) <==> !Outdates(st, Respond(r, entries))
  {
    var a := Respond(r, entries);
    var after := Apply(st, a);
    if r in st.waiting {
      assert after.requests == st.requests && Current(after).epoch == Current(st).epoch;
      assert forall q, k | k < |st.requests| :: Supersedes(after, q, k) <==> Supersedes(st, q, k);
      if st.requests[r].epoch == Current(st).epoch {
        var path := st.requests[r].path;
        assert Current(after).dirs[path] == Some(Listing(r, entries));
        if Outdates(st, a) {
          var q :| Supersedes(st, q, r) && q !in st.waiting;
          assert Supersedes(after, q, r) && q !in after.waiting;
        } else {
          forall p | p in Current(after).dirs && Current(after).dirs[p].Some?
            ensures forall q | Supersedes(after, q, Current(after).dirs[p].value.request) :: q in after.waiting
          {
            var k := Current(after).dirs[p].value.request;
            forall q | Supersedes(after, q, k) ensures q in after.waiting {
              assert Supersedes(st, q, k);
            }
          }
        }
      } else {
        forall p | p in Current(after).dirs && Current(after).dirs[p].Some?
          ensures forall q | Supersedes(after, q, Current(after).dirs[p].value.request) :: q in after.waiting
        {
          var k := Current(after).dirs[p].value.request;
          forall q | Supersedes(after, q, k) ensures q in after.waiting {
            assert Supersedes(st, q, k);
          }
        }
      }
    }
  }

  lemma FailureNewestExactly(st: State, r: nat)
    requires Sound(st) && Newest(st)
    ensures Newest(Apply(st, Fail(r))) <==> !Outdates(st, Fail(r))
  {
    var after := Apply(st, Fail(r));
    assert Current(after) == Current(st) && after.requests == st.requests;
    assert forall q, k | k < |st.requests| :: Supersedes(after, q, k) <==> Supersedes(st, q, k);
    if Outdates(st, Fail(r)) {
      var k := Current(st).dirs[st.requests[r].path].value.request;
      assert Supersedes(after, r, k) && r !in after.waiting;
    } else {
      forall p | p in Current(after).dirs && Current(after).dirs[p].Some?
        ensures forall q | Supersedes(after, q, Current(after).dirs[p].value.request) :: q in after.waiting
      {
        var k := Current(after).dirs[p].value.request;
        forall q | Supersedes(after, q, k) ensures q in after.waiting {
          assert Supersedes(st, q, k) && st.requests[k].path == p;
        }
      }
    }
  }

  /** A step puts an old answer in the place of a newer one exactly when it outdates. */
  lemma NewestExactly(st: State, a: Action)
    requires Sound(st) && Newest(st)
    ensures Newest(Apply(st, a)) <==> !Outdates(st, a)
  {
    hide Apply, Newest, NothingStale, FlagIsOfEpoch;
    match a
    case Respond(r, entries) => AnswerNewestExactly(st, r, entries);
    case Fail(r) => FailureNewestExactly(st, r);
    case _ => OthersKeepNewest(st, a);
  }

  /** In a run, the newest answer is shown at every point exactly if no step outdates it. */
  lemma RunShowsNewestExactly(schedule: seq<Action>)
    ensures (forall n | 0 <= n <= |schedule| :: Newest(Run(START, schedule[..n]))) <==>
            (forall n | 0 <= n < |schedule| :: !Outdates(Run(START, schedule[..n]), schedule[n]))
  {
    hide Apply, Outdates, Newest, NothingStale, FlagIsOfEpoch;
    if forall n | 0 <= n < |schedule| :: !Outdates(Run(START, schedule[..n]), schedule[n]) {
      forall n | 0 <= n <= |schedule| ensures Newest(Run(START, schedule[..n])) {
        NewestUpTo(schedule, n);
      }
    }
    if forall n | 0 <= n <= |schedule| :: Newest(Run(START, schedule[..n])) {
      forall n | 0 <= n < |schedule| ensures !Outdates(Run(START, schedule[..n]), schedule[n]) {
        NoStaleListing(schedule[..n]);
        NewestExactly(Run(START, schedule[..n]), schedule[n]);
        assert schedule[..n + 1][..n] == schedule[..n];
        assert Newest(Run(START, schedule[..n + 1]));
      }
    }
  }

  lemma {:induction false} NewestUpTo(schedule: seq<Action>, n: nat)
    requires n <= |schedule| && forall k | 0 <= k < n :: !Outdates(Run(START, schedule[..k]), schedule[k])
    ensures Newest(Run(START, schedule[..n]))
  {
    hide Apply, Outdates, NothingStale, FlagIsOfEpoch;
    if n > 0 {
      hide Newest;
      NewestUpTo(schedule, n - 1);
      NoStaleListing(schedule[..n - 1]);
      NewestExactly(Run(START, schedule[..n - 1]), schedule[n - 1]);
      assert schedule[..n][..n - 1] == schedule[..n - 1];
    }
  }

  predicate Settles(a: Action, q: nat) { (a.Respond? || a.Fail?) && a.request == q }

  lemma {:induction false} LoadEachAddsWaiting(st: State, paths: seq<string>, force: bool)
    ensures var after := LoadEach(st, paths, force);
      && |st.requests| <= |after.requests| && st.waiting <= after.waiting
      && forall q | |st.requests| <= q < |after.requests| :: q in after.waiting
  {
    if paths != [] {
      LoadEachAddsWaiting(st, paths[..|paths| - 1], force);
    }
  }

  /** A request stops waiting only when it is answered or fails. */
  lemma StepSettles(st: State, a: Action, q: nat)
    requires q < |Apply(st, a).requests| && q !in Apply(st, a).waiting
    ensures Settles(a, q) || (q < |st.requests| && q !in st.waiting)
  {
    hide LoadEach;
    match a
    case ExpandPath(dirs) =>
      var t := Current(st);
      LoadEachAddsWaiting(
        WithTree(st, t.(expanded := t.expanded + Members(dirs), collapsed := t.collapsed - Members(dirs))),
        [""] + dirs, false);
    case SetShowAll(value, order) =>
      LoadEachAddsWaiting(if st.tree.None? then st else WithTree(st, Cleared(st.tree.value).(showAll := value)), order, true);
    case Refresh(clear, order) =>
      LoadEachAddsWaiting(if clear then WithTree(st, Cleared(Current(st))) else st, order, true);
    case _ =>
  }

  lemma {:induction false} GoneWasSettled(schedule: seq<Action>, q: nat)
    requires q < |Run(START, schedule).requests| && q !in Run(START, schedule).waiting
    ensures exists n :: 0 <= n < |schedule| && Settles(schedule[n], q)
  {
    hide Apply, Settles;
    if schedule != [] {
      var front := schedule[..|schedule| - 1];
      StepSettles(Run(START, front), schedule[|schedule| - 1], q);
      if !Settles(schedule[|schedule| - 1], q) {
        GoneWasSettled(front, q);
        var n :| 0 <= n < |front| && Settles(front[n], q);
        assert schedule[n] == front[n];
      }
    }
  }

  /** Without failures, answers that come in the order of their requests always leave the newest shown. */
  lemma AnswersInOrderShowNewest(schedule: seq<Action>)
    requires forall n | 0 <= n < |schedule| :: !schedule[n].Fail?
    requires forall m, n | 0 <= m < n < |schedule| && schedule[m].Respond? && schedule[n].Respond? ::
               schedule[m].request <= schedule[n].request
    ensures Newest(Run(START, schedule))
  {
    hide Apply, Newest, Run;
    forall n | 0 <= n < |schedule| ensures !Outdates(Run(START, schedule[..n]), schedule[n]) {
      var st := Run(START, schedule[..n]);
      if Outdates(st, schedule[n]) {
        var q :| Supersedes(st, q, schedule[n].request) && q !in st.waiting;
        GoneWasSettled(schedule[..n], q);
      }
    }
    assert schedule[..|schedule|] == schedule;
    NewestUpTo(schedule, |schedule|);
  }

  /** Such a step happens: the older of two requests is answered last. */
  lemma OlderAnswerWins(st: State, path: string, later: seq<string>, earlier: seq<string>)
    requires Sound(st)
    ensures var older, newer := |st.requests|, |st.requests| + 1;
      var before := Apply(Load(Load(st, path, true), path, true), Respond(newer, later));
      var after := Apply(before, Respond(older, earlier));
      && Outdates(before, Respond(older, earlier))
      && path in Current(after).dirs && Current(after).dirs[path] == Some(Listing(older, earlier))
  {
    var older, newer := |st.requests|, |st.requests| + 1;
    var before := Apply(Load(Load(st, path, true), path, true), Respond(newer, later));
    assert Supersedes(before, newer, older) && newer !in before.waiting;
  }

  /** The flag is taken only for a repository already in use; otherwise it stays as it was. */
  lemma FlagNeedsTree(st: State, value: bool, order: seq<string>)
    requires Members(order) == Visible(if st.tree.Some? then Cleared(st.tree.value) else NEW_TREE)
    ensures Current(Apply(st, SetShowAll(value, order))).showAll == if st.tree.Some? then value else false
  {
    hide Load;
    LoadEachKeepsFlag(if st.tree.None? then st else WithTree(st, Cleared(st.tree.value).(showAll := value)), order, true);
  }

  lemma {:induction false} LoadEachKeepsFlag(st: State, paths: seq<string>, force: bool)
    ensures Current(LoadEach(st, paths, force)).showAll == Current(st).showAll
  {
    if paths != [] {
      LoadEachKeepsFlag(st, paths[..|paths| - 1], force);
    }
  }

  /******* What loads do, told by the requests *******/

  /** Every path in `asked` became loading and was asked for, in order, with the tree's epoch and flag; nothing else moved. */
  ghost predicate AllAsked(was: State, base: Tree, asked: seq<string>, now: State) {
    && now.tree.Some? && now.tree.value == base.(dirs := now.tree.value.dirs)
    && now.tree.value.dirs.Keys == base.dirs.Keys + Members(asked)
    && (forall p | p in now.tree.value.dirs ::
          if p in Members(asked) then now.tree.value.dirs[p] == None else now.tree.value.dirs[p] == base.dirs[p])
    && |now.requests| == |was.requests| + |asked| && now.requests[..|was.requests|] == was.requests
    && (forall i | 0 <= i < |asked| :: now.requests[|was.requests| + i] == Request(asked[i], base.epoch, base.showAll))
    && forall r :: r in now.waiting <==> r in was.waiting || |was.requests| <= r < |now.requests|
  }

  lemma AskedNone(st: State)
    requires st.tree.Some?
    ensures AllAsked(st, Current(st), [], st)
  {
    assert Members([]) == {};
    assert Current(st).dirs.Keys + {} == Current(st).dirs.Keys;
  }

  lemma AskedNext(was: State, base: Tree, asked: seq<string>, st: State, path: string)
    requires AllAsked(was, base, asked, st)
    ensures AllAsked(was, base, asked + [path], Load(st, path, true))
    ensures path !in Current(st).dirs ==> AllAsked(was, base, asked + [path], Load(st, path, false))
    ensures path in Current(st).dirs ==> Load(st, path, false) == st
  {
    MembersSnoc(asked, path);
    var now := Load(st, path, true);
    assert now.requests[..|was.requests|] == was.requests;
  }

  /** A forced load asks for every path given. */
  lemma {:induction false} ForcedLoads(st: State, paths: seq<string>)
    requires st.tree.Some?
    ensures AllAsked(st, Current(st), paths, LoadEach(st, paths, true))
  {
    hide Load, AllAsked;
    if paths == [] {
      AskedNone(st);
    } else {
      var front, last := paths[..|paths| - 1], paths[|paths| - 1];
      ForcedLoads(st, front);
      AskedNext(st, Current(st), front, LoadEach(st, front, true), last);
      assert paths == front + [last];
    }
  }

  lemma AskedKeys(was: State, base: Tree, asked: seq<string>, now: State)
    requires AllAsked(was, base, asked, now)
    ensures Current(now).dirs.Keys == base.dirs.Keys + Members(asked)
  {
  }

  predicate NoRepeats(s: seq<string>) { forall i, j | 0 <= i < j < |s| :: s[i] != s[j] }

  lemma NoRepeatsNext(s: seq<string>, x: string)
    requires NoRepeats(s) && x !in Members(s)
    ensures NoRepeats(s + [x])
  {
    assert forall i | 0 <= i < |s| :: s[i] in Members(s);
  }

  /** A plain load asks, once each, for exactly the paths that were not known. */
  lemma {:induction false} PlainLoads(st: State, paths: seq<string>) returns (asked: seq<string>)
    requires st.tree.Some?
    ensures AllAsked(st, Current(st), asked, LoadEach(st, paths, false))
    ensures Members(asked) == Members(paths) - Current(st).dirs.Keys && NoRepeats(asked)
  {
    hide Load, AllAsked, NoRepeats, Members;
    if paths == [] {
      AskedNone(st);
      NothingAsked();
      asked := [];
    } else {
      var front, last := paths[..|paths| - 1], paths[|paths| - 1];
      asked := PlainLoads(st, front);
      var before := LoadEach(st, front, false);
      AskedKeys(st, Current(st), asked, before);
      AskedNext(st, Current(st), asked, before, last);
      assert paths == front + [last];
      MembersSnoc(front, last);
      if last !in Current(before).dirs {
        MembersSnoc(asked, last);
        NoRepeatsNext(asked, last);
        asked := asked + [last];
      }
    }
  }

  lemma NothingAsked()
    ensures Members([]) == {} && NoRepeats([])
  {
  }

  /** A directory is never marked as both expanded and collapsed. */
  ghost predicate NeverBoth(st: State) { Current(st).expanded !! Current(st).collapsed }

  lemma {:induction false} LoadEachKeepsMarks(st: State, paths: seq<string>, force: bool)
    ensures Current(LoadEach(st, paths, force)).expanded == Current(st).expanded
    ensures Current(LoadEach(st, paths, force)).collapsed == Current(st).collapsed
  {
    if paths != [] {
      LoadEachKeepsMarks(st, paths[..|paths| - 1], force);
    }
  }

  /** What a toggle marks; expanding a path marks all directories on it. Nothing else marks or unmarks one. */
  lemma MarksExactly(st: State, a: Action)
    ensures var was, now := Current(st), Current(Apply(st, a));
      && (a.ToggleDir? && st.tree.Some? && a.currentlyExpanded ==>
            now.expanded == was.expanded - {a.path} && now.collapsed == was.collapsed + {a.path})
      && (a.ToggleDir? && st.tree.Some? && !a.currentlyExpanded ==>
            now.expanded == was.expanded + {a.path} && now.collapsed == was.collapsed - {a.path})
      && (a.ToggleDir? && st.tree.None? ==> Apply(st, a) == st)
      && (a.ToggleDir? ==>
            now.dirs == was.dirs && now.epoch == was.epoch && now.showAll == was.showAll &&
            Apply(st, a).requests == st.requests && Apply(st, a).waiting == st.waiting)
      && (a.ExpandPath? ==>
            now.expanded == was.expanded + Members(a.dirs) && now.collapsed == was.collapsed - Members(a.dirs))
      && (!a.ToggleDir? && !a.ExpandPath? ==> now.expanded == was.expanded && now.collapsed == was.collapsed)
  {
    hide LoadEach, Visible, Members;
    match a
    case ExpandPath(dirs) =>
      var t := Current(st);
      LoadEachKeepsMarks(
        WithTree(st, t.(expanded := t.expanded + Members(dirs), collapsed := t.collapsed - Members(dirs))),
        [""] + dirs, false);
    case SetShowAll(value, order) =>
      LoadEachKeepsMarks(if st.tree.None? then st else WithTree(st, Cleared(st.tree.value).(showAll := value)), order, true);
    case Refresh(clear, order) =>
      LoadEachKeepsMarks(if clear then WithTree(st, Cleared(Current(st))) else st, order, true);
    case _ =>
  }

  /** In every run no directory is marked as both. */
  lemma {:induction false} MarksApart(schedule: seq<Action>)
    ensures NeverBoth(Run(START, schedule))
  {
    hide Apply;
    if schedule != [] {
      MarksApart(schedule[..|schedule| - 1]);
      MarksExactly(Run(START, schedule[..|schedule| - 1]), schedule[|schedule| - 1]);
    }
  }

  /******* The store *******/

  class RepoTree {
    var tree: Option<Tree>
    var requests: seq<Request>
    var waiting: set<nat>

    function Contents(): State
      reads this
    {
      State(tree, requests, waiting)
    }

    constructor ()
      ensures Contents() == START
    {
      tree, requests, waiting := None, [], {};
    }

    method LoadOne(path: string, force: bool)
      modifies this
      ensures Contents() == Load(old(Contents()), path, force)
      ensures var t := if old(tree).Some? then old(tree).value else Tree(map[], 0, {}, {}, false);
        if path in t.dirs && !force then tree == Some(t) && requests == old(requests) && waiting == old(waiting)
        else
          && tree == Some(t.(dirs := t.dirs[path := None]))
          && requests == old(requests) + [Request(path, t.epoch, t.showAll)]
          && waiting == old(waiting) + {|old(requests)|}
    {
      var t := tree.GetOr(NEW_TREE);
      tree := Some(t);
      if !force && path in t.dirs {
        return;
      }
      tree := Some(t.(dirs := t.dirs[path := None]));
      waiting := waiting + {|requests|};
      requests := requests + [Request(path, t.epoch, t.showAll)];
    }

    method LoadAll(paths: seq<string>, force: bool)
      modifies this
      ensures Contents() == LoadEach(old(Contents()), paths, force)
    {
      hide Load;
      ghost var was := Contents();
      for i := 0 to |paths|
        invariant Contents() == LoadEach(was, paths[..i], force)
      {
        assert paths[..i + 1][..i] == paths[..i];
        LoadOne(paths[i], force);
      }
      assert paths[..|paths|] == paths;
    }

    method RefreshVisibleDirs(clear: bool) returns (order: seq<string>)
      modifies this
      ensures Contents() == Apply(old(Contents()), Refresh(clear, order))
      ensures var t := if old(tree).Some? then old(tree).value else Tree(map[], 0, {}, {}, false);
        && Members(order) == {""} + t.expanded + t.dirs.Keys && NoRepeats(order)
        && AllAsked(old(Contents()), if clear then t.(dirs := map[], epoch := t.epoch + 1) else t, order, Contents())
    {
      hide LoadEach, AllAsked;
      ghost var was := Contents();
      var t := tree.GetOr(NEW_TREE);
      order := Sort(Visible(t));
      SortedHasNoRepeats(order);
      if clear {
        tree := Some(Cleared(t));
      }
      ghost var base := Contents();
      LoadAll(order, true);
      VisibleAsked(was, base, order);
    }

    method SetShowAllTo(value: bool) returns (order: seq<string>)
      modifies this
      ensures Contents() == Apply(old(Contents()), SetShowAll(value, order))
      ensures var t := if old(tree).Some? then old(tree).value else Tree(map[], 0, {}, {}, false);
        && Members(order) == {""} + t.expanded
        && AllAsked(old(Contents()), if old(tree).Some? then Tree(map[], t.epoch + 1, t.expanded, t.collapsed, value) else t,
                    order, Contents())
    {
      hide LoadEach, AllAsked;
      ghost var was := Contents();
      if tree.Some? {
        tree := Some(Cleared(tree.value).(showAll := value));
      }
      ghost var base := Contents();
      order := RefreshVisibleDirs(false);
      SetShowAllIs(was, value, order);
      AskedFrom(was, base, Current(base), order, Contents());
    }

    method ToggleDir(path: string, currentlyExpanded: bool)
      modifies this`tree
      ensures Contents() == Apply(old(Contents()), Action.ToggleDir(path, currentlyExpanded))
      ensures old(tree).None? ==> tree.None?
      ensures old(tree).Some? ==>
                var t := old(tree).value;
                tree == Some(if currentlyExpanded
                             then t.(expanded := t.expanded - {path}, collapsed := t.collapsed + {path})
                             else t.(expanded := t.expanded + {path}, collapsed := t.collapsed - {path}))
    {
      if tree.Some? {
        var t := tree.value;
        if currentlyExpanded {
          tree := Some(t.(expanded := t.expanded - {path}, collapsed := t.collapsed + {path}));
        } else {
          tree := Some(t.(expanded := t.expanded + {path}, collapsed := t.collapsed - {path}));
        }
      }
    }

    /** The directories above a path are expanded; those not known yet, and the root, are asked for. */
    method ExpandPath(dirs: seq<string>) returns (ghost asked: seq<string>)
      modifies this
      ensures Contents() == Apply(old(Contents()), Action.ExpandPath(dirs))
      ensures var t := if old(tree).Some? then old(tree).value else Tree(map[], 0, {}, {}, false);
        && AllAsked(old(Contents()), t.(expanded := t.expanded + Members(dirs), collapsed := t.collapsed - Members(dirs)),
                    asked, Contents())
        && Members(asked) == {""} + Members(dirs) - t.dirs.Keys
        && NoRepeats(asked)
    {
      hide LoadEach, AllAsked;
      ghost var was := Contents();
      var t := tree.GetOr(NEW_TREE);
      for i := 0 to |dirs|
        invariant Contents() == was || tree.Some?
        invariant requests == was.requests && waiting == was.waiting
        invariant Current(Contents()) ==
                  Current(was).(expanded := t.expanded + Members(dirs[..i]), collapsed := t.collapsed - Members(dirs[..i]))
      {
        assert dirs[..i + 1] == dirs[..i] + [dirs[i]];
        MembersSnoc(dirs[..i], dirs[i]);
        var now := tree.GetOr(NEW_TREE);
        tree := Some(now.(expanded := now.expanded + {dirs[i]}, collapsed := now.collapsed - {dirs[i]}));
      }
      assert dirs[..|dirs|] == dirs;
      tree := Some(tree.GetOr(NEW_TREE));
      ghost var base := Contents();
      LoadAll([""] + dirs, false);
      asked := PlainLoads(base, [""] + dirs);
      assert Members([""] + dirs) == {""} + Members(dirs);
      AskedFrom(was, base, Current(base), asked, Contents());
    }

    method Receive(r: nat, entries: seq<string>)
      modifies this
      ensures Contents() == Apply(old(Contents()), Respond(r, entries))
      ensures requests == old(requests) && waiting == old(waiting) - (if r < |requests| then {r} else {})
      ensures r in old(waiting) && r < |requests| && old(tree).Some? && old(tree).value.epoch == requests[r].epoch ==>
                tree == Some(old(tree).value.(dirs := old(tree).value.dirs[requests[r].path := Some(Listing(r, entries))]))
      ensures r !in old(waiting) || |requests| <= r || (old(tree).Some? && old(tree).value.epoch != requests[r].epoch) ==>
                tree == old(tree)
    {
      if r !in waiting || |requests| <= r {
        return;
      }
      waiting := waiting - {r};
      var t := tree.GetOr(NEW_TREE);
      if t.epoch == requests[r].epoch {
        tree := Some(t.(dirs := t.dirs[requests[r].path := Some(Listing(r, entries))]));
      }
    }
  }

  lemma AskedFrom(was: State, now: State, base: Tree, asked: seq<string>, end: State)
    requires AllAsked(now, base, asked, end) && now.requests == was.requests && now.waiting == was.waiting
    ensures AllAsked(was, base, asked, end)
  {
  }

  lemma VisibleAsked(was: State, base: State, order: seq<string>)
    requires base.requests == was.requests && base.waiting == was.waiting && "" in order
    ensures AllAsked(was, Current(base), order, LoadEach(base, order, true))
  {
    hide LoadEach, AllAsked;
    TreeIsThere(base, order);
    ForcedLoads(WithTree(base, Current(base)), order);
    AskedFrom(was, WithTree(base, Current(base)), Current(base), order, LoadEach(base, order, true));
  }

  /** The first load puts a new tree in the place of a missing one. */
  lemma {:induction false} TreeIsThere(st: State, paths: seq<string>)
    requires paths != []
    ensures LoadEach(st, paths, true) == LoadEach(WithTree(st, Current(st)), paths, true)
  {
    if |paths| > 1 {
      TreeIsThere(st, paths[..|paths| - 1]);
    } else {
      assert paths[..|paths| - 1] == [];
    }
  }

  lemma SetShowAllIs(st: State, value: bool, order: seq<string>)
    requires var flagged := if st.tree.None? then st else WithTree(st, Cleared(st.tree.value).(showAll := value));
      Members(order) == Visible(Current(flagged))
    ensures var flagged := if st.tree.None? then st else WithTree(st, Cleared(st.tree.value).(showAll := value));
      Apply(st, SetShowAll(value, order)) == Apply(flagged, Refresh(false, order))
    ensures var after := Apply(st, SetShowAll(value, order));
      after.tree.Some? && after.tree.value.showAll == if st.tree.Some? then value else false
  {
    hide Load;
    var flagged := if st.tree.None? then st else WithTree(st, Cleared(st.tree.value).(showAll := value));
    LoadEachKeepsFlag(flagged, order, true);
    assert "" in Members(order);
    LoadEachHasTree(flagged, order, true);
  }

  lemma LoadEachHasTree(st: State, paths: seq<string>, force: bool)
    requires paths != []
    ensures LoadEach(st, paths, force).tree.Some?
  {
  }
}
