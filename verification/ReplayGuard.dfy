/**
 The broker's check of signed requests: a timestamp window and a table of nonces,
 pruned by age. Requests interleave; the time between a request's clock reading
 and its nonce insert is whatever the scheduler makes it.
 */
module ReplayGuard {
  import opened Wrappers
  import opened Lines
  import opened CodexContext
  import opened SecretProtocol
  import Text

  /** Base64 and the signature scheme, as some deterministic functions. */
  datatype Crypto = Crypto(decode: string -> Option<Bytes>, verify: (Bytes, string, Bytes) -> bool)

  datatype Signed = Signed(request: Request, signature: string)

  datatype Credential = Credential(publicKey: string, revoked: bool)

  datatype Refusal =
    | InvalidNonce | Stale | UnknownCredential | InvalidKey | InvalidSignature | Replayed

  /** Times are in microseconds. */
  const SECOND: int := 1_000_000
  const WINDOW: int := 60
  const RETENTION: int := 300 * SECOND

  type Key = (Uuid, string)

  function KeyOf(r: Request): Key { (r.pty, r.nonce) }

  predicate InWindow(stamp: int, now: int) { -WINDOW <= stamp - now / SECOND <= WINDOW }

  /** Everything up to the nonce table, in the order it is checked. */
  function Verdict(c: Crypto, credentials: map<Uuid, Credential>, signed: Signed, now: int): Result<(), Refusal> {
    var r := signed.request;
    if Text.IsBlank(r.nonce) || Text.ByteLen(r.nonce) > 128 then Err(InvalidNonce)
    else if !InWindow(r.stamp, now) then Err(Stale)
    else if r.pty !in credentials || credentials[r.pty].revoked then Err(UnknownCredential)
    else
      var key := c.decode(credentials[r.pty].publicKey);
      var signature := c.decode(signed.signature);
      if key.None? then Err(InvalidKey)
      else if signature.None? then Err(InvalidSignature)
      else if !c.verify(key.value, CanonicalPayload(r), signature.value) then Err(InvalidSignature)
      else Ok(())
  }

  /** `DELETE .. WHERE seen_at < NOW() - INTERVAL '5 minutes'` */
  function Pruned(seen: map<Key, int>, now: int): map<Key, int> {
    map k | k in seen && now - RETENTION <= seen[k] :: seen[k]
  }

  predicate SeenAt(seen: map<Key, int>, k: Key, at: int) { k in seen && seen[k] == at }

  /** The terminal used the request's nonce at `since` or later. */
  predicate UsedSince(seen: map<(Uuid, string), int>, r: Request, since: int) {
    (r.pty, r.nonce) in seen && since <= seen[(r.pty, r.nonce)]
  }

  /** Of `was` what is from `since` or later is still there, and one more entry if any is given. */
  ghost predicate Keeps(was: map<Key, int>, seen: map<Key, int>, since: int, more: Option<(Key, int)>) {
    forall k, at :: SeenAt(seen, k, at) <==> more == Some((k, at)) || (SeenAt(was, k, at) && since <= at)
  }

  /** A prune keeps what is five minutes old or younger. */
  lemma PrunedExactly(seen: map<Key, int>, r: Request, now: int, later: int)
    ensures Keeps(seen, Pruned(seen, now), now - 300 * SECOND, None)
    ensures KeyOf(r) in Pruned(seen, now) <==> UsedSince(seen, r, now - 300 * SECOND)
    ensures !UsedSince(seen, r, now - 300 * SECOND) ==>
              Keeps(seen, Pruned(seen, now)[KeyOf(r) := later], now - 300 * SECOND, Some(((r.pty, r.nonce), later)))
  {
  }

  datatype Flight = Flight(signed: Signed, checkedAt: int, pruned: bool)

  datatype Accepted = Accepted(signed: Signed, checkedAt: int, at: int)

  datatype State = State(
    now: int, credentials: map<Uuid, Credential>, seen: map<Key, int>, flights: map<nat, Flight>,
    accepted: seq<Accepted>)

  datatype Action =
    | Tick(micros: nat)
    | Register(pty: Uuid, publicKey: string)
    | Revoke(pty: Uuid)
    | Check(id: nat, signed: Signed)
    | Prune(id: nat)
    | Insert(id: nat)

  function Start(now: int): State { State(now, map[], map[], map[], []) }

  function Apply(c: Crypto, st: State, a: Action): State {
    match a
    case Tick(micros) => st.(now := st.now + micros)
    case Register(pty, key) => st.(credentials := st.credentials[pty := Credential(key, false)])
    case Revoke(pty) =>
      if pty in st.credentials then
        st.(credentials := st.credentials[pty := st.credentials[pty].(revoked := true)])
      else st
    case Check(id, signed) =>
      if id !in st.flights && Verdict(c, st.credentials, signed, st.now).Ok? then
        st.(flights := st.flights[id := Flight(signed, st.now, false)])
      else st
    case Prune(id) =>
      if id in st.flights && !st.flights[id].pruned then
        st.(seen := Pruned(st.seen, st.now), flights := st.flights[id := st.flights[id].(pruned := true)])
      else st
    case Insert(id) =>
      if id in st.flights && st.flights[id].pruned then
        var flight, key := st.flights[id], KeyOf(st.flights[id].signed.request);
        var landed := st.(flights := st.flights - {id});
        if key in st.seen then landed
        else landed.(seen := st.seen[key := st.now],
                     accepted := st.accepted + [Accepted(flight.signed, flight.checkedAt, st.now)])
      else st
  }

  function Run(c: Crypto, st: State, schedule: seq<Action>): State {
    if schedule == [] then st
    else Apply(c, Run(c, st, schedule[..|schedule| - 1]), schedule[|schedule| - 1])
  }

  lemma RunNext(c: Crypto, st: State, schedule: seq<Action>, a: Action)
    ensures Run(c, st, schedule + [a]) == Apply(c, Run(c, st, schedule), a)
  {
    assert (schedule + [a])[..|schedule|] == schedule;
  }

  /******* What every run keeps *******/

  /** An accepted request's nonce is still in the table, or it is out of date. */
  ghost predicate Remembered(st: State) {
    && (forall a | a in st.accepted ::
          var key := KeyOf(a.signed.request);
          a.at <= st.now && ((key in st.seen && a.at <= st.seen[key]) || a.at + RETENTION < st.now))
    && (forall k | k in st.seen :: st.seen[k] <= st.now)
  }

  /** Acceptance happened in time order, after a check that the timestamp passed. */
  ghost predicate Checked(st: State) {
    && (forall id | id in st.flights ::
          st.flights[id].checkedAt <= st.now && InWindow(st.flights[id].signed.request.stamp, st.flights[id].checkedAt))
    && (forall a | a in st.accepted ::
          a.checkedAt <= a.at <= st.now && InWindow(a.signed.request.stamp, a.checkedAt))
  }

  ghost predicate FarApart(st: State) {
    forall i, j | 0 <= i < j < |st.accepted| && KeyOf(st.accepted[i].signed.request) == KeyOf(st.accepted[j].signed.request) ::
      st.accepted[j].at - st.accepted[i].at > RETENTION
  }

  lemma StepKeeps(c: Crypto, st: State, a: Action)
    requires Remembered(st) && Checked(st) && FarApart(st)
    ensures Remembered(Apply(c, st, a)) && Checked(Apply(c, st, a)) && FarApart(Apply(c, st, a))
  {
    hide InWindow, Verdict;
    match a
    case Check(id, signed) => CheckedInWindow(c, st.credentials, signed, st.now);
    case Insert(id) => InsertKeeps(c, st, id);
    case _ =>
  }

  lemma InsertKeeps(c: Crypto, st: State, id: nat)
    requires Remembered(st) && Checked(st) && FarApart(st)
    ensures var after := Apply(c, st, Insert(id)); Remembered(after) && Checked(after) && FarApart(after)
  {
    hide InWindow, Verdict;
    if id in st.flights && st.flights[id].pruned && KeyOf(st.flights[id].signed.request) !in st.seen {
      var flight := st.flights[id];
      Accepts(st, KeyOf(flight.signed.request), Accepted(flight.signed, flight.checkedAt, st.now), st.flights - {id});
    }
  }

  lemma Accepts(st: State, key: Key, a: Accepted, flights: map<nat, Flight>)
    requires Remembered(st) && Checked(st) && FarApart(st)
    requires key == KeyOf(a.signed.request) && key !in st.seen && a.at == st.now
    requires a.checkedAt <= a.at && InWindow(a.signed.request.stamp, a.checkedAt)
    requires forall id | id in flights :: id in st.flights && flights[id] == st.flights[id]
    ensures var after := st.(seen := st.seen[key := st.now], accepted := st.accepted + [a], flights := flights);
      Remembered(after) && Checked(after) && FarApart(after)
  {
    hide InWindow;
    var after := st.accepted + [a];
    forall i | 0 <= i < |st.accepted| && KeyOf(after[i].signed.request) == key ensures st.now - after[i].at > RETENTION {
      assert st.accepted[i] in st.accepted;
    }
  }

  lemma CheckedInWindow(c: Crypto, credentials: map<Uuid, Credential>, signed: Signed, now: int)
    ensures Verdict(c, credentials, signed, now).Ok? ==> InWindow(signed.request.stamp, now)
  {
  }

  /** Two accepted uses with one terminal and nonce are more than five minutes apart, in every run. */
  lemma {:induction false} AcceptedAreFarApart(c: Crypto, now: int, schedule: seq<Action>)
    ensures FarApart(Run(c, Start(now), schedule))
    ensures Remembered(Run(c, Start(now), schedule)) && Checked(Run(c, Start(now), schedule))
  {
    hide Apply, InWindow;
    if schedule != [] {
      AcceptedAreFarApart(c, now, schedule[..|schedule| - 1]);
      StepKeeps(c, Run(c, Start(now), schedule[..|schedule| - 1]), schedule[|schedule| - 1]);
    }
  }

  /******* Replay *******/

  predicate DelaysWithin(st: State, delay: int) {
    forall a | a in st.accepted :: a.at - a.checkedAt <= delay
  }

  /** The same terminal, nonce and timestamp, whatever the text of the signature. */
  predicate SameUse(a: Accepted, b: Accepted) {
    KeyOf(a.signed.request) == KeyOf(b.signed.request) && a.signed.request.stamp == b.signed.request.stamp
  }

  predicate NoneTwice(st: State) {
    forall i, j | 0 <= i < j < |st.accepted| :: !SameUse(st.accepted[i], st.accepted[j])
  }

  /** The longest delay from a clock reading to its insert that still rules replays out. */
  const SAFE_DELAY: int := 179 * SECOND + 1

  lemma WindowsOverlap(stamp: int, c: int, d: int)
    requires InWindow(stamp, c) && InWindow(stamp, d)
    ensures d - c <= 2 * WINDOW * SECOND + SECOND - 1
  {
  }

  lemma PromptRunsHaveNoReplay(c: Crypto, now: int, schedule: seq<Action>)
    requires DelaysWithin(Run(c, Start(now), schedule), SAFE_DELAY)
    ensures NoneTwice(Run(c, Start(now), schedule))
  {
    hide Run, InWindow;
    AcceptedAreFarApart(c, now, schedule);
    var accepted := Run(c, Start(now), schedule).accepted;
    forall i, j | 0 <= i < j < |accepted| ensures !SameUse(accepted[i], accepted[j]) {
      if SameUse(accepted[i], accepted[j]) {
        assert accepted[i] in accepted && accepted[j] in accepted;
        WindowsOverlap(accepted[i].signed.request.stamp, accepted[i].checkedAt, accepted[j].checkedAt);
      }
    }
  }

  /** The request is well signed under the key text `publicKey`. */
  predicate WellSigned(c: Crypto, signed: Signed, publicKey: string) {
    && !Text.IsBlank(signed.request.nonce) && Text.ByteLen(signed.request.nonce) <= 128
    && c.decode(publicKey).Some? && c.decode(signed.signature).Some?
    && c.verify(c.decode(publicKey).value, CanonicalPayload(signed.request), c.decode(signed.signature).value)
  }

  /** The request is in time, and well signed under a key its terminal has now. */
  ghost predicate MayUse(c: Crypto, credentials: map<Uuid, Credential>, signed: Signed, now: int) {
    var r := signed.request;
    && InWindow(r.stamp, now)
    && r.pty in credentials && !credentials[r.pty].revoked
    && WellSigned(c, signed, credentials[r.pty].publicKey)
  }

  /** The window is a minute either way, in whole seconds. */
  lemma WindowExactly(stamp: int, now: int)
    ensures InWindow(stamp, now) <==> (stamp - 60) * SECOND <= now < (stamp + 61) * SECOND
  {
  }

  /** A request is let through to the nonce table exactly if it may use a secret. */
  lemma VerdictExactly(c: Crypto, credentials: map<Uuid, Credential>, signed: Signed, now: int)
    ensures Verdict(c, credentials, signed, now).Ok? <==> MayUse(c, credentials, signed, now)
  {
    hide InWindow, CanonicalPayload;
  }

  /******* Every accepted use was signed *******/

  predicate Concerns(a: Action, pty: Uuid) { (a.Register? && a.pty == pty) || (a.Revoke? && a.pty == pty) }

  /** The key last registered for the terminal, with no revocation since. */
  ghost predicate RegisteredKey(schedule: seq<Action>, pty: Uuid, key: string) {
    exists m: nat ::
      && m < |schedule| && schedule[m] == Register(pty, key)
      && forall k | m < k < |schedule| :: !Concerns(schedule[k], pty)
  }

  lemma RegisteredNext(front: seq<Action>, a: Action, pty: Uuid, key: string)
    ensures RegisteredKey(front + [a], pty, key) <==>
            a == Register(pty, key) || (RegisteredKey(front, pty, key) && !Concerns(a, pty))
  {
    var all := front + [a];
    assert all[|front|] == a;
    if RegisteredKey(all, pty, key) {
      var m: nat :| m < |all| && all[m] == Register(pty, key) && forall k | m < k < |all| :: !Concerns(all[k], pty);
      if m < |front| {
        assert front[m] == all[m] && !Concerns(all[|front|], pty);
        assert forall k | m < k < |front| :: all[k] == front[k];
      }
    }
    if a == Register(pty, key) {
      assert all[|front|] == Register(pty, key);
    } else if RegisteredKey(front, pty, key) && !Concerns(a, pty) {
      var m: nat :| m < |front| && front[m] == Register(pty, key) && forall k | m < k < |front| :: !Concerns(front[k], pty);
      assert all[m] == front[m];
      assert forall k | m < k < |all| :: !Concerns(all[k], pty);
    }
  }

  /** The credentials table holds the keys that history registered and did not revoke. */
  lemma {:induction false} CredentialsByHistory(c: Crypto, now: int, schedule: seq<Action>, pty: Uuid, key: string)
    ensures var credentials := Run(c, Start(now), schedule).credentials;
      RegisteredKey(schedule, pty, key) <==> pty in credentials && credentials[pty] == Credential(key, false)
  {
    hide Verdict, Pruned, RegisteredKey;
    if schedule == [] {
      NothingRegistered(pty, key);
    } else {
      var front, a := schedule[..|schedule| - 1], schedule[|schedule| - 1];
      CredentialsByHistory(c, now, front, pty, key);
      assert schedule == front + [a];
      RegisteredNext(front, a, pty, key);
    }
  }

  lemma NothingRegistered(pty: Uuid, key: string)
    ensures !RegisteredKey([], pty, key)
  {
  }

  /** The request was checked at `checkedAt`, in time, and well signed under the key its terminal then had. */
  ghost predicate CheckedInRun(c: Crypto, start: int, schedule: seq<Action>, signed: Signed, checkedAt: int) {
    exists n: nat, key ::
      && n < |schedule| && schedule[n].Check? && schedule[n].signed == signed
      && RegisteredKey(schedule[..n], signed.request.pty, key) && WellSigned(c, signed, key)
      && Run(c, Start(start), schedule[..n]).now == checkedAt && InWindow(signed.request.stamp, checkedAt)
  }

  lemma CheckedStays(c: Crypto, start: int, front: seq<Action>, a: Action, signed: Signed, checkedAt: int)
    requires CheckedInRun(c, start, front, signed, checkedAt)
    ensures CheckedInRun(c, start, front + [a], signed, checkedAt)
  {
    hide RegisteredKey, WellSigned, Run, InWindow;
    var n: nat, key :|
      && n < |front| && front[n].Check? && front[n].signed == signed
      && RegisteredKey(front[..n], signed.request.pty, key) && WellSigned(c, signed, key)
      && Run(c, Start(start), front[..n]).now == checkedAt && InWindow(signed.request.stamp, checkedAt);
    assert (front + [a])[..n] == front[..n] && (front + [a])[n] == front[n];
  }

  lemma CheckedNow(c: Crypto, start: int, front: seq<Action>, id: nat, signed: Signed)
    requires var st := Run(c, Start(start), front); Verdict(c, st.credentials, signed, st.now).Ok?
    ensures CheckedInRun(c, start, front + [Check(id, signed)], signed, Run(c, Start(start), front).now)
  {
    hide RegisteredKey, WellSigned, Run, InWindow, Verdict;
    var st := Run(c, Start(start), front);
    VerdictExactly(c, st.credentials, signed, st.now);
    CredentialsByHistory(c, start, front, signed.request.pty, st.credentials[signed.request.pty].publicKey);
    var all := front + [Check(id, signed)];
    assert all[..|front|] == front && all[|front|] == Check(id, signed);
  }

  /** Where flights and accepted uses come from. */
  lemma FlightsFrom(c: Crypto, st: State, a: Action)
    ensures forall x | x in Apply(c, st, a).accepted ::
              x in st.accepted || exists id :: id in st.flights && st.flights[id].signed == x.signed &&
                                               st.flights[id].checkedAt == x.checkedAt
    ensures forall id | id in Apply(c, st, a).flights ::
              var flight := Apply(c, st, a).flights[id];
              || (id in st.flights && st.flights[id].signed == flight.signed && st.flights[id].checkedAt == flight.checkedAt)
              || (a == Check(id, flight.signed) && flight.checkedAt == st.now && Verdict(c, st.credentials, flight.signed, st.now).Ok?)
  {
    hide Verdict, Pruned;
  }

  /** What `st` has accepted, and what is under way in it, was checked in the run of `schedule`. */
  ghost predicate AllChecked(c: Crypto, start: int, schedule: seq<Action>, st: State) {
    && (forall a | a in st.accepted :: CheckedInRun(c, start, schedule, a.signed, a.checkedAt))
    && (forall id | id in st.flights :: CheckedInRun(c, start, schedule, st.flights[id].signed, st.flights[id].checkedAt))
  }

  lemma StepIsChecked(c: Crypto, start: int, front: seq<Action>, a: Action)
    requires AllChecked(c, start, front, Run(c, Start(start), front))
    ensures AllChecked(c, start, front + [a], Apply(c, Run(c, Start(start), front), a))
  {
    hide Verdict, Pruned, CheckedInRun, Apply, Run;
    var before, all := Run(c, Start(start), front), front + [a];
    var after := Apply(c, before, a);
    FlightsFrom(c, before, a);
    forall signed, at | CheckedInRun(c, start, front, signed, at) ensures CheckedInRun(c, start, all, signed, at) {
      CheckedStays(c, start, front, a, signed, at);
    }
    forall id | id in after.flights
      ensures CheckedInRun(c, start, all, after.flights[id].signed, after.flights[id].checkedAt)
    {
      var flight := after.flights[id];
      if a == Check(id, flight.signed) && flight.checkedAt == before.now
         && Verdict(c, before.credentials, flight.signed, before.now).Ok? {
        CheckedNow(c, start, front, id, flight.signed);
      } else {
        assert CheckedInRun(c, start, front, before.flights[id].signed, before.flights[id].checkedAt);
      }
    }
  }

  /**
   Every accepted use was checked earlier in the run, in time, and was then well signed under
   the key last registered for its terminal and not revoked.
   */
  lemma {:induction false} AcceptedWereSigned(c: Crypto, start: int, schedule: seq<Action>)
    ensures forall a | a in Run(c, Start(start), schedule).accepted ::
              CheckedInRun(c, start, schedule, a.signed, a.checkedAt)
    ensures AllChecked(c, start, schedule, Run(c, Start(start), schedule))
  {
    hide CheckedInRun, Apply;
    if schedule != [] {
      var front, a := schedule[..|schedule| - 1], schedule[|schedule| - 1];
      AcceptedWereSigned(c, start, front);
      assert schedule == front + [a];
      StepIsChecked(c, start, front, a);
    }
  }

  lemma VerdictOk(c: Crypto, signed: Signed, publicKey: string, credentials: map<Uuid, Credential>, now: int)
    requires WellSigned(c, signed, publicKey) && InWindow(signed.request.stamp, now)
    requires signed.request.pty in credentials && credentials[signed.request.pty] == Credential(publicKey, false)
    ensures Verdict(c, credentials, signed, now).Ok?
  {
  }

  /** A use that is checked, waits, and is then pruned for and inserted, with nothing in between. */
  lemma UseOnce(
    c: Crypto, start: State, schedule: seq<Action>, id: nat, signed: Signed, publicKey: string, wait: nat)
    returns (longer: seq<Action>)
    requires var st := Run(c, start, schedule);
      && WellSigned(c, signed, publicKey) && InWindow(signed.request.stamp, st.now)
      && signed.request.pty in st.credentials && st.credentials[signed.request.pty] == Credential(publicKey, false)
      && st.flights == map[]
      && KeyOf(signed.request) !in Pruned(st.seen, st.now + wait)
    ensures var st, after := Run(c, start, schedule), Run(c, start, longer);
      && after.now == st.now + wait && after.credentials == st.credentials && after.flights == map[]
      && after.seen == Pruned(st.seen, st.now + wait)[KeyOf(signed.request) := st.now + wait]
      && after.accepted == st.accepted + [Accepted(signed, st.now, st.now + wait)]
  {
    hide Run, Verdict, InWindow, WellSigned, Pruned;
    var st := Run(c, start, schedule);
    VerdictOk(c, signed, publicKey, st.credentials, st.now);
    RunNext(c, start, schedule, Check(id, signed));
    RunNext(c, start, schedule + [Check(id, signed)], Tick(wait));
    RunNext(c, start, schedule + [Check(id, signed)] + [Tick(wait)], Prune(id));
    longer := schedule + [Check(id, signed)] + [Tick(wait)] + [Prune(id)] + [Insert(id)];
    RunNext(c, start, schedule + [Check(id, signed)] + [Tick(wait)] + [Prune(id)], Insert(id));
  }

  /** One microsecond more, and a run accepts one and the same signed request twice. */
  lemma SlowInsertReplays(c: Crypto, signed: Signed, publicKey: string)
    returns (now: int, schedule: seq<Action>)
    requires WellSigned(c, signed, publicKey)
    ensures DelaysWithin(Run(c, Start(now), schedule), SAFE_DELAY + 1)
    ensures !NoneTwice(Run(c, Start(now), schedule))
    ensures exists a, b :: Run(c, Start(now), schedule).accepted == [a, b] && a.signed == b.signed == signed
  {
    hide Run, WellSigned;
    now := (signed.request.stamp - WINDOW) * SECOND;
    var pty, key := signed.request.pty, KeyOf(signed.request);
    var register := [] + [Register(pty, publicKey)];
    EmptyRun(c, Start(now));
    RunNext(c, Start(now), [], Register(pty, publicKey));
    var once := UseOnce(c, Start(now), register, 0, signed, publicKey, 0);
    var gap := 2 * WINDOW * SECOND + SECOND - 1;
    RunNext(c, Start(now), once, Tick(gap));
    schedule := UseOnce(c, Start(now), once + [Tick(gap)], 1, signed, publicKey, SAFE_DELAY + 1);
    var accepted := Run(c, Start(now), schedule).accepted;
    assert accepted == [Accepted(signed, now, now)] + [Accepted(signed, now + gap, now + gap + SAFE_DELAY + 1)];
    assert SameUse(accepted[0], accepted[1]);
    assert accepted == [Accepted(signed, now, now), Accepted(signed, now + gap, now + gap + SAFE_DELAY + 1)];
  }

  lemma EmptyRun(c: Crypto, st: State)
    ensures Run(c, st, []) == st
  {
  }

  /** No run accepts a terminal, nonce and timestamp twice exactly when inserts follow clock readings within the safe delay. */
  lemma ReplayExactly(c: Crypto, signed: Signed, publicKey: string, delay: int)
    requires WellSigned(c, signed, publicKey)
    ensures delay <= SAFE_DELAY <==>
            forall now, schedule | DelaysWithin(Run(c, Start(now), schedule), delay) ::
              NoneTwice(Run(c, Start(now), schedule))
  {
    hide Run, WellSigned;
    if delay <= SAFE_DELAY {
      forall now, schedule | DelaysWithin(Run(c, Start(now), schedule), delay)
        ensures NoneTwice(Run(c, Start(now), schedule))
      {
        PromptRunsHaveNoReplay(c, now, schedule);
      }
    } else {
      var now, schedule := SlowInsertReplays(c, signed, publicKey);
    }
  }

  /******* The handler *******/

  /** What is wrong with a request before the nonce table is asked, when nothing above it in the list is. */
  ghost predicate FirstFault(c: Crypto, credentials: map<Uuid, Credential>, signed: Signed, now: int, fault: Refusal) {
    var r := signed.request;
    var known := r.pty in credentials && !credentials[r.pty].revoked;
    match fault
    case InvalidNonce => Text.IsBlank(r.nonce) || Text.ByteLen(r.nonce) > 128
    case Stale => NonceOk(r) && !InWindow(r.stamp, now)
    case UnknownCredential => NonceOk(r) && InWindow(r.stamp, now) && !known
    case InvalidKey =>
      NonceOk(r) && InWindow(r.stamp, now) && known && c.decode(credentials[r.pty].publicKey).None?
    case InvalidSignature =>
      && NonceOk(r) && InWindow(r.stamp, now) && known && c.decode(credentials[r.pty].publicKey).Some?
      && !WellSigned(c, signed, credentials[r.pty].publicKey)
    case Replayed => false
  }

  predicate NonceOk(r: Request) { !Text.IsBlank(r.nonce) && Text.ByteLen(r.nonce) <= 128 }

  class Broker {
    var credentials: map<Uuid, Credential>
    var seen: map<Key, int>

    constructor ()
      ensures credentials == map[] && seen == map[]
    {
      credentials, seen := map[], map[];
    }

    /** Keys are refused unless they are 32 bytes in base64; a new key replaces the old and lifts a revocation. */
    method RegisterPtyCredential(c: Crypto, pty: Uuid, publicKey: string) returns (ok: bool)
      modifies this`credentials
      ensures ok <==> c.decode(publicKey).Some? && |c.decode(publicKey).value| == 32
      ensures credentials == if ok then old(credentials)[pty := Credential(publicKey, false)] else old(credentials)
      ensures ok ==> forall signed: Signed, now | signed.request.pty == pty ::
                MayUse(c, credentials, signed, now) <==> InWindow(signed.request.stamp, now) && WellSigned(c, signed, publicKey)
    {
      var key := c.decode(publicKey);
      ok := key.Some? && |key.value| == 32;
      if ok {
        credentials := credentials[pty := Credential(publicKey, false)];
      }
    }

    /** After a revocation no request of the terminal passes. */
    method RevokePtyCredential(pty: Uuid)
      modifies this`credentials
      ensures credentials ==
              if pty in old(credentials) then old(credentials)[pty := old(credentials)[pty].(revoked := true)]
              else old(credentials)
      ensures forall c, signed: Signed, now | signed.request.pty == pty :: !MayUse(c, credentials, signed, now)
    {
      if pty in credentials {
        credentials := credentials[pty := credentials[pty].(revoked := true)];
      }
    }

    /**
     One request on its own; the clock may move between its clock reading, its prune and its
     insert. It passes exactly if it may use a secret and its terminal has not used its nonce in
     the five minutes before the prune. Then the nonce is kept, and what is older is forgotten.
     */
    method VerifySignedUseRequest(c: Crypto, signed: Signed, checkedAt: int, pruneAfter: nat, insertAfter: nat)
      returns (r: Result<(), Refusal>)
      modifies this`seen
      ensures r.Ok? <==>
              && MayUse(c, credentials, signed, checkedAt)
              && !UsedSince(old(seen), signed.request, checkedAt + pruneAfter - 300 * SECOND)
      ensures r == Err(Replayed) <==>
              && MayUse(c, credentials, signed, checkedAt)
              && UsedSince(old(seen), signed.request, checkedAt + pruneAfter - 300 * SECOND)
      ensures !MayUse(c, credentials, signed, checkedAt) ==>
                seen == old(seen) && r.Err? && FirstFault(c, credentials, signed, checkedAt, r.error)
      ensures MayUse(c, credentials, signed, checkedAt) ==>
                Keeps(old(seen), seen, checkedAt + pruneAfter - 300 * SECOND,
                      if r.Err? then None
                      else Some(((signed.request.pty, signed.request.nonce), checkedAt + pruneAfter + insertAfter)))
      ensures var start := State(checkedAt, credentials, old(seen), map[], []);
        var end := Run(c, start, [Check(0, signed), Tick(pruneAfter), Prune(0), Tick(insertAfter), Insert(0)]);
        seen == end.seen && (r.Ok? <==> end.accepted != [])
    {
      hide Text.IsBlank, Text.ByteLen, Pruned, InWindow, CanonicalPayload, Run, Keeps, UsedSince;
      PrunedExactly(seen, signed.request, checkedAt + pruneAfter, checkedAt + pruneAfter + insertAfter);
      UseAlone(c, credentials, seen, signed, checkedAt, pruneAfter, insertAfter);
      var request := signed.request;
      if Text.IsBlank(request.nonce) || Text.ByteLen(request.nonce) > 128 {
        return Err(InvalidNonce);
      }
      if !InWindow(request.stamp, checkedAt) {
        return Err(Stale);
      }
      if request.pty !in credentials || credentials[request.pty].revoked {
        return Err(UnknownCredential);
      }
      var key := c.decode(credentials[request.pty].publicKey);
      if key.None? {
        return Err(InvalidKey);
      }
      var signature := c.decode(signed.signature);
      if signature.None? || !c.verify(key.value, CanonicalPayload(request), signature.value) {
        return Err(InvalidSignature);
      }
      seen := Pruned(seen, checkedAt + pruneAfter);
      if KeyOf(request) in seen {
        return Err(Replayed);
      }
      seen := seen[KeyOf(request) := checkedAt + pruneAfter + insertAfter];
      assert seen == Pruned(old(seen), checkedAt + pruneAfter)[KeyOf(request) := checkedAt + pruneAfter + insertAfter];
      assert !UsedSince(old(seen), request, checkedAt + pruneAfter - 300 * SECOND);
      return Ok(());
    }
  }

  /** One request's steps with nothing in between. */
  lemma UseAlone(
    c: Crypto, credentials: map<Uuid, Credential>, seen: map<Key, int>, signed: Signed, now: int, p: nat, q: nat)
    ensures var start, key := State(now, credentials, seen, map[], []), KeyOf(signed.request);
      var end := Run(c, start, [Check(0, signed), Tick(p), Prune(0), Tick(q), Insert(0)]);
      var pruned := Pruned(seen, now + p);
      if Verdict(c, credentials, signed, now).Err? then end.seen == seen && end.accepted == []
      else if key in pruned then end.seen == pruned && end.accepted == []
      else end.seen == pruned[key := now + p + q] && |end.accepted| == 1
  {
    hide Pruned, Verdict, Run;
    var start := State(now, credentials, seen, map[], []);
    FiveSteps(c, start, Check(0, signed), Tick(p), Prune(0), Tick(q), Insert(0));
  }

  lemma FiveSteps(c: Crypto, st: State, p: Action, q: Action, r: Action, s: Action, t: Action)
    ensures Run(c, st, [p, q, r, s, t]) == Apply(c, Apply(c, Apply(c, Apply(c, Apply(c, st, p), q), r), s), t)
  {
    hide Run, Apply;
    EmptyRun(c, st);
    RunNext(c, st, [], p);
    RunNext(c, st, [p], q);
    RunNext(c, st, [p, q], r);
    RunNext(c, st, [p, q, r], s);
    RunNext(c, st, [p, q, r, s], t);
    assert [] + [p] == [p] && [p] + [q] == [p, q] && [p, q] + [r] == [p, q, r];
    assert [p, q, r] + [s] == [p, q, r, s] && [p, q, r, s] + [t] == [p, q, r, s, t];
  }
}
