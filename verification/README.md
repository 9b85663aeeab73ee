# Verification model of the session backend

Dafny proofs about the core of a multi-agent terminal backend: the transcript
ingester and what is derived from it, session lineage, the secret broker, and
the smaller stateful parts around them. `dafny verify dfyconfig.toml` checks
everything. Nothing here is executed.

## What is modelled

**Transcript ingestion.** A transcript is an append-only byte sequence. A tick
loads the committed offset and the Codex context, reads to the end of the file,
stores one row a complete line (keyed by the line's start, a second insert does
nothing), carries the context and the parent link along, and commits the offset
last; the process may die between any two steps (`Ingester`). `Lines` and
`CodexContext` hold the two ingredients, `Schedule` proves what every
interleaving keeps and where it ends, `TranscriptStore` proves the code's own
loop to be one such run, `FileScan` lifts that to a pass over all files,
`Reindex` treats the admin reindex and the repair, and `MisfiledRecords` why one
hypothesis is needed. `RecordFields` and `StoredRows` tell, by the fields of a
record, what it does and what its row holds; `LineageColumns` what the stored
lineage columns mean across rows.

The hypothesis: a Codex record may be stored under a kind that the context query
takes for another (`CodexContext.Misfiled`: an outer `task_started`, a
`response_item` whose payload type is `session_meta`, `turn_context` or
`task_started`, or an `event_msg` whose payload type is `session_meta` or
`turn_context`). Such a record hides the one that really set the context, so the
columns of later lines depend on where ticks fell. `CodexContext.ReloadExactlyWhen`
proves the reload right for exactly the records that are not misfiled.

**Lineage.** Parent links, the ancestor walk, the recursive descendant query, the
fixpoint that picks a descendant's events, and which projections an insert makes
stale (`Lineage`, `ProjectionSource`). Links are write-once and only a
self-reference is refused, so two sessions can become each other's parent
(`Lineage.MutualParents`); the walk ends exactly when it meets no cycle, and the
descendant query exactly when its root does not descend from itself. What a cycle
elsewhere in the table does is of no consequence to either.

**Secret broker.** Replay protection over interleaved requests with real clock
arithmetic (`ReplayGuard`), grants refined against the history of operations
(`SecretGrants`), the signed payload (`SecretProtocol`).

**Smaller parts.** The git fingerprint and revision (`RepoState`), `git status`
records (`Porcelain`), agent launch through a shell (`Launch`), slugs and the two
front-matter stores (`Slugs`, `SlugWords`, `FrontMatter`, `Library`, `FuturePrompts`), the
terminal lifecycle (`PtyLifecycle`) and the frontend's tree cache (`TreeCache`).

JSON decoding, the two record parsers, UUID parsing, search text, base64 and the
signature scheme are parameters: arbitrary deterministic functions. Clocks,
fresh ids and file contents are parameters too.

## What is false of the code

Each of these comes with the exact condition under which the code is right, and
a witness that the condition can fail.

- Reloading a context from stored rows, and so schedule independence, fails for
  misfiled records (`CodexContext.ReloadExactlyWhen`, `MisfiledRecords.MisfiledBreaksIndependence`).
- A Claude insert rebuilds only its own projection, although ancestors with a row
  read it (`Lineage.ClaudeRebuildSuffices`).
- A signed request can be accepted twice once its nonce is inserted more than
  179.000001 s after its clock reading (`ReplayGuard.ReplayExactly`).
- Library entries do not survive a newline or backslash in a field or a newline
  before the body (`Library.EntryRoundTripExactly`); the reader unescapes quotes
  but not backslashes. A slug that ends in `.md` is listed under another name
  (`Library.ListedExactly`).
- Newlines in paths break the fingerprint: a status free of them shares its
  fingerprint with one that shows something else exactly if it has two dirty
  paths or more (`RepoState.CollidesExactly`).
- The dirty paths are read with two queries and no transaction. A revision and rows
  are served that belong together exactly if the rows did not change in between
  (`RepoState.ServedPair`); a reconcile that commits there and changes them gets
  newer rows cached under the older revision (`RepoState.ServedAcrossOne`).
- Codes such as `RD` carry an original path that is then counted as a record
  (`Porcelain.CodesExactly`), where the comment in the code speaks of every
  rename and copy.
- A mapped session can belong to a deleted row: exactly when the map step of a spawn
  comes after a delete of the same terminal began (`PtyLifecycle.MapsDeletedExactly`
  for a step, `PtyLifecycle.RunMapsDeletedExactly` for runs, and
  `PtyLifecycle.DeletedCanBeMapped` as the witness).
- A directory can be left loading, which is what null means, with nothing under way:
  exactly when the one request it still waits for fails (`TreeCache.LoadingAwaitedExactly`,
  `TreeCache.RunAwaitsExactly`). A plain load does not ask again, where the comment in
  the code speaks of a missing entry (`TreeCache.FailureLeavesLoading`).
- An older listing can be shown for a newer one: exactly when a request is answered
  after a later one for the same directory was settled, or the later one fails
  (`TreeCache.NewestExactly`, `TreeCache.RunShowsNewestExactly`, with
  `TreeCache.OlderAnswerWins` as the witness).
- The show-all flag is dropped for a repository not yet in use (`TreeCache.FlagNeedsTree`).

The check of the secret id matters: without it one signature would cover two
requests (`SecretProtocol.UnvalidatedCollide`).

## Model

| member | source | states |
|---|---|---|
| Lines.ScanFindsTheLines | backend/src/ingest/ingester.rs:334-378 | one pass that remembers where the line started finds every newline-terminated line of the file, in order, and nothing else |
| Lines.ScanConcat | backend/src/ingest/ingester.rs:329-375 | reading from a line boundary finds the lines a read of the whole file finds there, at shifted offsets |
| Lines.ScanMonotone | backend/src/ingest/ingester.rs:377-378 | appending bytes only adds lines; a partial line waits for its newline |
| CodexContext.ReplayAbsorbed | backend/src/ingest/ingester.rs:844-863 | folding an already folded suffix of records over the context once more changes nothing |
| CodexContext.KindVersusEffect | backend/src/ingest/ingester.rs:734-759 | every record that sets the context is stored under a kind the context query looks for; the converse fails for exactly the misfiled records |
| CodexContext.ReloadIsFold | backend/src/ingest/ingester.rs:526-561 | with no misfiled record stored, the context read back by the two queries is the running fold of all stored records |
| CodexContext.ReloadExactlyWhen | backend/src/ingest/ingester.rs:526-561 | storing a record leaves the reloaded context equal to the running one after every history if and only if the record is not misfiled |
| RecordFields.ContextExactly | backend/src/ingest/ingester.rs:844-863 | told by the fields of a record: a session description sets session and parent, the start of a turn sets the turn, no other record sets anything |
| RecordFields.StoredUnder | backend/src/ingest/ingester.rs:734-759 | told by the fields of a record: the kind it is stored under, for either agent |
| RecordFields.ClaudeParentExactly | backend/src/ingest/ingester.rs:1085-1121 | a Claude record points at its parent with the first of six fields that names another session, the first of them in a compaction summary only |
| RecordFields.CodexParentExactly | backend/src/ingest/ingester.rs:865-879 | a Codex record points at the session it was forked from, or else the one that spawned it, if that is another one |
| Schedule.RunKeeps | backend/src/ingest/ingester.rs:339-375 | after every schedule of appends, ticks and crashes: rows are those of a line prefix, the parent link lags by at most one line, and the context in memory owes exactly the stored lines past the tick |
| Schedule.ExactlyOnceCoverage | backend/src/ingest/ingester.rs:5-14 | in every reachable state the offset is a line boundary, and the row keys are exactly the starts of the lines with a byte that is not white space that are JSON, below a line boundary at or above the offset, each row with the JSON of its own line |
| Schedule.StoreIsFaithful | backend/src/ingest/ingester.rs:640-693 | after any crash the first unstored line gets the columns and blocks an uninterrupted run gives it |
| Schedule.SettledIsClean | backend/src/ingest/ingester.rs:301-389 | once the offset reaches the last newline, rows, blocks and parent link are those of a crash-free ingest of the bytes, whatever happened before |
| Schedule.ScheduleIndependence | backend/src/ingest/ingester.rs:301-389 | two settled histories of the same bytes leave equal databases |
| MisfiledRecords.MisfiledBreaksIndependence | backend/src/ingest/ingester.rs:734-759 | for every misfiled record there is a file and two settled schedules of it that store different rows |
| TranscriptStore.Store.ProcessFile | backend/src/ingest/ingester.rs:301-389 | the byte loop is one full tick of the step system; it counts the new keys and the lines that hold more than white space and are not JSON, and gives the least new key; a file shorter than the offset only resets it |
| TranscriptStore.Store.InsertLine | backend/src/ingest/ingester.rs:588-714 | white space is skipped and what is not JSON reported, both without a change; a record gets one row with its payload unless its offset has one, no other row changes, and the context and a missing parent link move either way |
| TranscriptStore.Store.LoadCodexContext | backend/src/ingest/ingester.rs:526-561 | the two latest-row searches and two updates compute the reloaded context |
| TranscriptStore.SingleTickIsClean | backend/src/ingest/ingester.rs:301-389 | one uninterrupted tick over a new file stores its clean tables and commits the last newline |
| TranscriptStore.OneTickRecovers | backend/src/ingest/ingester.rs:13-14 | after any history, a crash and one full tick leave exactly what a single crash-free tick over the whole file leaves |
| FileScan.DirtyExactly | backend/src/ingest/file_scan.rs:45-60 | a pass opens, in the order found, exactly the files whose length is not the session's offset on record, or not 0 if there is none |
| FileScan.StartsExactlyWhenDirty | backend/src/ingest/file_scan.rs:45-60 | starting a tick changes something if and only if the file is dirty; a file that is not is settled |
| FileScan.TickAll | backend/src/ingest/ingester.rs:209-264 | a pass over the dirty files leaves every session, whatever its history, with the clean tables of its file |
| LineageColumns.KnownKindsAreIdentified | backend/src/ingest/ingester.rs:761-842 | each of the four record kinds gets an id and, but for a session description, a parent; other records keep their columns |
| LineageColumns.ParentNamesTurnOrSession | backend/src/ingest/ingester.rs:761-863 | in stored tables a row that hangs on its context names as parent the row of the last turn, else the last described session, else the session itself; sidechain if and only if that session has a parent |
| LineageColumns.ContextIsLast | backend/src/ingest/ingester.rs:844-863 | a context is what the last turn-setting and the last session-describing record left, and a fresh one where there is none |
| LineageColumns.CallsAndOutputs | backend/src/ingest/ingester.rs:761-842 | a tool call is identified by its tool id, its outputs by ids that differ from it and from each other at different offsets |
| LineageColumns.SyntheticIdsDiffer | backend/src/ingest/ingester.rs:761-842 | made-up ids of one session differ wherever the offsets do |
| LineageColumns.FirstToolIdExactly | backend/src/ingest/ingester.rs:761-842 | the call id is that of the first block that has one |
| LineageColumns.FirstHintDecides | backend/src/ingest/ingester.rs:1085-1121 | the first key that gives a parent decides; the leaf key only in a compaction summary; never the session itself |
| LineageColumns.ParentIsWrittenOnce | backend/src/ingest/ingester.rs:1123-1135 | over every run the parent link never changes once set and never names the session itself |
| StoredRows.ColumnsExactly | backend/src/ingest/ingester.rs:617-663 | each stored row has its record, the agent and the timestamp, and its columns describe what the parser made of the record, its search text included; enrichment touches the lineage columns and the subtype only |
| StoredRows.BlocksExactly | backend/src/ingest/ingester.rs:898-937 | of the parser's blocks with one ordinal the last is stored, and no other block |
| StoredRows.RewrittenExactly | backend/src/ingest/ingester.rs:939-972 | a row parsed again describes what the parser makes of its payload, whatever it described before |
| StoredRows.MetaRow | backend/src/ingest/ingester.rs:779-785 | a session description has the id it gives or its session, and hangs off the session it names |
| StoredRows.TurnRow | backend/src/ingest/ingester.rs:786-792 | the start of a turn has the turn's id or a made-up one, and hangs off the session |
| StoredRows.ResponseRow | backend/src/ingest/ingester.rs:793-810 | a response item hangs off the turn under way; calls have the id of their tool use, outputs that id and their place, all others a made-up one |
| StoredRows.StatusRow | backend/src/ingest/ingester.rs:811-839 | status records hang off the turn they name or the one under way; the end of a spawn has the id of the new session and is of no sidechain |
| StoredRows.OtherRow | backend/src/ingest/ingester.rs:840-842 | records of any other kind keep what their parser gave them |
| StoredRows.SubtypeExactly | backend/src/ingest/ingester.rs:734-759 | a Codex row's subtype is its payload's type where it has one |
| StoredRows.ParentIsFirstFound | backend/src/ingest/ingester.rs:1123-1135 | in a settled state the parent link is what the first record that points at a parent points at, and missing if none does |
| Reindex.CleanIsClean | backend/src/ingest/ingester.rs:588-714 | a clean ingest fills each row and its blocks as the payloads before it determine |
| Reindex.AllCleanUnique | backend/src/ingest/ingester.rs:976-1075 | tables rebuilt from the same payloads at the same offsets are equal |
| Reindex.RewriteStep | backend/src/ingest/ingester.rs:939-972 | rewriting one selected row makes it clean, disturbs no other, and leaves the rest repairable, so an interrupted repair can be run again |
| Reindex.Backfill | backend/src/ingest/ingester.rs:976-1075 | from any tables it parses exactly the stale rows again, each in the context of the payloads before it, counts them, and leaves every other row with its blocks; from tables whose unclean rows are all stale it leaves exactly the clean ones |
| Reindex.SelectedExactly | backend/src/ingest/ingester.rs:977-1063 | stale are the rows without speaker or content kind, those with content but no block, and non-Codex rows with a tool result stored before outputs were or an edit stored before file edits were |
| Reindex.RepairedParentExactly | backend/src/ingest/ingester.rs:1013-1030 | the repair keeps a parent link; a Codex session without one gets that of the first stale row that points at a parent |
| Reindex.ClearDerived | backend/src/ingest/reset.rs:38-54 | all blocks go and every derived column is emptied; payload, kind, agent and timestamp of every row stay |
| Reindex.ClearedIsRepairable | backend/src/ingest/reset.rs:32-54 | clearing derived columns and blocks leaves tables in which every row is selected |
| Reindex.ReachableIsIngested | backend/src/ingest/reset.rs:4-19 | every reachable state of the ingester is one the reindex restores, and a settled one to its parent link as well |
| Reindex.RebuildDerivatives | backend/src/ingest/reset.rs:20-82 | the reindex gives back the rows and blocks ingestion had stored, session by session; the rebuilt count equals the preserved one whatever the tables held |
| Lineage.WalkEndsExactly | backend/src/ingest/ingester.rs:563-582 | the ancestor walk ends if and only if it meets no session that descends from itself |
| Lineage.ParentChain | backend/src/ingest/ingester.rs:563-582 | the loop terminates without a cycle; it follows the stored links from row to row until one has none, and returns every ancestor once, nearest first |
| Lineage.DescendsByLinks | backend/src/ingest/projection.rs:160-181 | a session descends from another if and only if a path of stored links leads there |
| Lineage.LinkExactly | backend/src/ingest/ingester.rs:1123-1135 | a link is set exactly where a row has none and another session is pointed at; nothing else moves |
| Lineage.MutualParents | backend/src/ingest/ingester.rs:875-879 | refusing only self-references allows two sessions to be each other's parent, and then the walk never ends |
| Lineage.QueryEndsExactly | backend/src/ingest/projection.rs:160-181 | the recursive query ends if and only if its root does not descend from itself |
| Lineage.DescendantIds | backend/src/ingest/projection.rs:160-181 | whenever it ends, the query returns every row below a session that has a row, once, by depth and then id |
| Lineage.DescendantsUnique | backend/src/ingest/projection.rs:160-181 | whenever it ends, the answer is determined by the table |
| Lineage.ProjectionSources | backend/src/ingest/projection.rs:130-158 | the sessions a projection loads are itself and its descendants, each once |
| Lineage.RebuildAfterInsert | backend/src/ingest/ingester.rs:391-440 | after a Codex insert whose ancestor walk ends, the rebuilt sessions with a row are exactly those whose projection reads the session, each once, and each of their queries ends; a Claude insert rebuilds its own only |
| Lineage.ClaudeRebuildSuffices | backend/src/ingest/ingester.rs:391-414 | rebuilding only the session itself reaches every reader if and only if its parent has no row |
| ProjectionSource.ReachIsLeast | backend/src/ingest/projection.rs:188-210 | the included ids are the least set with the seeds that is closed under parent links |
| ProjectionSource.GrowIncluded | backend/src/ingest/projection.rs:188-210 | the while-changed loop terminates with exactly the ids reachable from the seeds |
| ProjectionSource.FilterDescendantEvents | backend/src/ingest/projection.rs:183-231 | the result holds, in order, exactly the events whose id or parent is on a chain of parent links from an event that is of a sidechain, hangs off the spawned session, and has an id not known yet |
| ProjectionSource.FilterIgnoresOrder | backend/src/ingest/projection.rs:183-231 | whatever order the events come in, the same events pass, as often |
| ProjectionSource.SortEvents | backend/src/ingest/projection.rs:152-156 | the sort by timestamp and offset is in order and stable |
| ProjectionSource.StableSortUnique | backend/src/ingest/projection.rs:152-156 | there is one stable sort of a list |
| ProjectionSource.LoadProjectionSourceEvents | backend/src/ingest/projection.rs:130-158 | root events plus what passes of each descendant, given the ids before it, sorted |
| ProjectionSource.SourceExactly | backend/src/ingest/projection.rs:130-158 | the source is the root's events and, of each descendant by depth and id, the events on a chain whose start is in no earlier part, sorted by timestamp and offset |
| ProjectionSource.SourceUnique | backend/src/ingest/projection.rs:130-158 | the source is a function of the tables |
| ProjectionSource.UnreadInsertInvisible | backend/src/ingest/projection.rs:130-158 | changing the events of a session that a projection does not read does not change the projection's source |
| SecretProtocol.PayloadInjective | backend/src/secret_protocol.rs:27-42 | equal payloads of validated requests mean equal requests, even when nonces hold newlines |
| SecretProtocol.PayloadIsLines | backend/src/secret_protocol.rs:27-42 | the signed text is the version, terminal, tool, secret, timestamp and nonce, one line each |
| SecretProtocol.NamesExactly | backend/src/secret_broker.rs:752-770 | the ids and tools that pass, character by character |
| SecretProtocol.UnvalidatedCollide | backend/src/secret_broker.rs:752-761 | without the check of the secret id, different requests share a payload |
| ReplayGuard.AcceptedAreFarApart | backend/src/secret_broker.rs:600-616 | in every run of interleaved requests, two accepted uses with one terminal and nonce are more than 300 s apart |
| ReplayGuard.ReplayExactly | backend/src/secret_broker.rs:564-616 | no run accepts a terminal, nonce and timestamp twice, under whatever signature text, if and only if inserts follow clock readings within 179.000001 s |
| ReplayGuard.VerdictExactly | backend/src/secret_broker.rs:560-598 | a request is let through to the nonce table if and only if it is in the window and well signed under a key its terminal has and that is not revoked |
| ReplayGuard.AcceptedWereSigned | backend/src/secret_broker.rs:560-618 | in every run each accepted use was checked before, in the window, and was well signed under the key last registered for its terminal and not revoked since |
| ReplayGuard.CredentialsByHistory | backend/src/secret_broker.rs:436-475 | the credentials are exactly those that history registered last and did not revoke |
| Text.ByteLenIsEncoded | backend/src/secret_broker.rs:564-566 | the length that is limited is that of the nonce in UTF-8 |
| ReplayGuard.Broker.VerifySignedUseRequest | backend/src/secret_broker.rs:560-618 | passes if and only if the request may use a secret and its terminal used its nonce in none of the five minutes before the prune; the table then holds that nonce and what is not older; refusals name the first fault and change nothing else |
| ReplayGuard.Broker.RegisterPtyCredential | backend/src/secret_broker.rs:436-460 | refused unless the key is 32 bytes in base64; otherwise it replaces the old key and the terminal is known again |
| ReplayGuard.Broker.RevokePtyCredential | backend/src/secret_broker.rs:462-475 | afterwards no request of the terminal passes |
| SecretGrants.LiveExactlyUnlocked | backend/src/secret_broker.rs:383-434 | the grant query finds a secret if and only if history unlocked it for that terminal and tool, in time, with no later revoke or delete |
| SecretGrants.SecretsAfter | backend/src/secret_broker.rs:224-333 | told by the posts: a secret exists once a post of it was taken and until it is deleted, and holds under each variable the value last given, where later posts named it without one |
| SecretGrants.MergeEnvs | backend/src/secret_broker.rs:528-544 | for any row order: the disjoint union of the environments, or a variable that two of them share |
| SecretGrants.UnionUnique | backend/src/secret_broker.rs:528-544 | the merged environment does not depend on the row order |
| SecretGrants.SecretStore.UseSecret | backend/src/secret_broker.rs:477-558 | answers and refusals in the code's order; on success one audit row for each secret, on refusal none |
| SecretGrants.AnswerIsByHistory | backend/src/secret_broker.rs:477-558 | told by history alone: a redemption succeeds if and only if something is unlocked and no two such secrets share a variable, and hands out exactly the values last given to their variables |
| SecretGrants.SecretStore.UnlockGrant | backend/src/secret_broker.rs:383-410 | succeeds exactly for valid names, a lifetime of 60 to 86400 s, and a secret that exists |
| SecretGrants.SecretStore.RevokeGrant | backend/src/secret_broker.rs:419-434 | every unrevoked matching grant is revoked, nothing else changes |
| SecretGrants.SecretStore.DeleteSecret | backend/src/secret_broker.rs:324-333 | the secret and all its grants go |
| SecretGrants.SecretStore.UpsertSecret | backend/src/secret_broker.rs:224-272 | refused exactly for a bad id, an empty set, or an empty value with nothing stored; otherwise exactly the variables sent are stored, with the value sent or, where it is empty, the one stored before, and the description |
| SecretGrants.KnownAreStored | backend/src/secret_broker.rs:224-272 | after any history a stored secret has exactly the variables of the last post taken, all with a value |
| SecretGrants.SecretStore.ReadSecret | backend/src/secret_broker.rs:274-306 | reading shows the variables and the description, and no value |
| SecretGrants.MergeValues | backend/src/secret_broker.rs:233-246 | the loop keeps the values sent, fills empty ones from those stored, and fails exactly if one is missing |
| SecretGrants.MergedIsWellFormed | backend/src/secret_broker.rs:233-249 | a stored set names the variables of the request and holds no empty value |
| SecretGrants.ReadThenWriteKeeps | backend/src/secret_broker.rs:274-306 | writing back a secret as it is read, with values blank, changes nothing |
| RepoState.StatusFingerprint | backend/src/repo_state.rs:316-336 | the pushes build the header and one line a dirty path in path order |
| RepoState.FingerprintText | backend/src/repo_state.rs:316-336 | the text of a fingerprint, path by path |
| RepoState.FingerprintExactly | backend/src/repo_state.rs:316-336 | for names without newlines and two-letter codes, fingerprints are equal if and only if branch, head, path-to-code map and churn are |
| RepoState.MergedLine | backend/src/repo_state.rs:329-334 | the line of a path that contains another path's line, a newline and a second path is the lines of the two |
| RepoState.NewlinePathsCollide | backend/src/repo_state.rs:316-336 | every status with two dirty paths or more shares its fingerprint with one that shows something else and differs only by a newline in a path |
| RepoState.CollidesExactly | backend/src/repo_state.rs:316-336 | a status without newlines shares its fingerprint with some different status whose paths may hold them, if and only if it has at least two dirty paths |
| RepoState.RepoRow.Reconcile | backend/src/repo_state.rs:184-242 | branch, head, counts, commits and dirty rows are those of the reading, churn absent where git gave none; the revision moves by one exactly if the fingerprint differs |
| RepoState.CommittedExactly | backend/src/repo_state.rs:184-242 | after any reconciles the row is that of the last reading, and the revision the number of times the fingerprint changed |
| RepoState.RevisionRises | backend/src/repo_state.rs:206-224 | over any history the revision never falls |
| RepoState.RevisionIsKey | backend/src/repo_state.rs:206-224 | committed states with equal revisions show the same branch, head, codes and churn |
| RepoState.RevisionMovesExactly | backend/src/repo_state.rs:206-224 | from one reconcile to the next the revision moves if and only if there is something new to show |
| RepoState.RevisionStandsExactly | backend/src/repo_state.rs:206-224 | over a stretch of reconciles the revision stands still if and only if every state in it shows the same |
| RepoState.ServedPair | backend/src/repo_state.rs:246-287 | the revision and rows of two queries belong to one committed state if and only if the rows are the same at both; equal revisions suffice |
| RepoState.ServedAcrossOne | backend/src/repo_state.rs:246-287 | with one reconcile in between, the state still shows the same if and only if the revision stood still; with branch and head unmoved the served pair is right if and only if it did |
| Porcelain.ParsePorcelain | backend/src/git.rs:101-132 | the loop over records computes the fold that the following rows describe |
| Porcelain.PorcelainInverse | backend/src/git.rs:98-132 | records whose codes tell how many paths they have are read back: one count each, one untracked for each `??`, the last code of every path, no original path as a record |
| Porcelain.LastCodeWins | backend/src/git.rs:130 | the code of a path is that of the last record with the path |
| Porcelain.CodesExactly | backend/src/git.rs:118-124 | two-path records are read right exactly under `R `, `RM`, `C ` and `CM`, one-path records exactly under all other codes |
| Porcelain.CodeExactly | backend/src/git.rs:113-115 | the code is the text that two bytes encode in UTF-8, or two blanks if they encode none |
| Porcelain.ShortIgnored | backend/src/git.rs:105-111 | records of fewer than three bytes count for nothing, whatever stands before and after them |
| Launch.LexQuoted | backend/src/api/session_routes.rs:677-679 | by POSIX.1-2017, Shell Command Language, sections 2.2.1, 2.2.2 and 2.3, a shell reads a quoted text as the text itself, whatever it holds |
| Launch.AgentLaunchShellCommand | backend/src/api/session_routes.rs:699-719 | the loop builds the command text of the following row |
| Launch.CommandLexes | backend/src/api/session_routes.rs:699-719 | the shell reads the binary, the fixed words and the arguments as one word each, then `; exec bash` if asked for |
| Launch.LaunchRoundTrip | backend/src/api/session_routes.rs:673-719 | for every agent and argument list the shell runs the binary with the fixed words and exactly those arguments, from which the launcher recovers that agent, real mode and them, if and only if no text holds a NUL |
| Launch.DefaultLaunch | backend/src/api/session_routes.rs:686-697 | a default launch reaches the launcher as that agent, told to skip permissions in that agent's own way |
| Launch.ParseLauncherArgs | backend/src/agent.rs:81-118 | the index loop computes the parse that the following row characterises |
| Launch.LauncherAcceptsExactly | backend/src/agent.rs:81-118 | accepted are exactly understood settings, one of them a type, then `--` and anything, text or not |
| Launch.SpellingParses | backend/src/agent.rs:20-59 | of repeated settings the last one counts, and what follows `--` is passed on untouched |
| Launch.UnderstoodExactly | backend/src/agent.rs:20-59 | the names of agents and modes that are understood, and what they stand for |
| Launch.RefusedExactly | backend/src/agent.rs:81-118 | a refusal names the first thing wrong after understood settings, or a type missing at the end |
| Slugs.SanitisedExactly | backend/src/library.rs:52-73 | sanitising gives slugs, leaves slugs alone, and is idempotent |
| SlugWords.SlugIsWords | backend/src/library.rs:52-73 | a slug is the words of the name joined by dashes, without the characters that neither belong to a word nor end one; there is none without words or if the first starts with a dot |
| Slugs.SanitiseSlug | backend/src/library.rs:52-73 | the dash loop terminates and leaves single dashes |
| Slugs.HalvingKeepsSqueezed | backend/src/library.rs:65-67 | one replacement pass does not change what a text collapses to |
| Slugs.NextAvailableSlug | backend/src/library.rs:83-96 | terminates with the wanted name or the first free numbered one, which is a slug if the wanted one is |
| FrontMatter.ReadBack | backend/src/library.rs:201-256 | a rendered header and text are read back, up to escaping and newlines before the text |
| FrontMatter.ReadHasNoNewline | backend/src/library.rs:201-242 | no value read from any file holds a newline, and no text starts with one |
| FrontMatter.UnescapeEscape | backend/src/future_prompts.rs:296-309 | unquoting undoes the escaping of quotes, for every text |
| FrontMatter.HeaderExactly | backend/src/library.rs:207-211 | a header ends at the first line that starts with three dashes; its lines and the text after it are read |
| FrontMatter.NoHeaderExactly | backend/src/library.rs:207-232 | any other file is all text |
| FrontMatter.SplitExactly | backend/src/library.rs:211 | a line ends at a newline or a carriage return and a newline; the last one needs neither |
| FrontMatter.FieldExactly | backend/src/library.rs:212-222 | a header line is key and value around its first colon, whatever white space is around them; without a colon it is none |
| FrontMatter.ValueExactly | backend/src/library.rs:211-226 | a field has the value that the last header line with its key says |
| FrontMatter.UnquoteExactly | backend/src/library.rs:258-266 | quotes of either kind around a value are taken off, no others |
| FrontMatter.UnescapeFirst | backend/src/library.rs:258-266 | escaped quotes lose their backslash from left to right |
| Library.ParseEntry | backend/src/library.rs:201-242 | the loop over header lines takes the last value of each field |
| Library.RenderEntry | backend/src/library.rs:244-256 | the pushes build the rendered file |
| Library.RenderedText | backend/src/library.rs:244-256 | the text of an entry's file |
| Library.ReadExactly | backend/src/library.rs:201-242 | what is read of any file: the last value of each field, the slug for a missing name, and the text |
| Library.EntryRoundTripExactly | backend/src/library.rs:201-270 | an entry is read back unchanged if and only if its fields hold no newline or backslash and its body starts with no newline |
| Library.RereadExactly | backend/src/library.rs:201-270 | whatever a file held, what is read is read the same after being written back if and only if its fields hold no backslash |
| Library.ListedExactly | backend/src/library.rs:106-113 | a listing names the slug of a file if and only if the slug does not itself end in `.md` |
| Library.Files.Save | backend/src/library.rs:151-181 | one file changes; the creation time is kept; a later read gives the entry exactly under the condition above |
| Library.Files.Create | backend/src/api/library_routes.rs:40-53 | saving under a name adds one new file and alters no other |
| Library.Files.Read | backend/src/library.rs:135-149 | reads the file of the sanitised slug, if there is one |
| Library.Files.Delete | backend/src/library.rs:183-194 | removes that file and no other |
| FuturePrompts.PromptRoundTripExactly | backend/src/future_prompts.rs:230-309 | a prompt is read back unchanged if and only if its times hold no newline and its text starts with none, even with quotes or header-like lines in the text |
| FuturePrompts.ParseEntry | backend/src/future_prompts.rs:230-273 | the loop takes the last time of each kind and the last state that is one |
| FuturePrompts.RenderEntry | backend/src/future_prompts.rs:275-287 | the pushes build the rendered file |
| FuturePrompts.RenderedText | backend/src/future_prompts.rs:275-287 | the text of a prompt's file |
| FuturePrompts.ReadExactly | backend/src/future_prompts.rs:230-273 | what is read of any file: sent exactly if the last line that names a state says so, the last value of each time, and the text |
| FuturePrompts.Prompts.Create | backend/src/future_prompts.rs:154-178 | refused for blank text; otherwise one file is written that reads back as the returned prompt |
| FuturePrompts.Prompts.Update | backend/src/future_prompts.rs:180-210 | whatever the file held, the updated prompt reads back as returned and no other file changes |
| FuturePrompts.Prompts.Delete | backend/src/future_prompts.rs:212-223 | removes the prompt's file and no other |
| FuturePrompts.Prompts.CountPending | backend/src/future_prompts.rs:128-152 | the number of the session's files that read as pending |
| FuturePrompts.SanitisedIdStays | backend/src/future_prompts.rs:66-81 | a sanitised id is left alone |
| FuturePrompts.SanitisedIdExactly | backend/src/future_prompts.rs:66-81 | an id is the letters, digits, dashes and underscores of the text, in order; without any there is none |
| PtyLifecycle.EveryRunIsValid | backend/src/pty.rs:306-337 | after every interleaving: an end time exactly on rows that are not live, no agent in use in dead or orphaned rows, agent and start set while in use, exits after starts, and every mapped session has a row |
| PtyLifecycle.RunsMoveForward | backend/src/pty.rs:461-517 | over any stretch of any run rows move only from live to dead or orphaned to deleted, and an end time never changes |
| PtyLifecycle.ReportsExactly | backend/src/correlate.rs:172-216 | a report moves one row: starts in a live terminal, exits of the agent in use, with agent, times and code column by column |
| PtyLifecycle.SpawnExactly | backend/src/pty.rs:306-337 | a spawn adds one live row and then maps its terminal |
| PtyLifecycle.EndsExactly | backend/src/pty.rs:461-517 | a delete and a death unmap the terminal and then end its row, column by column |
| PtyLifecycle.RestartExactly | backend/src/pty.rs:61-81 | a restart orphans exactly the live rows, ends their agents, and forgets maps and unfinished work |
| PtyLifecycle.MapsDeletedExactly | backend/src/pty.rs:306-340 | while no mapped session is deleted or being deleted, a step changes that if and only if it is the map step of a spawn whose terminal a delete has reached |
| PtyLifecycle.RunMapsDeletedExactly | backend/src/pty.rs:306-340 | throughout a run no mapped session is deleted or being deleted, if and only if no map step comes late |
| PtyLifecycle.PromptMapsAreKept | backend/src/pty.rs:461-485 | if every terminal is mapped before a delete of it begins, no mapped session is deleted or being deleted |
| PtyLifecycle.DeletedCanBeMapped | backend/src/pty.rs:306-340 | a late map step happens: a delete between the row and the map of a spawn |
| PtyLifecycle.PtyManager.Spawn | backend/src/pty.rs:213-340 | adds one live row and maps it; the agent, if any, is starting |
| PtyLifecycle.PtyManager.MarkAgentStarting | backend/src/pty.rs:428-446 | fails without change exactly when the terminal is not live |
| PtyLifecycle.PtyManager.ApplyRuntime | backend/src/correlate.rs:172-216 | an exit of the agent in use sets phase, end time and code and fills in a missing name; a start in a live terminal sets agent and phase and keeps the first start time; in every other case nothing moves |
| PtyLifecycle.PtyManager.Delete | backend/src/pty.rs:461-485 | unmaps the session and deletes the row, keeping an end time it had |
| PtyLifecycle.PtyManager.MarkDead | backend/src/pty.rs:487-517 | unmaps the session; only a live row dies, with end time and code, and takes an agent in use with it |
| PtyLifecycle.PtyManager.ReconcileOrphans | backend/src/pty.rs:61-81 | exactly the live rows become orphaned and their agents exited; they are counted |
| TreeCache.NoStaleListing | frontend/src/state/RepoStore.tsx:168-257 | for every order of actions, answers and failures each listing shown was asked for in the current epoch, for its directory, with the current flag |
| TreeCache.LoadingAwaitedExactly | frontend/src/state/RepoStore.tsx:187-237 | while every loading directory has a current request under way, a step changes that if and only if it is the failure of the one request a loading directory still waits for |
| TreeCache.RunAwaitsExactly | frontend/src/state/RepoStore.tsx:168-257 | throughout a run every loading directory is awaited if and only if no failure is of that kind |
| TreeCache.FailureFreeIsAwaited | frontend/src/state/RepoStore.tsx:168-257 | without failures every loading directory is awaited |
| TreeCache.FailureLeavesLoading | frontend/src/state/RepoStore.tsx:187-237 | a failed load leaves the directory loading, unawaited exactly if nothing else was under way for it, and a plain load does nothing about it |
| TreeCache.NewestExactly | frontend/src/state/RepoStore.tsx:212-232 | while every listing shown is the newest answer, a step changes that if and only if it answers a request after a later one for the directory was settled, or is the failure of a later one |
| TreeCache.RunShowsNewestExactly | frontend/src/state/RepoStore.tsx:187-257 | throughout a run the newest answers are shown if and only if no step is of that kind |
| TreeCache.AnswersInOrderShowNewest | frontend/src/state/RepoStore.tsx:187-257 | without failures, answers in the order of their requests always leave the newest shown |
| TreeCache.OlderAnswerWins | frontend/src/state/RepoStore.tsx:212-232 | such a step happens: the older of two requests is answered last and its listing is shown |
| TreeCache.FlagNeedsTree | frontend/src/state/RepoStore.tsx:168-185 | the flag is taken only for a repository already in use |
| TreeCache.MarksExactly | frontend/src/state/RepoStore.tsx:114-156 | which directories each action marks as expanded or collapsed |
| TreeCache.MarksApart | frontend/src/state/RepoStore.tsx:114-156 | in every run no directory is marked as both |
| TreeCache.RepoTree.ToggleDir | frontend/src/state/RepoStore.tsx:114-134 | moves the directory between the two marks, in a repository in use |
| TreeCache.RepoTree.ExpandPath | frontend/src/state/RepoStore.tsx:136-156 | expands the directories and asks, once each, for exactly those of them and the root that are not known |
| TreeCache.RepoTree.RefreshVisibleDirs | frontend/src/state/RepoStore.tsx:239-257 | if asked, a new epoch without listings; then the root, every expanded and every known directory become loading and are asked for once each |
| TreeCache.RepoTree.SetShowAllTo | frontend/src/state/RepoStore.tsx:168-185 | for a repository in use a new epoch with the flag and no listings; then the root and every expanded directory are asked for with it |
| TreeCache.RepoTree.LoadOne | frontend/src/state/RepoStore.tsx:187-210 | unless known and not forced, the directory becomes loading and is asked for with the current epoch and flag |
| TreeCache.RepoTree.Receive | frontend/src/state/RepoStore.tsx:214-232 | an answer of the current epoch is shown for its directory; any other changes nothing shown |

## Left out

Assumptions of the ingester theorems:

- One transcript file per session; offsets are looked up by session only (backend/src/ingest/file_scan.rs:48-52).
- The file is append-only. The branch for a file shorter than its offset, which resets the offset to 0, is modelled, but no action truncates a file; nothing is claimed of rows after that.
- A database error on one row is logged and the offset still advances past it (backend/src/ingest/ingester.rs:369-374); runs with such errors are not modelled.
- Records without a timestamp get the clock's (backend/src/ingest/ingester.rs:628); the model's timestamp column is empty there.
- One agent per session, and a JSONB payload is read back as it was decoded.
- The file is read at the moment its length is compared; the code stats it a little earlier (backend/src/ingest/file_scan.rs:83-89).
- A reindex does not run beside an ingest of the same session; its relinking of sessions to terminals (backend/src/ingest/reset.rs:56-64) is not modelled.

Assumptions elsewhere:

- That the ancestor walk of the inserted session ends, and that a projection's root does not descend from itself, are hypotheses of the results about them; the code does not establish either.
- ReplayGuard.ReplayExactly: the application's and the database's clock are one nondecreasing clock; the credential is looked up at the clock reading.
- Timestamps in signed requests are far from the limits of 64 bits, and no text bound for the database holds a NUL, which the database would refuse.
- Decryption gives back the environment that was encrypted; grant ids do not collide.
- RepoState.FingerprintExactly: line counts stay below 2^31, where the stored columns would wrap; counts, the last commit's text and the recent commits are stored but not in the fingerprint.
- The application's and the database's clock agree in the terminal lifecycle, and a restart reconciles before anything else runs (backend/src/main.rs:79-85).
- Launch.LexQuoted: the lexer gives no result for text that needs double quotes, expansions or reserved words; no such text occurs unquoted in the command.
- Slugs.NextAvailableSlug: the suffix does not reach 2^31; a concurrent save between the existence check and the write is not modelled.
- The order in which visible directories are asked for is any order; the frontend sorts by locale. One repository at a time, and a reset of the whole store is excluded.

Contracts that say less than the cited code does:

- TranscriptStore.Store.ProcessFile: the branch for a database error and the rebuild of projections after the loop are not part of it.
- TranscriptStore.Store.InsertLine: the metadata upsert and the database-error result are not part of it.
- FileScan.TickAll: one moment stands for the stat and the read of a file, and errors of single files are not part of it.

Not modelled:

- Freshness of timeline projections after a crash or database error: a missed rebuild is not retried (backend/src/ingest/ingester.rs:384-387). Projection rows, filters and rendering are not part of this model.
- The record parsers, the search text, session metadata and the upsert of the session row.
- Cryptography, base64 and token checks beyond their place in the order of checks.
- Correlation of transcript sessions with terminals (backend/src/correlate.rs:127-167), labels and pins: single updates with no invariant of their own.
- The worktree manager, whose fingerprint and revision logic repeats that of the repository state.
- Terminal emulation, web sockets, prompt input, container runner, statistics, routes and components.
