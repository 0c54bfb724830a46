# Verified model of the memory log

Memorize keeps everything it knows in an append-only log of uniquely identified events. Project
state is a fold over that log; machines exchange logs through a store-and-forward relay;
boundaries distil captured observations into memories; a sweep rewrites the un-pushed part of the
log. This project models those parts in Dafny and proves what must stay true when they are
combined: over every run, for every interleaving, on every replica.

All parts share one data structure, a sequence of events plus watermarks that name events, and so
the theorems feed each other. Sync runs keep every log causal, causal logs with the same history
reduce to the same valid memories, and therefore settled replicas agree. A sweep is a subsequence
of a log, so the reducer's laws say what it may change and the boundary's laws say what it may
revive.

| files | what they model |
|---|---|
| `events`, `event_log`, `text`, `sorting` | events and the event table's contract: unique ids, append order, reads after a watermark, insert-or-ignore |
| `lanes`, `dedup`, `projector`, `projector_laws`, `convergence`, `lane_isolation` | the reducer: provenance lanes, tombstones, dedup, identity clashes |
| `replay_laws`, `dedup_laws` | every part of the reduced state read off the log and the records |
| `sync_runs`, `sync_agreement`, `traffic`, `rebinds` | N replicas and any number of relays as a state machine, pushes and pulls cut into single steps, crashes and changes of binding at any time |
| `sync_service`, `watcher`, `workspace` | push, pull, watcher tick, migration, create and join as the services perform them, on stored state |
| `encryption`, `encrypted_runs`, `keyed_sync`, `plain_cipher` | payload encryption, encrypted sync as a refinement of plain sync, the keyed service as such a run, and a cipher that meets the hypotheses |
| `gc`, `gc_laws` | reclaiming un-pushed retracted memories |
| `consolidate`, `boundary_runs`, `boundary_rows`, `consolidate_service` | consolidation boundaries: window, runs with crashes, what a boundary appends, the service |
| `utf8`, `transcript`, `transcript_paths`, `packing` | reading growing transcripts by byte offset, offsets kept by file name; packing turns into segments |
| `contradictions`, `pass_laws`, `contradiction_passes` | one contradiction pass over decisions, what it resolves, and any number of passes over a log |
| `live_share`, `share_laws`, `share_sweeps` | what one session is shown of its siblings, and what not, with sweeps of the log in between |
| `embeddings`, `version`, `fts_query` | the smaller loops and recursions |

`dafny verify dfyconfig.toml` checks the whole project.

## How to read it

- Code that updates stored state is a class or a method with loops, proved against a specification
  function or predicate; the laws are lemmas about that specification.
- Concurrency is a state machine whose steps are the smallest writes of the source. A step that is
  not enabled changes nothing, so a theorem about all sequences of steps is a theorem about all runs.
- Extractors, judges, embedding servers, ciphers, clocks and id generators are parameters. Fresh
  ids, and the fact that ids hold no NUL, comma or newline, are hypotheses where they are needed.
- The event store, the file lock and SQLite appear through their contracts: a batch append is atomic,
  an external insert ignores known ids and keeps order, an unknown watermark reads the whole log.

## Where the code and its promises differ

Each of these is a lemma with a concrete witness, an exact condition, or both.

- With an explicit self id the reducer is meant never to throw. It does when a `project.updated`
  patches the id and the same genesis arrives again. It stops exactly when a genesis of the store's
  own meets a project that by then goes by another id. Neither emitter of `project.updated` writes an
  id, so only an event from elsewhere can bring this about; without such patches it never stops.
- A closed memory can reopen when a second genesis turns the log into a union and an unstamped retract
  thereby changes lanes; exactly when no event aimed at it counts under the new lanes. A dedup loser
  reopens when its winner is closed; exactly when it is the runner-up.
- The newer of two contradicting decisions is meant to stay. Closing the older one reopens its newest
  duplicate, though, and a later pass can then close the decision that had won. The newest valid decision
  outlives every sequence of passes exactly when no own decision that no event has closed, dedup losers
  included, is newer without being its duplicate.
- The relay cursor names the last line read, but reads resume after the first line with that id. A
  push that ends in an event the relay already holds leaves a repeated last line; from then on the
  probe of a caught-up replica is never empty, and its log grows by one bookkeeping event on every
  watcher tick.
- A store changes its binding in two ways. A migration to a minted workspace drops both watermarks;
  `sync --bind`, `remote`, a new transport, and creating or joining a workspace keep them. A kept
  watermark stands for lines of the old relay: on a relay that has none of the log's ids the promise
  holds after the bind exactly when neither watermark is set.
- Neither way waits for anything. A push or pull that outlives its binding stores its watermark under the
  new one. On a relay that has none of its events this breaks the promise of the watermark exactly when the
  batch was not empty; after such a pull, settling no longer makes the replicas agree.
- A line can go out twice. Call a line loose while no watermark of its sender stands for it: from its
  sending to the next mark, and again after a migration. After any run whatever, a whole push repeats exactly
  the loose lines of its relay. So a replica that never crashed repeats something exactly when it has no push
  watermark and sent something to that relay before, and a first crash in the middle of a push makes
  the next one repeat exactly the lines that were out.
- A sweep repairs the consolidation watermark but not those of live sharing. If it takes the row such a
  watermark names, the next call reads the whole log, and so rows it has shown before; exactly when a row
  before the watermark is left, which the genesis always is.
- The sweep looks at raw retracts, not at the ones the reducer honours, so in a union log it can
  delete a valid memory. It preserves the valid memories exactly when no eligible memory is valid.
  `reclaimedObservations` is documented as a subset of `reclaimedEvents` but counts source entries;
  the two readings agree exactly when no deleted observation is shared by two reclaimed memories or
  listed twice by one.
- A boundary that crashes between its append and its rebuild hands its window out again, exactly as
  long as the table holds no memory of it. A completed boundary whose watermark is lost does so exactly
  when it yielded no project memory and no other memory holds the observation.
- A capped transcript read that finds its only newline at the first character consumes the whole
  buffer. Lines strictly under the cap are safe; a blank line before a line of exactly the cap is not.
- Transcript offsets are kept by file name. Every run over a set of transcripts tiles each of them
  exactly when no two go by the same name.
- An embedder promises one vector per input but does not count the rows of a reply; it keeps the promise
  exactly when the server answers every request it can make with one row per input.

## Model

| member | source | states |
|---|---|---|
| Lanes.ParseUndoesKey | src/projections/projector.ts:94-104 | splitting a composite key gives back lane and id exactly when the part before the separator holds none |
| Sorting.SortIsStable | src/projections/projector.ts:614-616 | ties come out of a sort in the order they came in |
| Dedup.DedupKeyExact | src/projections/projector.ts:185-194 | two records share a dedup key exactly when lane, source multiset, kind and normalised text agree |
| Text.NormalizedExactly | src/projections/projector.ts:191 | two texts count as one exactly when, blanks at both ends and the case of ASCII letters aside, they are the same |
| DedupLaws.DedupeIsTold | src/projections/projector.ts:179-216 | read off the records, without keys or sorting: closed and sourceless memories stay as they are; of memories of one lane, kind, source multiset and text the earliest stays, and the others are closed at its creation time and name it |
| Dedup.GroupKeepsItsLeast | src/projections/projector.ts:165-178 | a memory is valid after the pass exactly when it was open and is the least of its group by creation time and id |
| Dedup.LoserNamesWinner | src/projections/projector.ts:208-214 | a competing memory that is not valid afterwards points at the winner of its group, which is |
| Dedup.DedupeIsIdempotent | src/projections/projector.ts:179-216 | running the pass on its own result changes nothing |
| Dedup.DedupeMemoriesBySource | src/projections/projector.ts:179-216 | grouping, sorting and marking yield the specified pass for every order in which the map may list its records |
| Projector.PrescanGenesis | src/projections/projector.ts:253-269 | one loop finds the anchoring genesis id and whether the log is a union |
| Projector.ReduceProjectState | src/projections/projector.ts:218-595 | the replay loop with its early stop, then the dedup pass, equals the reduction defined by recursion on the log, which ReplayLaws reads off the log |
| Projector.DivergenceStays | src/projections/projector.ts:299-306 | a replay that stopped on a prefix stops on the whole log with the same clash |
| ReplayLaws.MemoryIsReadOff | src/projections/projector.ts:501-568 | read off the log: a memory is its last birth, in the lane of that event; its successor is the one the last supersede since names, its closing time, retraction and retracting writer those of the first or last event that could set them; dedup touches only the closing time of an open one |
| ReplayLaws.RecordIsReadOff | src/projections/projector.ts:501-556 | the same of the record before the dedup pass |
| ReplayLaws.TaskIsReadOff | src/projections/projector.ts:321-352 | the task under a key is its last creation with title, status and handoff of the last patch to set each, its lists grown by the items appended since, in order, and its update time |
| ReplayLaws.TasksAreInOrder | src/projections/projector.ts:321-323 | tasks are listed by the first creation of their key |
| ReplayLaws.ActiveTasksAreReadOff | src/projections/projector.ts:579-587 | the active tasks are those of the self lane whose last status since their creation is neither done nor cancelled, in that order |
| ReplayLaws.TopTasksAreNewest | src/projections/projector.ts:638-657 | the startup index shows at most 20 open own tasks, newest first, and leaves out none that is newer than one it shows |
| ReplayLaws.SessionIsReadOff | src/projections/projector.ts:426-494 | the session under a key is its last start with the status of the last change since, the end of the last completion or abandonment, and the time it was last seen |
| ReplayLaws.EntriesAreReadOff | src/projections/projector.ts:274-500 | handoffs, observations and member projects are the last ones logged under their key |
| ReplayLaws.ProjectIsReadOff | src/projections/projector.ts:274-317 | the project is its last own genesis with id, title and summary of the last update since to set each |
| ReplayLaws.ReducedIsReplayed | src/projections/projector.ts:562-592 | the finished state differs from the replayed one in the dedup pass and the active tasks alone |
| ReplayLaws.OwnLaneExactly | src/projections/projector.ts:126-137 | which events are the store's own: stamped with its id, or unstamped and either of its project or in a log of one identity |
| ProjectorLaws.StopsExactlyOnTwoIdentities | src/projections/projector.ts:250-306 | without id patches the reducer stops exactly when no self id is given and the log holds two distinct genesis ids |
| ProjectorLaws.StopsExactlyWhenMisnamed | src/projections/projector.ts:274-317 | id patches included, it stops exactly when an own genesis arrives while the project goes by another id |
| ProjectorLaws.IdPatchCanStopAReplay | src/projections/projector.ts:310-317 | a log with an explicit self id and an id patch, which only an event from elsewhere can be, on which the reducer stops |
| ProjectorLaws.RetractedOnlyWithAuthority | src/projections/projector.ts:529-556 | in any log a record ends retracted only if a retract came from its own lane or was stamped owner |
| ProjectorLaws.TombstonesHaveAuthority | src/projections/projector.ts:529-568 | the same for the finished state: dedup adds no tombstone |
| ProjectorLaws.ClosedStaysClosed | src/projections/projector.ts:514-556 | a memory closed by an event is closed in every longer log in which it is not consolidated anew |
| ProjectorLaws.ReopensExactlyWhenLanesSplit | src/projections/projector.ts:126-137 | when a second genesis makes the log a union, a closed memory reopens exactly when none of its closers counts any more |
| ProjectorLaws.SecondGenesisReopens | src/projections/projector.ts:126-137 | a log on which that happens: the second genesis arrives and a retracted memory is valid again |
| ProjectorLaws.RunnerUpComesBack | src/projections/projector.ts:201-214 | when the winner of a group is closed, a loser becomes valid exactly when it is the runner-up |
| Convergence.RecordIsTold | src/projections/projector.ts:501-556 | in a causal log a record is decided by its birth and by the set of events aimed at it, not by their order |
| Convergence.LogsConverge | src/projections/projector.ts:562-568 | two causal logs with the same events in any order reduce to the same valid memories, the same open records and the same dedup winners |
| Convergence.UnionConvergence | src/projections/projector.ts:126-137 | two members reducing one union log, each with its own self id, agree on valid memories and dedup winners |
| Convergence.OneGenesisOneAnchor | src/projections/projector.ts:259-269 | a log with one identity anchors itself the same way wherever its genesis sits |
| LaneIsolation.LaneIsolation | src/projections/projector.ts:570-592 | own tasks, handoffs, sessions, active tasks and top tasks are those of the own events alone |
| LaneIsolation.LaneIsolationWithoutIdPatches | src/projections/projector.ts:570-592 | without id patches both replays finish, so the same holds outright |
| EventLog.InsertMembers | src/storage/event-store.ts:187-226 | an external insert loses nothing and invents nothing |
| EventLog.InsertKeepsPrefix | src/storage/event-store.ts:187-226 | it only appends: the log so far stays where it is |
| EventLog.InsertKeepsClosed | src/storage/event-store.ts:187-226 | it keeps every supersede and retract after the birth it aims at, given a batch that does |
| Encryption.BatchOpensExactly | src/services/encryption-service.ts:125-149 | a batch of clear lines and of lines sealed by any keys opens exactly when each sealed one was sealed by this key and still carries its own id; it then yields the original events |
| Encryption.BatchRoundTrip | src/services/encryption-service.ts:156-169 | decrypting what was encrypted gives back the batch |
| KeyedSync.KeyedPushSeals | src/services/sync-service.ts:218-231 | a push with a key puts on the relay, for each pending event in order, a sealed line under the id of the event; the key opens the batch to exactly what was pending, and no other key, nor a store without one, opens it |
| KeyedSync.NothingLeavesInClear | src/services/sync-service.ts:218-231 | over every run in which all replicas hold the key, every line of every relay is sealed and closed to any other key |
| PlainCipher.SoundCanBeMet | src/services/encryption-service.ts:98-145 | a cipher that writes key, id and payload out in full opens exactly what it sealed, under the same key and id, for every payload |
| SyncRuns.NextKeepsInv | src/services/sync-service.ts:126-316 | every single step of append, push, pull, crash, migration and bind keeps the sync invariant, in the middle of a push or a pull too; excepted are a mark that reaches another binding than its own, and a bind that carries a watermark to a relay which does not go on from the bound one |
| SyncRuns.SyncSafety | src/services/sync-service.ts:147-177 | over every run without such late marks and blind binds: what lies at or below a push watermark is on the relay, what lies at or below a pull watermark is in the log, and every log and relay stays causally closed |
| SyncRuns.WaitingRunsAreCareful | src/services/workspace-service.ts:570-587 | if every change of binding finds its replica with nothing in flight and no bind is blind, no mark of the run is late |
| SyncRuns.BlindBindExactly | src/cli/commands/project.ts:551-555 | a bind to a relay that has none of the log's ids: the promise holds after it exactly when neither watermark is set |
| SyncRuns.LatePushMarkExactly | src/services/sync-service.ts:232-236 | a push that outlives its binding, on a new relay with none of its events: the promise holds after the mark exactly when the batch was empty |
| SyncRuns.LatePullMarkExactly | src/services/sync-service.ts:164-177 | a pull that outlives its binding, on a new relay with none of its events: the promise holds after the cursor is stored exactly when the slice was empty |
| SyncAgreement.WholePush | src/services/sync-service.ts:179-237 | an uninterrupted push appends exactly the pending events and marks the last of them |
| SyncAgreement.WholePull | src/services/sync-service.ts:239-316 | an uninterrupted pull inserts exactly the lines after the cursor and moves it to the last of them |
| SyncAgreement.QuiescentAgreement | src/services/sync-service.ts:179-316 | from any state reachable without late marks, one push by all and then one pull by all leaves all logs with the same shareable events |
| SyncAgreement.SyncedLogsAreCausal | src/services/sync-service.ts:157-163 | every log a run can produce is one the convergence theorem applies to |
| SyncAgreement.SettledReplicasAgree | src/projections/projector.ts:562-568 | after such a round replicas with one self id agree on valid memories and winners |
| SyncAgreement.SettledMembersAgree | src/projections/projector.ts:111-137 | after such a round workspace members with different self ids agree as well |
| SyncAgreement.ProbeIsEmptyExactly | src/adapters/sync-transport-file.ts:47-63 | once everything is pulled the next probe is empty exactly when the last line has no earlier copy |
| Rebinds.BindBreaksThePromise | src/services/workspace-service.ts:630-657 | a run from empty logs after which the promise holds with nothing in flight, and no longer once a bind has changed the remote id alone |
| Rebinds.LatePushBreaksThePromise | src/services/workspace-service.ts:570-587 | a run from empty logs in which a push finishes after a migration, and its watermark names what the new relay never got |
| Rebinds.LatePullSkipsLines | src/services/workspace-service.ts:570-587 | a run from empty logs in which one store migrates during a pull, which then finishes, and a store that never synced joins the new workspace; settling leaves the two with different histories |
| Traffic.WholePushRepeatsExactly | src/services/sync-service.ts:126-155 | after every run, crashes, migrations and binds included, a whole push repeats exactly the lines of its relay that no watermark of the replica stands for |
| Traffic.WithoutCrashRepeatsExactly | src/services/sync-service.ts:126-145 | a replica that never crashed and has nothing in flight repeats a sending exactly when it has no push watermark and sent something to its relay before |
| Traffic.CrashRepeatsExactly | src/services/sync-service.ts:228-235 | after a first crash in the middle of a push the next whole push repeats exactly the lines that were out, so something exactly when one was; a push watermark is kept, or no migration dropped one |
| Traffic.NoMarkRepeatsAll | src/services/sync-service.ts:126-145 | after every run a replica without a push watermark sends its relay everything again that it ever sent there |
| Traffic.CleanRunSendsOnce | src/services/sync-service.ts:126-155 | if every push of a run begins where none of its lines is loose, no replica sends an event to a relay twice, whatever crashed |
| Traffic.EachEventIsSentOnce | src/services/sync-service.ts:132-155 | in a run without crashes in which no change of binding goes back to an earlier relay, no replica sends an event to a relay twice, whatever was in flight |
| Traffic.RelayLengthIsBounded | src/adapters/sync-transport-file.ts:30-37 | a run whose pushes all begin clean leaves every relay no longer than replicas times the distinct events on it |
| Rebinds.ReturnSendsAgain | src/cli/commands/project.ts:551-555 | a run without crashes in which a store is migrated once, bound back by hand while it has no watermark, and sends its old relay an event again |
| Rebinds.CrashSendsAgain | src/services/sync-service.ts:228-235 | a run that never changes a binding, in which a crash between a line and its mark has the event sent again |
| SyncService.FileRelay.Push | src/adapters/sync-transport-file.ts:20-45 | the relay grows by the batch, line by line, and the ids come back in order |
| SyncService.FileRelay.Pull | src/adapters/sync-transport-file.ts:47-63 | the lines after the first occurrence of the cursor, or all of them |
| SyncService.SyncStore.BuildPushPayload | src/services/sync-service.ts:126-145 | everything after the watermark but bookkeeping, in order |
| SyncService.SyncStore.InsertExternalEvents | src/storage/event-store.ts:187-226 | the log becomes the insert-or-ignore of the batch, and the count is its growth |
| SyncService.SyncStore.PushProject | src/services/sync-service.ts:179-237 | self-binding, status writes, encryption, append and watermark amount to the stated new log, state and relay; KeyedSync.KeyedPushSeals says what the new lines are |
| SyncService.SyncStore.PullProject | src/services/sync-service.ts:239-316 | a batch that cannot be read changes neither log nor state; any other is inserted, marked and reported |
| SyncService.ServicePushIsWholePush | src/services/sync-service.ts:179-237 | a plaintext push of the service is the whole push of the run model plus bookkeeping |
| SyncService.ServicePullIsWholePull | src/services/sync-service.ts:239-316 | a plaintext pull of the service is the whole pull of the run model plus bookkeeping |
| EncryptedRuns.WhoCanRead | src/services/sync-service.ts:268-286 | without a key a batch is readable exactly when no line of it is sealed; with the key it was sealed under, always |
| EncryptedRuns.OneWireStep | src/services/sync-service.ts:218-231 | each step of a keyed world is one step of the world with everything opened |
| EncryptedRuns.EncryptedRunRefines | src/services/sync-service.ts:218-299 | every keyed run is a plain run with the same replica logs and watermarks |
| EncryptedRuns.EncryptedSyncSafety | src/services/sync-service.ts:218-299 | so the sync promise holds of keyed runs without late marks, read through the key |
| KeyedSync.PushIsWirePush | src/services/sync-service.ts:179-237 | a push of the service, keyed or not, is the whole push of the keyed runs plus bookkeeping: begin, one sealed line per event, mark |
| KeyedSync.PullIsWirePull | src/services/sync-service.ts:239-316 | a pull of the service, keyed or not, is the whole pull of the keyed runs plus bookkeeping, and an unreadable one leaves both as they were |
| Watcher.WatcherTick | src/services/watcher-service.ts:238-277 | one tick is a pull and, exactly when own unsent work exists and no push is under way, a push |
| Watcher.TickSendsExactly | src/services/watcher-service.ts:253-277 | a tick sends something exactly when syncing is set up, no push is marked as under way and a row past the push watermark, which is not the newest row, is no bookkeeping and not stamped by another store; it then sends all that is pending |
| Watcher.TickIsIdleExactly | src/services/watcher-service.ts:229-237 | a tick leaves log, state and relay alone exactly when there is nothing to fetch, no status to reset and nothing of one's own to send |
| Watcher.StillForever | src/services/watcher-service.ts:263-273 | from such a site any number of ticks changes nothing, bookkeeping head or not |
| Watcher.CaughtUpIsStillExactly | src/services/watcher-service.ts:253-273 | a caught-up site is still exactly when the last relay line has no earlier copy |
| Watcher.PushRepeatsLastLineExactly | src/services/watcher-service.ts:232-235 | a push leaves a repeated last line exactly when its last event was on the relay before |
| Watcher.NeverStill | src/services/sync-service.ts:301-307 | with a repeated last line the log of a caught-up site grows by one event on every tick, for ever |
| Watcher.RepeatedLineIsReachable | src/services/sync-service.ts:301-307 | a run from empty logs that leads to such a site: mint an event, pull another, push both |
| Watcher.HeadCheckHidesNothing | src/services/watcher-service.ts:257-262 | returning early when the head is the watermark never hides unsent work |
| Workspace.BoundStore.ReconcileWorkspaceBinding | src/services/workspace-service.ts:525-588 | exactly when it leaves the binding alone, backfills, migrates or refuses, the whole new binding, and that a second call finds nothing to do |
| Workspace.BoundStore.CreateWorkspace | src/services/workspace-service.ts:70-101 | a bound store is left alone; otherwise the minted workspace is patched into the binding and both watermarks stay |
| Workspace.BoundStore.JoinWorkspace | src/services/workspace-service.ts:144-178 | a bound store refuses; otherwise the joined workspace is patched in, reachable by invite, and both watermarks stay |
| Workspace.AdoptionIsABind | src/services/workspace-service.ts:630-657 | creating and joining are the bind step of the run model, whatever is in flight: no event at or below the push watermark is sent to the workspace |
| Workspace.MigrationIsARebind | src/services/workspace-service.ts:570-587 | a migration is the rebind step of the run model, whatever is in flight: the whole log is pending again and the relay is read from its start |
| Gc.LocalStore.GcUnpushedRetracted | src/services/gc-service.ts:65-209 | indexing, eligibility, shielding, deletion and watermark repair yield the specified log, watermark and report; a dry run changes nothing |
| Gc.IndexLog | src/services/gc-service.ts:96-117 | the last birth and capture of every id, and all retracts by target in first-seen order |
| Gc.FindEligible | src/services/gc-service.ts:119-139 | exactly the retracted memories whose birth and captured sources all lie above the push watermark |
| Gc.CollectShielded | src/services/gc-service.ts:141-149 | exactly the observations some surviving memory was distilled from |
| Gc.MarkUnits | src/services/gc-service.ts:151-165 | exactly the ids of births, retracts and orphaned captures of eligible memories |
| Gc.LastSurvivor | src/services/gc-service.ts:182-192 | the last surviving row at or before a deleted watermark |
| GcLaws.SweptIsUnpushed | src/services/gc-service.ts:76-87 | in a causal log everything deleted lies above the push watermark |
| GcLaws.PushedPartSurvives | src/services/gc-service.ts:76-87 | the pushed part is untouched, and the next push reads the survivors of what it would have read |
| GcLaws.WindowLosesOnlyTheDeleted | src/services/gc-service.ts:177-200 | for every watermark, absent, unknown, kept or deleted, the window after the sweep is the window before it minus the deleted events |
| GcLaws.SurvivorsKeepTheirSources | src/services/gc-service.ts:141-149 | a memory that stays keeps every capture it was distilled from |
| GcLaws.NoRevivalAfterGc | src/services/gc-service.ts:26-34 | for every watermark, a lost one included, the next boundary is handed no source of a reclaimed memory |
| GcLaws.SecondSweepDeletesNothing | src/services/gc-service.ts:65-209 | a second sweep deletes nothing, reclaims nothing and moves no watermark |
| GcLaws.GcKeepsValidExactly | src/services/gc-service.ts:119-198 | in a causal log the valid memories are the same before and after exactly when no eligible memory was valid |
| GcLaws.GcPreservesMeaning | src/services/gc-service.ts:15-34 | when every retract is effective, valid memories, their records and every surviving winner link are unchanged |
| GcLaws.DeafRetractDeletesAValidMemory | src/services/gc-service.ts:108-139 | a union log in which a retract the reducer ignores gets a valid memory deleted |
| GcLaws.ReclaimedEventsIsTheLoss | src/services/gc-service.ts:167-173 | the reported event count is what the log loses |
| GcLaws.ReclaimedObservationsCountsEntries | src/services/gc-service.ts:36-48 | the reported observation count is at least the captures deleted, and equal exactly when no deleted observation is listed twice by a reclaimed memory or shared by two |
| GcLaws.ReclaimedObservationsOvercounts | src/services/gc-service.ts:157-164 | two reclaimed memories of one boundary share an observation, and the count is larger |
| BoundaryRuns.TableTellsLog | src/services/consolidate-service.ts:1076-1094 | a rebuilt table holds exactly the consumed observations that the log does |
| BoundaryRuns.NextKeepsInv | src/services/consolidate-service.ts:1200-1464 | every step of a boundary, and everything that may come between two of them, keeps the boundary invariant |
| BoundaryRuns.NeverSkips | src/services/consolidate-service.ts:1277-1288 | over every run each capture at or before the watermark went to a successful extraction or is held by a memory |
| BoundaryRuns.NeverRepeats | src/services/consolidate-service.ts:1076-1083 | after a completed boundary with a project memory none of its observations is handed out again, whatever is lost or crashes |
| BoundaryRuns.NeverRepeatsWhileKept | src/services/consolidate-service.ts:1452-1459 | while the watermark is kept no completed boundary is repeated, memories or none |
| BoundaryRuns.WatermarkNeverMovesBack | src/services/consolidate-service.ts:1452-1459 | no step short of losing it moves the watermark back |
| BoundaryRuns.RebuildShieldsAfterCrash | src/services/consolidate-service.ts:1381-1405 | a boundary that crashed after its append is not repeated once the table was rebuilt |
| BoundaryRuns.RepeatsAfterCrashExactly | src/services/consolidate-service.ts:1381-1405 | over every run, a boundary that crashes after its append hands an observation of its window out again exactly when the table holds no memory of it |
| BoundaryRuns.CrashBeforeRebuildRepeats | src/services/consolidate-service.ts:1381-1405 | a run in which a crash between append and rebuild hands an observation out twice |
| BoundaryRuns.RepeatsAfterLossExactly | src/services/consolidate-service.ts:1084-1094 | over every run, a completed boundary that loses its watermark hands an observation out again exactly when it yielded no project memory and no other memory holds it |
| BoundaryRuns.EmptyBoundaryRepeatsAfterLoss | src/services/consolidate-service.ts:1084-1094 | a run in which a completed boundary without memories is repeated after losing its watermark |
| BoundaryRuns.SupersedesAreSound | src/services/consolidate-service.ts:1329-1347 | every supersede of a batch aims at one of the given valid memories, no two at the same, each right after its successor's birth |
| BoundaryRuns.BoundariesCloseOwnOnly | src/services/projection-store.ts:792-800 | whatever was extracted, a boundary closes only memories of the store's own lane that were valid when it began |
| BoundaryRuns.OneBirthPerItem | src/services/consolidate-service.ts:1299-1328 | a batch holds one birth per project item, in order, each with the whole window as its sources; BoundaryRows.BatchIsTold says what each holds |
| BoundaryRows.BatchIsTold | src/services/consolidate-service.ts:1299-1348 | field by field: for each project item in order a birth with its kind, text and salience, the mint's ids and time, the stamp's session, project and writer and the window's observations as sources; then a supersede by that memory if the item names a memory still valid that no item before it named |
| BoundaryRows.WindowIsTold | src/services/consolidate-service.ts:1205-1220 | the window is exactly the captures past the watermark that no memory of the table holds, in log order |
| BoundaryRows.BoundaryIsTold | src/services/consolidate-service.ts:1205-1348 | the same of a whole boundary: what its rows are, from the log, the watermark, the table, the extractor's answer and the mints |
| ConsolidateService.ProjectStore.PendingWindow | src/services/consolidate-service.ts:1205-1220 | the captures after the watermark, and those of them no memory in the table was distilled from |
| ConsolidateService.ProjectStore.Consolidate | src/services/consolidate-service.ts:1200-1478 | one boundary, its contradiction pass included, takes the store where the run of its steps does, for each way it can end; what it adds to the log is told field by field; offsets move only when it is done |
| ConsolidateService.BuildInputs | src/services/consolidate-service.ts:1299-1348 | the item loop builds the specified batch |
| ConsolidateService.FindPath | src/services/consolidate-service.ts:1228-1230 | the path of the latest observation that has one, else the fallback |
| ConsolidateService.PathIsTold | src/services/consolidate-service.ts:1228-1230 | that path is the one on the last observation of the window that names one, and the caller's exactly when none does |
| ConsolidateService.RebuildsForSegments | src/services/consolidate-service.ts:1400-1405 | a boundary without project memories rebuilds the table exactly when raw conversation is kept and there is some |
| ConsolidateService.BoundaryIsPathStep | src/services/consolidate-service.ts:710-741 | the stored offsets of a boundary move as one read, or one failed read, of its path in a run over many transcripts |
| Utf8.DecodeUndoesEncode | src/services/transcript-reader.ts:117 | decoding undoes encoding, whatever follows |
| Utf8.DecodingIsStrict | src/services/transcript-reader.ts:117 | bytes that decode without a replacement character are the encoding of what they decode to |
| Utf8.DecodeOneExactly | src/services/transcript-reader.ts:117 | a character at the front is decoded; where none stands, one replacement takes the place of the longest beginning of one, or of one byte |
| Utf8.CutText | src/services/transcript-reader.ts:120-121 | a byte cut decodes to whole characters and at most one replacement character |
| Transcript.ReadConversationSince | src/services/transcript-reader.ts:96-136 | clamping, capping and cutting yield the specified slice |
| Transcript.SliceIsTold | src/services/transcript-reader.ts:105-130 | where a read starts, that it takes all of at most a mebibyte, and of more one mebibyte up to its last newline, if that is not its first character |
| Transcript.NewDataAdvances | src/services/transcript-reader.ts:111-130 | whatever the bytes, a read with new data moves strictly forward, and one without returns nothing |
| Transcript.ReadEndsAtLine | src/services/transcript-reader.ts:119-128 | where lines fit, a read from a line ends at a later line and shows exactly the lines between |
| Transcript.CappedCutExactly | src/services/transcript-reader.ts:119-128 | a capped read ends at a line exactly when it holds a newline past its first character |
| Transcript.MisfitEndsInsideALine | src/services/transcript-reader.ts:122-125 | otherwise it ends inside a line |
| Transcript.SlicesTileTheTranscript | src/services/consolidate-service.ts:710-741 | one transcript alone: over every run of growth and of boundaries that succeed or fail, recorded slices tile a prefix of it and the offset is its end |
| Transcript.EveryLineIsInOneSlice | src/services/consolidate-service.ts:710-741 | every line of that prefix lies in exactly one slice |
| Transcript.ShortLinesTile | src/services/transcript-reader.ts:22-25 | lines strictly under the cap, newline included, always tile |
| Transcript.BlankLineThenLongLine | src/services/transcript-reader.ts:122-125 | a transcript with lines of at most the cap whose first read ends inside a line |
| TranscriptPaths.OwnNameTiles | src/services/consolidate-service.ts:710-741 | many transcripts: one whose file name no other path read shares is tiled just as if it were alone |
| TranscriptPaths.SharedNameBreaksTiles | src/services/consolidate-service.ts:718-720 | any two paths of one name: a run in which every line fits and the second transcript is not tiled |
| TranscriptPaths.TilesExactlyWhenNamesDiffer | src/services/consolidate-service.ts:710-741 | every run over a set of paths tiles each of them exactly when no two go by the same file name |
| TranscriptPaths.BasenameOfFile | src/services/consolidate-service.ts:718-720 | a file in any directory goes by its own name, trailing slashes aside |
| Packing.SplitRejoins | src/services/transcript-reader.ts:48 | splitting at blank lines loses nothing |
| Packing.TurnsJoin | src/services/transcript-reader.ts:48 | the turns of two texts with a blank line between them are the turns of the first and then of the second, whatever newlines they end and begin with |
| Packing.TurnsOfOne | src/services/transcript-reader.ts:48 | a text without blank lines is one turn, without the blanks around it, or none if it is all blanks |
| Packing.ChunkConversation | src/services/transcript-reader.ts:47-60 | the loop's segments are consecutive whole turns, each small enough or a single turn, each closed only because the next turn did not fit; rejoined they are the turns, and no division into fitting segments has fewer |
| Packing.SegmentsRejoin | src/services/transcript-reader.ts:40-46 | segments put back together with blank lines are the turns put together with blank lines |
| Packing.GreedyIsShortest | src/services/transcript-reader.ts:40-46 | no division into consecutive fitting segments has fewer of them |
| LiveShare.BuildLiveUpdate | src/services/realtime-share-service.ts:293-422 | the capped window, sibling and memory items ranked and capped, one collision per path, the new watermark; ShareLaws.UpdateIsTold says which items those are |
| ShareLaws.UpdateIsTold | src/services/realtime-share-service.ts:306-422 | read off the log: all shown lies among the last 200 rows past the watermark; siblings' observations come newest first and none left out is newer than one shown; no memory left out is more salient than one shown; each path both sides wrote is warned about once, by its earliest write, up to the caps of 5, 3 and 3 |
| ShareLaws.NewestIsShown | src/services/realtime-share-service.ts:401-404 | an observation of a sibling that is newer than every other in reach is shown, and first |
| LiveShare.ShareSession.ComposeLiveUpdate | src/services/realtime-share-service.ts:484-572 | a first call seeds the watermark silently; later calls advance it over all they read and show what has content |
| LiveShare.AtMostOnce | src/services/realtime-share-service.ts:535-546 | over every run of calls, appends and sweeps that spare the row of the watermark: windows are disjoint and in order, nothing is delivered twice, nothing of one's own capture, nothing before the cold start |
| LiveShare.SweepRereadsExactly | src/services/gc-service.ts:177-200 | the call after a sweep reads rows at or below the watermark again exactly when the sweep took the row the watermark names and left one before it |
| ShareSweeps.SweepIsAStep | src/services/gc-service.ts:192-200 | what the sweep does to the log, with any push watermark, is such a step of the runs |
| ShareSweeps.SweptWatermarkRepeats | src/storage/event-store.ts:301-309 | a log ending in the birth and the retract of an un-pushed memory: a sweep takes both, and a session is shown a sibling's observation a second time |
| Embeddings.HttpEmbedder.EmbedPacked | src/services/embeddings-service.ts:112-142 | halving and truncating, request by request, ends and equals the specified recursion |
| Embeddings.HttpEmbedder.Embed | src/services/embeddings-service.ts:91-110 | the batch loop equals packing first and sending the batches in order |
| Embeddings.PackKeepsAll | src/services/embeddings-service.ts:93-107 | packing loses no text and keeps the order |
| Embeddings.PackedRequestsAreSmall | src/services/embeddings-service.ts:93-107 | first requests stay under the limit unless they hold a single text |
| Embeddings.PackIsGreedy | src/services/embeddings-service.ts:93-107 | a request is closed only over a text that would have taken it past 6000 characters |
| Embeddings.RetriesAreTold | src/services/embeddings-service.ts:119-141 | a request is repeated exactly when it is turned down with 400 or 413 and holds several texts or one over 512 characters: by its first half, the middle text included, or by the first half of the text, at least 512 characters |
| Embeddings.EmbedAnswersEach | src/services/embeddings-service.ts:83-90 | if it returns, each input has one vector, in order, for its text or a prefix not under the floor |
| Embeddings.EveryCallAnswersExactly | src/services/embeddings-service.ts:174-178 | every call does so exactly when the server answers every request the embedder can make with one row per input |
| Embeddings.SilentServerIsTaken | src/services/embeddings-service.ts:168-178 | a server that answers every request with no row: a call with one text returns without a vector |
| Embeddings.NoSizeErrorEscapes | src/services/embeddings-service.ts:129-139 | a server that takes every text up to the floor lets no size error out |
| Embeddings.OtherErrorsComeOut | src/services/embeddings-service.ts:119-141 | any other error ends the call at once and comes out unchanged |
| Embeddings.SortRestoresInputOrder | src/services/embeddings-service.ts:174-178 | rows in any order are put back in input order by their index |
| Contradictions.OrderByRecency | src/services/contradiction-service.ts:118-127 | of two memories the strictly older one is the loser |
| Contradictions.DetectContradictions | src/services/contradiction-service.ts:205-320 | the candidate and resolution loops compute the specified pass, which PassLaws.PassIsTold tells |
| PassLaws.GivenIsTold | src/services/contradiction-service.ts:225-247 | the judge is given every pair at or above the threshold when they fit the cap; otherwise as many as the cap allows, none less similar than one left out |
| PassLaws.ResolveIsTold | src/services/contradiction-service.ts:254-319 | a given pair is resolved, its older memory losing, exactly when the last verdict on it is a contradiction and no pair resolved before it shares a memory with it |
| PassLaws.PassIsTold | src/services/contradiction-service.ts:205-320 | both together: the pass told on similarities, threshold, cap, verdicts and creation times |
| PassLaws.LeftForLater | src/services/contradiction-service.ts:266-268 | a contradicting pair that was given goes unresolved only if a resolved pair at least as similar took one of its memories |
| PassLaws.RowsAreTold | src/services/contradiction-service.ts:275-293 | each resolved pair leaves one row that supersedes the loser by the winner |
| Contradictions.PassIsSound | src/services/contradiction-service.ts:266-319 | in one pass each memory takes part at most once and losers are strictly older than winners |
| ContradictionPasses.DetectInTable | src/services/contradiction-service.ts:205-320 | listing the own valid decisions of a table and running the loops over them gives the specified pass; with fewer than two there is none |
| PassLaws.ListedAreOwn | src/services/projection-store.ts:792-800 | the decisions compared are exactly the valid decisions of the own lane |
| PassLaws.LosersNameTheirWinners | src/projections/projector.ts:514-527 | after the next replay each loser is closed and names its winner as successor |
| Contradictions.ChainsNeverCycle | src/services/contradiction-service.ts:269-273 | over any number of passes no chain of supersessions returns to where it began |
| Contradictions.LogClosesTheLosers | src/services/contradiction-service.ts:281-293 | the next replay closes exactly the losers and keeps memory and lane of every record |
| ContradictionPasses.PassesTouchOwnOnly | src/services/projection-store.ts:792-800 | a pass supersedes only own decisions that were valid, so never a foreign memory |
| ContradictionPasses.PassMovesValidExactly | src/services/contradiction-service.ts:269-322 | after a pass over a log exactly the losers have become invalid and exactly their runners-up valid again |
| ContradictionPasses.NewestOutlivesPasses | src/services/contradiction-service.ts:269-273 | over any number of passes the newest valid decision stays valid if no open own decision but its duplicates is newer |
| ContradictionPasses.NewestSurvivesExactly | src/services/contradiction-service.ts:269-273 | and only then: otherwise some passes unseat it |
| ContradictionPasses.RevivedDuplicateUnseats | src/services/contradiction-service.ts:269-322 | a log of three decisions on which passes supersede the newest valid one by a duplicate of what it had beaten |
| ContradictionPasses.DuplicateComesBack | src/projections/projector.ts:201-214 | on the same log, closing the winner makes the runner-up valid |
| Version.IsNewerVersion | src/services/update-service.ts:43-83 | the loops decide precedence as section 11 of SemVer 2.0.0 words it |
| Version.BelowExactly | src/services/update-service.ts:55-66 | three numbers decide, the first the most; at equal numbers a prerelease is below its release and below those its identifiers are below |
| Version.OtherPartsDoNotCount | src/services/update-service.ts:55-61 | left-out parts of the core count as zero and parts after the third do not count |
| Version.ParseUndoesWriting | src/services/update-service.ts:43-60 | a version written as the standard has it is read back part by part: numbers by value, other identifiers as text |
| Version.PrecedenceIsAnOrder | src/services/update-service.ts:36-42 | that precedence is a strict weak order |
| Version.BelowPair | src/services/update-service.ts:55-82 | two versions are unordered exactly when core and prerelease identifiers agree |
| Version.BuildMetadataIsIgnored | src/services/update-service.ts:45-48 | build metadata takes no part (section 10) |
| FtsQuery.MatchReadsBackTheWords | src/services/search-service.ts:35-57 | the expression is absent exactly when no word is searchable, and reads back as the searchable words in order |
| FtsQuery.QueryAsksForItsWords | src/services/search-service.ts:46-57 | however its words are spaced, a query asks for those with a letter or digit, in order; without any there is no expression |
| FtsQuery.WordsHoldEverything | src/services/search-service.ts:47-50 | splitting drops blanks and nothing else |

## Left out

- HTTP transport, device login, token storage, file locks and SQLite: they appear as contracts or parameters.
- Extractors, prompts, the judge's and the embedding server's replies: arbitrary functions that may fail.
- Workstream, checkpoint, decision, rule, conflict and task-request events: the fold ignores them as other events; their derived lists on the project are not modelled.
- The personal store: it never syncs, and items routed to it leave the project side untouched, which is all that is modelled.
- A rebuild that fails because the log has no genesis, and the projection tables other than memories.
- Two pushes of one replica at once: a replica has one push in flight. A pull that resets the status to idle while a push runs could admit a second one.
- AES-GCM itself: opening undoes sealing and fails under another key or event id.
- Trimming and lower-casing beyond ASCII, and the difference between code points and UTF-16 units in string lengths and string order.
- Task fields other than title, status, handoff, the three appendable lists and the update time, and patches of those lists.
- Empty strings where the code tests for presence (a writer, a closing time): a present field is taken as non-empty.
- Tie order of sibling observations with one timestamp: the comparator leaves it to the engine, so any order is allowed.
- Git-operation warnings of live sharing: time-windowed by design, passed in as given.
- Cosine similarity, recency decay and rank fusion: similarities are given reals.
- Numbers in versions beyond double precision, and how `Number` reads core parts that are not rows of digits: the latter is a parameter.
- Stripping transcript lines to turns: an arbitrary function of the slice, given to the boundary with its result.
- The watcher's lease and idle exit: clocks and process ids.
- Conflict events raised beside a contradiction's supersede, and segments stored beside memories: no claim here depends on them.
- Watcher.WatcherTick: a file relay; over HTTP a tick first reconciles the binding, which Workspace models on its own.
- ContradictionPasses.NewestSurvivesExactly: the passes follow one another; a memory consolidated between two of them is newer and becomes the newest itself.
- PassLaws.PassIsTold: decision ids hold no `|`, the separator of the pair key.
- DedupLaws.DedupeIsTold: lanes and observation ids hold no newline, and observation ids no comma.
- Traffic.CrashRepeatsExactly: a first crash; what any later one does is told by Traffic.WholePushRepeatsExactly.
- SyncRuns.BlindBindExactly: a relay with none of the log's ids. A bind to one that goes on from the old relay keeps
  the promise with any watermark (SyncRuns.NextKeepsInv); between the two the condition is the promise itself.
- SyncRuns.SyncSafety: log sweeps are not steps of the runs, since pulled events also lie above the push watermark.
- GcLaws.GcPreservesMeaning: assumes effective retracts; without them the exact condition is that of GcLaws.GcKeepsValidExactly.
- Convergence.LogsConverge: timestamps on closed records are not compared, since two closers may be applied in either order.
- ProjectorLaws.StopsExactlyOnTwoIdentities: assumes no id patches; ProjectorLaws.StopsExactlyWhenMisnamed is exact without that.
- LaneIsolation.LaneIsolation: assumes that both replays finish, which LaneIsolation.LaneIsolationWithoutIdPatches does not; memories are not covered, since a supersede is not checked for its lane and a project update has none.
