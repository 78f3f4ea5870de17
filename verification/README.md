# Shuttle: a verified model

Shuttle is an event log shared by coding agents. Each client keeps a local SQLite log, exchanges it with a cloud gateway or
another client, and reads everything else (workflow runs, tasks, handoffs, memories) out of that log. This project models
the parts of it that are hard to get right and proves what they promise, for every input and every run. `dafny verify
dfyconfig.toml` checks all of it.

## What is modelled

- **Sync with the gateway** (`Gateway`, `SyncMachine`, `SyncLosses`, `SyncLoops`, `SyncConvergence`, `SyncClient`).
  `SyncMachine` is a transition system whose steps are the single durable or visible actions of a client (send one event, save
  a cursor, fetch a page, import one row, crash) and of everybody else (append locally, append on the gateway).
  `SyncClient.Client` has the push and pull loops as they are written; every method also returns the machine run it performed
  and shows that run to be fair, so a crash inside a loop is a prefix of a fair run (`SyncMachine.CrashAnywhereKeepsInv`). What
  is assumed of others is the predicate `SyncMachine.Assumed` and nothing else; `SyncLosses` shows what is lost without it.
  `SyncConvergence` says when a sync leaves both sides equal, in terms of what they held before it.
- **Workflow runs** (`Workflow`, `WorkflowRuns`, `WorkflowPromises`, `WorkflowProjection`). Commands read a projection,
  validate it and append an event; `Legal` logs are what they can write. `WorkflowPromises` says which commands are accepted
  and what the steps a start event lists can rely on. `RunRecord.Apply` changes a run in place, `ProjectRuns` replays a log.
- **The log and its views** (`Events`, `Uuid`, `Listing`, `Store`, `Mesh`, `Tasks`). The store's tables, migrations and
  indexes; import and two-way exchange between stores; tasks and handoffs, which are one fold over two readings of an event.
- **The authorization server's store** (`OAuth`, `OAuthHistory`, `OAuthAnswers`, `OAuthRates`, `Limiter`, `Redirect`). Every
  call on the tables, what it promises in terms of a history that forgets nothing, what that history is in terms of calls and
  answers alone, and how often calls are let through. Each reading of the clock inside a call is a separate instant.
- **Text on the wire** (`Text`, `TimeText`, `PushBody`). Timestamps, cursors and the event body of a push.
- **Merge weights and recall** (`Ranking`, `Merge`, `Recall`), in exact hundredths and over the store of `Store`.

## What the proofs found

1. `workers/shuttle-gateway/src/repository.ts:521` clamps every query to 500 rows, look-ahead row included, and the client
   asks for 500 (`src/remote.rs:24`). The gateway therefore never reports another page to this client
   (`Gateway.DeployedPagesNeverReportMore`), and a first pull from a gateway with more than 500 events drops the older ones
   for good (`SyncLoops.DeployedPullLosesTheOldest`). A first pull is complete exactly when the pages are honest (the page limit
   is below the clamp, or the events fit under the clamp), or every row beyond the page it reads is there already or comes with
   that page (`SyncConvergence.BackfillGetsAllIff`). The look-ahead at `workers/shuttle-gateway/src/api.ts:271-275` is meant to
   make `has_more` exact; the model follows what the query returns. The machine and the client are proved for every limit and
   clamp. In the incremental phase the same clamp makes rows late, never lost: the cursor only passes rows that were imported
   (`SyncLoops.IncrementalPullsKeepRange`), and a quiet gateway is caught up with after as many syncs as missing rows divided
   by the clamp, rounded up, and not before (`SyncConvergence.RepeatedSyncsConverge`).
2. A sync does not always leave both sides equal. It does so, in either phase and whatever the pages claim, exactly when every
   row of the gateway was in the log before or comes with the rows the pull imports (`SyncConvergence.SyncConvergesIff`). With
   honest pages that leaves one bad case: a resumed backfill does not ask for rows newer than its first page, so the sync that
   finishes it converges exactly when, before it, nothing newer was missing (`SyncConvergence.ResumedSyncConvergesIff`). The
   input: limit 1, gateway events 1 and 2, one page pulled, a crash, event 3 appended by somebody else
   (`SyncConvergence.HalfDoneIsReached`, a fair run); the next sync ends without event 3 (`SyncConvergence.ResumedSyncCanMiss`).
   No completed sync leaves a backfill half done, so the next one converges.
3. A local write during a push is never sent exactly when it does not sort after both the cursor and the last event that push
   will send; sorting after the cursor, or after the event being sent, is not enough (`SyncLosses.WritesAreStrandedIff`,
   `SyncMachine.StrandedForever`). The input: events at times 10 and 30 are being pushed when one is written at time 20
   (`SyncLosses.WriteBetweenPushedEventsIsStranded`).
4. `validate_claim_for_agent` accepts a second `claimed` event from the current owner; the unique index then refuses it, so
   no accepted log has one (`WorkflowRuns.OwnerRetriesAreRefused`, `WorkflowRuns.OnlyPendingStepsAreClaimed`).
5. `Aborted` is not terminal: it is final exactly when the current step is pending or failed
   (`WorkflowRuns.AbortedIsFinalIff`). The input: a run of one step is started, the step claimed and the run aborted; then the
   step is completed, and the run with it (`WorkflowRuns.AbortedRunCanComplete`).
6. Purging is invisible except that revoking a token that has already expired answers differently before and after it
   (`OAuthHistory.CleanupIsInvisible`). The input: register, create, exchange, and revoke the token an hour and a nanosecond
   later, with or without a cleanup just before (`OAuthHistory.CleanupIsSeen`). A spent code is called used until its ten
   minutes are over and unknown afterwards (`OAuthHistory.SpentCodesAreRefused`).
7. The gateway trims agent, session and tags and returns tags sorted, so a push followed by a pull gives an event back
   exactly when it was already in that form (`PushBody.PushThenPull`).
8. The limiter lets at most one less than twice the limit through in any sixty seconds, for each key and in every sequence of
   calls, and that bound is reached (`OAuthRates.CallsAreLimited`, `Limiter.BoundIsReached`).

## Model

| member | source | states |
|---|---|---|
| Gateway.PublishKeepsTable | workers/shuttle-gateway/src/repository.ts:325-366 | Appending keeps the table sorted with distinct ids, adds the event only if its id is new, and the id is known afterwards. |
| Gateway.HasMoreIsHonest | workers/shuttle-gateway/src/api.ts:261-275 | `has_more` is true exactly when rows are left out, if and only if the limit is below the query clamp or everything fits under it; it never claims rows that are not there. |
| Gateway.DeployedPagesNeverReportMore | workers/shuttle-gateway/src/repository.ts:521-527 | With the deployed page size and clamp no page in either direction ever says there is more. |
| Gateway.BackfillIsCompleteIff | src/remote.rs:801-846 | A backfill visits every row once, newest first, exactly when its pages are honest; otherwise it stops after one clamped page. |
| Gateway.BackfillPageCount | src/remote.rs:801-846 | An honest backfill of n rows reads the ceiling of n / limit non-empty pages. |
| SyncMachine.StepKeepsInv | src/remote.rs:708-910 | Every single action of the client, a crash, or a fair action of anybody else keeps the invariant tying cursors, loops, local log and gateway together; of the client's own actions only a backfill fetch needs more, namely an honest page. |
| SyncMachine.RunsKeepInv | src/remote.rs:708-941 | The invariant holds along every fair run, wherever it crashes. |
| SyncMachine.CrashAnywhereKeepsInv | src/remote.rs:708-941 | Cutting a fair run after any number of actions leaves a reachable state in which the invariant holds, and holds again after a crash. |
| SyncMachine.CheckpointsKeepTheirPromise | src/remote.rs:51-75 | From a fresh checkpoint, in every state a fair run with honest backfill pages reaches: events up to `push_after` are on the gateway; in a backfill all rows between the two cursors are local and another row remains below; in the incremental phase all rows up to the cursor are local. |
| SyncMachine.FetchOlderKeepsInv | src/remote.rs:801-805 | A page fetched by a resumed backfill is never empty, and what it holds closes the gap to the cursors. |
| SyncMachine.LostForever | src/remote.rs:867-910 | A row in the range the durable cursors vouch for that was not imported, and is not on the page being imported, stays missing through every further push, pull and crash, in either phase and in the middle of a page. |
| SyncMachine.InsertBehindFrontierIsLost | src/remote.rs:867-910 | In any reachable state, another client's insert into the range the durable cursors vouch for, in a backfill or after it, is lost the moment it arrives. |
| SyncLosses.InsertOnPageIsLostOnceSaved | src/remote.rs:806-845 | An insert into the range of the page being imported is lost once that page is saved; with `InsertBehindFrontierIsLost` this covers the whole walked range, so that hypothesis is exact. |
| SyncMachine.StrandedForever | src/remote.rs:729-747 | A local event the push cursor has passed is never pushed by any later run. |
| SyncMachine.WriteBehindSnapshotIsStranded | src/remote.rs:735-747 | In any reachable state in which the head of a push has been sent, a local write that sorts after `push_after` but before that head is stranded as soon as the head is saved. |
| SyncLosses.WritesAreStrandedIff | src/remote.rs:708-749 | In any reachable state, a local write of an event the gateway lacks is stranded when the push in progress has run to its end, if and only if it did not sort after `push_after` and after the last event of that push. |
| SyncLosses.WriteBetweenPushedEventsIsStranded | src/remote.rs:708-749 | A run from a client that never synchronised that strands a write between two events being pushed. |
| SyncClient.Client.PendingEvents | src/remote.rs:713-734 | The push list is exactly the local events above the cursor, strictly in key order. |
| SyncClient.Client.SendOneEvent | src/remote.rs:735-747 | One event is published, deduplicated by id, under the client's rewriting of its own identifier and instant and with the step it claims, and the cursor moves to it; this is a run of two machine steps. |
| SyncClient.Client.PushImpl | src/remote.rs:708-749 | A push publishes its whole list in order, counts new and duplicate events, leaves the cursor at the last one, and is a fair machine run. Afterwards the gateway has its old rows and, for each identifier it lacked, exactly the first listed event of that name, at its own rewritten instant and with its own claim. |
| SyncClient.Client.ImportPage | src/remote.rs:810-817 | A page is imported row by row, new rows plus skipped rows are the page, and it is a machine run. Old events stay as they are, and each new one has the rewritten identifier and instant of a row of the page and claims its step in the client's workspace. |
| SyncClient.Client.TakeOlder | src/remote.rs:806-845 | A backfill page is imported and the durable cursors move past it, or to the incremental phase if it was the last. |
| SyncClient.Client.TakeNewer | src/remote.rs:880-904 | An incremental page is imported and the cursor moves to its last row. |
| SyncClient.Client.PullBackfill | src/remote.rs:797-848 | The loop terminates, imports what the page-by-page specification says from the saved cursor on, counts rows and pages, saves the right phase and cursors, and is a machine run, fair if its first page is honest. |
| SyncClient.Client.PullIncremental | src/remote.rs:867-910 | The same for the oldest-first loop; the cursor ends at the last row visited, and the run is fair whatever the pages claim. |
| SyncClient.Client.PullWithCheckpoint | src/remote.rs:771-860 | A pull resumes in the saved phase and imports exactly what its pages hold, each event with its row's own identifier, instant and claim; with honest pages that is every row its cursors ask for; the new cursors keep their promise, in the incremental phase even if the pages are not honest; nothing it imports is unknown to the gateway. |
| SyncClient.Client.SyncWithCheckpoint | src/remote.rs:924-941 | From any reachable state a push and then a pull puts every local event on the gateway, and both sides are equal up to blocked initial claims exactly when every row the gateway had was in the log before or is among those the pull imports; with honest pages that holds unless a backfill is resumed, and then exactly when nothing newer than its first page was missing before the call; events travel with their own instants and claims both ways; the invariant holds again, in the incremental phase even if the pages are not honest, and no backfill is left half done. |
| SyncLoops.PushReachesEverything | src/remote.rs:708-749 | What the push list leaves out is already on the gateway, so after a push everything local is there. |
| SyncLoops.PublishAllSends | src/remote.rs:735-747 | After any list is published, the rows are the old ones and, for each identifier the gateway lacked, the first listed event of that name: its instant and identifier rewritten, its claimed step kept. |
| SyncLoops.ImportAllCameFrom | src/remote.rs:810-817 | After any rows are imported, old events are untouched and every new one is a visited row with its instant and identifier rewritten and its step claimed in the client's workspace. |
| SyncLoops.BackfillFromVisits | src/remote.rs:801-846 | The page-by-page backfill imports exactly the rows of the flat visit list, in that order and page count. |
| SyncLoops.WalkFromVisits | src/remote.rs:876-908 | The page-by-page incremental walk imports exactly the rows of the flat visit list. |
| SyncLoops.CatchUpPageCount | src/remote.rs:876-908 | An honest incremental walk over the rows above the cursor reads the ceiling of their number over the limit in pages. |
| SyncLoops.BackfillConverges | src/remote.rs:801-846 | A finished honest backfill covers every row up to its newest key, whatever was imported before the crash. |
| SyncLoops.WalkConverges | src/remote.rs:876-908 | A finished honest incremental pull covers every row of the gateway. |
| SyncLoops.FinishedBackfillKeepsRange | src/remote.rs:818-826 | The cursor a finished backfill saves is one the local log lives up to. |
| SyncLoops.FirstPullIsCompleteIff | src/remote.rs:801-846 | A first pull of distinct events, none of them an initial claim and none of them in the log, gets all of them if and only if the pages are honest. |
| SyncLoops.ClampedBackfillLoses | src/remote.rs:818-826 | With a clamp no larger than the limit, every row beyond the newest clamp-many becomes lost in the sense of `LostForever`. |
| SyncLoops.DeployedPullLosesTheOldest | src/remote.rs:24-24 | With the deployed constants, a first pull of 501 events loses the oldest. |
| SyncLoops.IncrementalPullsKeepRange | src/remote.rs:876-908 | Whatever the pages claim, the saved incremental cursor is backed by the log after a pull, so nothing is lost. |
| SyncConvergence.ImportCoversIff | src/remote.rs:810-817 | After importing a list of rows, a row is there or its claim taken exactly if it was before, or one of the list is new and is the same event or claims the same step. |
| SyncConvergence.BackfillGetsAllIff | src/remote.rs:801-846 | For any log and any rows, claims included, a pull from scratch gets all of them if and only if the pages are honest or every row beyond the one page it reads is there already or comes with that page. |
| SyncConvergence.IncrementalPullGetsAllIff | src/remote.rs:876-908 | The same for an incremental pull and the rows above its cursor. |
| SyncConvergence.SyncConvergesIff | src/remote.rs:924-941 | A whole sync, in either phase, resumed or not, honest or not, ends with both sides equal if and only if every row the gateway had before is in the log already or comes with the rows the pull imports. |
| SyncConvergence.ResumedSyncConvergesIff | src/remote.rs:924-941 | With honest pages, the sync that finishes a half-done backfill ends with both sides equal if and only if every row newer than the backfill's first page was in the log before or comes with the rows left to fetch. |
| SyncConvergence.HalfDoneIsReached | src/remote.rs:818-830 | A fair run from a client that never synchronised to a half-done backfill with a newer row on the gateway. |
| SyncConvergence.ResumedSyncCanMiss | src/remote.rs:924-941 | From the end of that run a sync with honest pages does not end with both sides equal. |
| SyncConvergence.RepeatedSyncsConverge | src/remote.rs:876-941 | With nobody else writing, repeated syncs of a client past its first backfill converge once their number times the clamp reaches the number of missing rows (at once if the limit is below the clamp), and not before if the newest row is new to the log. |
| Workflow.RunRecord.Apply | src/workflow.rs:354-412 | Updating the run in place equals the value-level step, and it fails exactly on an unknown action or step. |
| Workflow.Front | src/workflow.rs:444-448 | The expected step is the first that is not completed. |
| WorkflowRuns.LegalIsSound | src/workflow.rs:300-412 | In every log commands can write, every run has the expected shape and every touched step is known to the claim index. |
| WorkflowRuns.ReachableRunsHaveShape | src/workflow.rs:354-412 | A reachable run is a completed prefix, at most one current step, then pending ones; run status, current step and its status agree; only a non-idempotent step needs reconciliation. |
| WorkflowPromises.RunsAreAsStarted | src/workflow.rs:306-338 | In every legal log a run exists exactly if it was started, was started once, and still has its start event's workflow, title, specification, input and instant and, step by step, the definitions that event lists. |
| WorkflowPromises.AcceptedIff | src/workflow.rs:425-542 | In every reachable state of every run, each command is accepted if and only if the run's status, its first uncompleted step, that step's name, status and owner, and the evidence given allow it: takeover of a claimed step, claim of a pending and reclaim of a failed one while the run is open, completion and failure by the owner, reconciliation of a waiting step, completion of a run with nothing left. |
| WorkflowPromises.StartAcceptedIff | src/workflow.rs:112-138 | A run can be started exactly under a new identifier with at least one step and no two of the same name. |
| WorkflowPromises.StepsCanBeTakenOver | src/workflow.rs:370-377 | A log commands can write in which another agent takes over a claimed non-idempotent step that needs approval, reconciles it and completes the run. |
| WorkflowRuns.AcceptedEventsMove | src/workflow.rs:425-542 | An accepted command changes only the current step, from the one status it needs to the one status it leaves; it sets owner and output as the event says, adds the event to the sources, and leaves the identity of the run alone. |
| WorkflowRuns.OnlyPendingStepsAreClaimed | src/store.rs:678-686 | Validator and index together admit a `claimed` event only for a pending step, although the validator alone also lets the owner retry. |
| WorkflowRuns.OwnerRetriesAreRefused | src/workflow.rs:459-476 | A retry by the current owner passes the validator in every reachable state, and the index refuses it in every one. |
| WorkflowRuns.CompletedStepsAreFinal | src/workflow.rs:383-399 | A completed step, its owner and its output never change in any extension of the log. |
| WorkflowRuns.CompletedRunsAreFinal | src/workflow.rs:533-542 | A run once completed is only ever completed or aborted, with every step completed. |
| WorkflowRuns.StepsAreFinishedByTheirOwner | src/mcp.rs:422-432 | Every completion and failure is by the agent of the latest claim, reclaim or takeover of that step. |
| WorkflowPromises.ListedStepsCarryEvidence | src/workflow.rs:500-519 | Every completed step whose start event lists it as needing approval carries approval with a character that is not blank. |
| WorkflowRuns.HeldUntilFailed | src/workflow.rs:366-399 | A claimed non-idempotent step stays claimed, waiting or completed until an event fails it. |
| WorkflowPromises.ListedStepsAreNotReplayed | src/workflow.rs:366-385 | Between two claims of a step that the start event lists as non-idempotent there is an event that failed it. |
| WorkflowPromises.ListedStepsWait | src/workflow.rs:370-377 | From its takeover on, a step listed as non-idempotent waits, and is completed from its reconciliation on. |
| WorkflowPromises.ListedStepsAreReconciledOnce | src/workflow.rs:481-498 | After the takeover of a step listed as non-idempotent the only event ever accepted about it is one reconciliation, and no other step is touched before it. |
| WorkflowRuns.AbortedIsFinalIff | src/workflow.rs:405-406 | An aborted run stays aborted in every extension of its log if and only if its current step is pending or failed. |
| WorkflowRuns.AbortedRunCanComplete | src/workflow.rs:405-406 | A log commands can write in which an aborted run holds a claimed step, and an extension that completes the run. |
| WorkflowProjection.ProjectRuns | src/workflow.rs:300-352 | The replay loop fails exactly when the fold does, and otherwise lists exactly the folded runs: latest update first, then by id; one run for each run id, with identity and step definitions of its last start event, updated at its latest event, and with exactly its events from that start on as sources. |
| WorkflowProjection.ArrivalOrderIsIrrelevant | src/workflow.rs:300-352 | Any permutation of a log with distinct keys gives the same table and the same list. |
| WorkflowProjection.RunsAreIndependent | src/workflow.rs:300-352 | Each run depends only on its own events, and the whole projection fails exactly when some run fails alone. |
| WorkflowProjection.AppendingIsOneStep | src/workflow.rs:339-342 | Appending the event with the greatest key equals one step on the old projection. |
| WorkflowProjection.ShuffledLegalLogsProject | src/workflow.rs:267-277 | However a legal log is shuffled, its projection succeeds and gives each run exactly its history. |
| Listing.Listed | src/task.rs:304-309 | Sorting a hash table's values gives exactly its values in strict key order. |
| Listing.ListIsUnique | src/task.rs:304-309 | There is only one such list, whatever order the table was read in. |
| Uuid.ParseFormat | src/task.rs:548-562 | Every identifier is read back from its written form and from the other accepted spellings. |
| Uuid.FormatIsCanonical | src/task.rs:19-25 | The written form is lower-case hexadecimal with dashes after digits 8, 12, 16 and 20. |
| Uuid.ParsedIsSpelled | src/task.rs:548-562 | Whatever is read was spelled in one of the four accepted ways. |
| Tasks.ProjectView | src/task.rs:420-535 | The in-place replay of tasks and of handoffs equals the fold of their sorted events. |
| Tasks.Show | src/task.rs:290-378 | The list is exactly the folded items cut at the limit: later updates first and smaller ids first among equal ones, and whatever the limit leaves out comes after all that is shown. |
| Tasks.ViewIsLastWriterWins | src/task.rs:420-535 | Whatever order the events come in, an item exists exactly if some event opens it, its creator is the first such event, and status, owner, content and update time are those of the last writers after it. |
| Tasks.DescriptionIsUnique | src/task.rs:420-535 | No two different items fit that description, so it determines the view. |
| Tasks.ItemsAreConsistent | src/task.rs:420-535 | No event counts for two items, and no item was updated before it was created. |
| Tasks.ViewsAreOrderFree | src/task.rs:420-535 | The view depends only on the set of events, and a newest event is one step on it. |
| Tasks.ReferencesAreRead | src/task.rs:548-562 | An event is about the item its metadata names; if that field is missing or unreadable, about the item named by its first tag that refers to one; and if there is none, about itself. |
| Tasks.TaskEffectsAreRead | src/task.rs:420-481 | Which events open, claim, update and complete a task, and on whose behalf, by action and tags. |
| Tasks.HandoffEffectsAreRead | src/task.rs:483-535 | The same for handoffs, by action and recipient. |
| Tasks.NewTasksOpenThemselves | src/task.rs:88-106 | The event that creates a task is read as opening that very task, for its writer. |
| Tasks.NewHandoffsOpenThemselves | src/task.rs:192-221 | The event that creates a handoff is read as opening it, for its writer and its recipient. |
| Tasks.TaskEventsTouchTheirTask | src/task.rs:108-190 | The events that claim, update or complete a task are read as doing that to their own task, on behalf of the agent who wrote them. |
| Tasks.HandoffEventsTouchTheirHandoff | src/task.rs:223-284 | The same for accepting and completing a handoff. |
| Tasks.CommandsFileTheirEvents | src/task.rs:88-284 | Every event a command writes has the right type, workspace, agent, session and key. |
| Tasks.CommandsTagTheirEvents | src/task.rs:108-284 | And the words, tags, sender and recipient a search for it goes by. |
| Store.EventStore.BackfillEventTags | src/store.rs:736-763 | The loop adds exactly the tags of every row whose tags can be read to the index. |
| Store.EventStore.Migrate | src/store.rs:546-581 | The migration loop does what its specification says for any number of transactions it survives. |
| Store.MigrationSucceedsIff | src/store.rs:546-695 | Given time, a migration reaches version 4 if and only if the metadata of every workflow row parses and no step was claimed twice, and otherwise stops at 3. |
| Store.InterruptionsLeaveNoTrace | src/store.rs:571-579 | A migration interrupted between any transactions and run again ends where an uninterrupted one does. |
| Store.MigrationKeepsSound | src/store.rs:600-695 | Wherever a migration stops, no row changed, and columns and indexes are as good as the version promises, whichever columns a table from before versions had. |
| Store.EventStore.InsertEvent | src/store.rs:437-493 | A row is added exactly if its id is new and no readable row claims the same step of the same run in the same workspace; the strict mode fails and the other mode skips; ids, claims and the tag index stay exact. |
| Store.EventStore.List | src/store.rs:352-427 | Looking tags up in the index finds exactly the rows whose own tags match. The page holds only events that meet every condition, strictly newest first; what else meets them is older, and is left out only for the limit, fifty by default. It fails on an unreadable row, a query by recipient on any it considers whose metadata does not parse, and never if all rows are readable. |
| Store.ReadablePages | src/store.rs:495-527 | A query over readable rows never fails. |
| Mesh.ImportEvents | src/mesh.rs:119-138 | Imported plus skipped is the input length, the log grows by the imported number, and the rows are those of the join. |
| Mesh.ImportIsAJoin | src/mesh.rs:119-138 | Old rows stay, every new row is one of the events, and every event is present or kept out by a claim. |
| Mesh.SecondImportAddsNothing | src/mesh.rs:119-138 | Importing the same events again changes nothing. |
| Mesh.AllEvents | src/mesh.rs:106-113 | All events newest first, or an error exactly if some row cannot be read. |
| Mesh.SyncBidirectional | src/mesh.rs:71-104 | Each side imports the other's whole log, with counts that add up; if either log cannot be read, neither side changes. |
| Mesh.SecondSyncAddsNothing | src/mesh.rs:71-104 | After a sync, a second one imports nothing, whichever workspaces events are moved to. |
| Mesh.RehomingIsBare | src/mesh.rs:140-151 | Moving an event changes nothing but its workspace and the source marker. |
| Mesh.RehomingSaysWhere | src/mesh.rs:140-151 | A moved event is in the target workspace, its marker names the workspace it came from, and every other field is as it was. |
| Mesh.BareReadsTheSame | src/task.rs:537-562 | Neither view reads anything that moving an event changes. |
| Mesh.ListItems | src/task.rs:290-378 | Listing a workspace's tasks or handoffs shows the fold of exactly its events of that type, latest update first, then by id, and what the limit leaves out comes after all that is shown. |
| Mesh.OtherSideHasIt | src/mesh.rs:87-104 | After a sync, what one side holds in its workspace the other holds in its own, up to the move. |
| Mesh.SyncedViewsAgree | src/mesh.rs:87-151 | Two stores that each keep their events in one workspace fold to identical tables of tasks and handoffs after a sync. |
| Mesh.SyncedListsAgree | src/mesh.rs:71-151 | The lists of tasks and of handoffs the two stores then show are the same, item by item and for every limit. |
| Limiter.RateIsBounded | src/oauth.rs:455-481 | For any non-decreasing request times, any half-open sixty seconds contain at most 2 * max - 1 accepted requests, and the open window at most max. |
| Limiter.BoundIsReached | src/oauth.rs:455-481 | For every limit there is a request sequence that reaches that bound. |
| OAuthRates.StepIsLimited | src/oauth.rs:114-348 | Every call touches the window of at most one key, its own, and answers that the limit is exceeded exactly when that window is full. |
| OAuthRates.WindowsAreServed | src/oauth.rs:455-481 | After any sequence of calls the stored window of every key, and the instants at which its calls were let through, are what the limiter gives for that key's attempts alone. |
| OAuthRates.CallsAreLimited | src/oauth.rs:455-481 | In any sequence of calls, at most 2 * max - 1 calls of one key are let through in any half-open sixty seconds; max is 20 for tokens and 30 otherwise. |
| OAuth.OAuthStore.EnforceRateLimit | src/oauth.rs:455-481 | A request is admitted exactly as the window allows, and a refused one changes nothing. |
| OAuth.OAuthStore.RegisterClient | src/oauth.rs:114-152 | Registering in place equals the value-level step, errors and their order included. |
| OAuth.OAuthStore.CreateCode | src/oauth.rs:176-220 | Creating a code in place equals the value-level step. |
| OAuth.OAuthStore.ExchangeCode | src/oauth.rs:222-296 | Exchanging a code in place equals the value-level step. |
| OAuth.OAuthStore.ValidateAccessToken | src/oauth.rs:298-325 | Validating in place equals the value-level step. |
| OAuth.OAuthStore.RevokeAccessToken | src/oauth.rs:327-340 | Revoking in place equals the value-level step. |
| OAuthHistory.StepKeepsRefines | src/oauth.rs:114-348 | Every call with fresh secrets and a forward clock keeps the tables a refinement of the history of answers. |
| OAuthHistory.RunsRefine | src/oauth.rs:114-348 | The refinement holds after every sequence of calls. |
| OAuthAnswers.HistoryIsWhatWasAnswered | src/oauth.rs:114-348 | After any calls the history is exactly what was asked and answered: the clients registered, the codes handed out with the scope asked for, the tokens issued, the tokens revoked. |
| OAuthAnswers.TokensComeFromAuthorizations | src/oauth.rs:176-296 | Every answer with a token goes back to an earlier call that handed out its code to the same client, with the same redirect and a challenge its verifier meets, within ten minutes; the token's scope is the one that call asked for if it names `mcp`, else `mcp` alone; and the client was registered with that redirect. |
| OAuthHistory.RegisterSucceedsIff | src/oauth.rs:114-152 | A registration the limiter hears succeeds exactly for a new identifier and redirects that are all acceptable. |
| OAuthHistory.CreateSucceedsIff | src/oauth.rs:176-220 | A code the limiter hears is handed out exactly for a sound request of a registered client to one of its own redirects. |
| OAuthHistory.PurgeRefines | src/oauth.rs:701-714 | A purge at any later instant keeps the tables a refinement of the history: it only deletes what no call would accept any more. |
| OAuthHistory.TokensLiveAnHour | src/oauth.rs:298-325 | A token validates at t exactly if it was issued less than 3600 s before and not revoked, whatever was purged; its `mcp` scope always holds. |
| OAuthHistory.CodesGiveOneToken | src/oauth.rs:222-296 | No code ever gives two tokens, and each token went to the code's client and redirect, with a verifier matching its challenge, within ten minutes, with a registered redirect, and with the scope that was asked for if it names `mcp`, else `mcp` alone. |
| OAuthHistory.ExchangeSucceedsIff | src/oauth.rs:222-296 | An exchange the limiter hears succeeds exactly if the code was handed out, is unspent and in date, and client, redirect and verifier match. |
| OAuthHistory.SpentCodesAreRefused | src/oauth.rs:258-273 | A spent code is refused for good; only its age decides between the two error texts. |
| OAuthHistory.CleanupIsInvisible | src/oauth.rs:342-348 | An extra cleanup changes no answer and nothing that outlives the next purge, except exactly the answer to revoking an expired, unrevoked token. |
| OAuthHistory.CleanupIsSeen | src/oauth.rs:327-348 | Three calls from empty tables after which revoking the expired token succeeds, and fails if a cleanup comes first. |
| OAuthHistory.ScopesAreNormal | src/oauth.rs:669-676 | A scope that was asked for is kept if `mcp` is among its words, else it is just `mcp`; so it always names `mcp`. |
| Redirect.QueryComponent | src/oauth.rs:631-642 | The buffer loop computes the encoding of the whole byte string. |
| Redirect.BytesAreEscaped | src/oauth.rs:634-639 | Letters, digits and the four marks stand for themselves, every other byte becomes a percent sign and two upper-case digits. |
| Redirect.DecodeEncode | src/oauth.rs:631-642 | Percent-decoding undoes the encoding of every byte string. |
| Redirect.EncodedIsPlain | src/oauth.rs:631-642 | The encoding uses only the unreserved set of section 2.3 of RFC 3986 and the percent sign. |
| Redirect.RedirectRoundTrip | src/oauth.rs:617-629 | Splitting the target's query gives the redirect's own parameters, then code and optional state, whose values decode to the originals. |
| TimeText.FractionOrder | src/store.rs:475-475 | Fractions of 0, 3, 6 or 9 digits followed by the offset compare as numbers. |
| TimeText.TextIsTime | src/oauth.rs:701-712 | Printed timestamps compare as instants, whatever follows them, and are equal exactly for equal instants. |
| TimeText.TimesAreReadBack | src/store.rs:475-475 | Every field of an instant, nanoseconds included, can be read off its place in the text. |
| TimeText.FormatOrder | src/store.rs:411-411 | Printed identifiers compare as numbers. |
| TimeText.CursorsCompareAsKeys | src/remote.rs:729-734 | Printed cursors compare as time first and identifier second. |
| TimeText.CursorRoundTrip | workers/shuttle-gateway/src/api.ts:47-63 | Reading a printed pair gives the pair back exactly if both are non-empty and the time has no separator. |
| TimeText.CursorsAreReadIff | workers/shuttle-gateway/src/api.ts:47-63 | A cursor is read exactly if something stands on both sides of its first separator; no text is no cursor, anything else is refused. |
| TimeText.ReadCursorsPrintBack | workers/shuttle-gateway/src/api.ts:47-63 | Every accepted cursor prints back to itself. |
| TimeText.ClientCursorsAreRead | src/remote.rs:943-945 | Every cursor the client prints is read by the gateway as its time and identifier. |
| PushBody.PushThenPull | src/remote.rs:587-700 | Push then pull restores id, type, time, title, content, agent, session, tags and all repository columns exactly for events in the gateway's normal form, and then differs from the original only in workspace, the gateway's own entry and the source marker. |
| PushBody.ColumnsTravel | src/remote.rs:587-700 | What every accepted event looks like after the trip, tidied fields included. |
| PushBody.RepositoriesTravel | src/remote.rs:617-640 | The gateway's own entry in the metadata holds the repository columns that were sent, and every other field travels. |
| PushBody.RowsAreRead | src/remote.rs:648-700 | A gateway row, whoever wrote it, becomes an event with its columns, a UUID as that identifier and any other id as a fixed one, without the stash and with the workspace it came from. |
| PushBody.TrimIs | workers/shuttle-gateway/src/repository.ts:338-338 | Trimming leaves what runs from the first to the last character that is no space. |
| PushBody.LocalFieldsAreRead | src/remote.rs:591-605 | The three columns the gateway lacks are read back from where they were stashed. |
| PushBody.TagsComeBackIff | workers/shuttle-gateway/src/repository.ts:338-338 | Tags come back unchanged exactly if they were trimmed, non-empty, distinct and in order. |
| PushBody.TagsAreKeptAsASet | workers/shuttle-gateway/src/repository.ts:166-172 | A stored row has exactly what trimming leaves of each tag. |
| Ranking.RankIsRanked | src/adapter/select.rs:54-59 | Ranking is a permutation in which nothing comes after something it belongs before. |
| Merge.SelectionIsRanked | src/adapter/select.rs:43-61 | The selection is a permutation by falling score, ties by rising name. |
| Merge.EligibleIsFiltered | src/adapter/merge.rs:34-38 | What is kept stands, in order, at rising positions of the selection, and these are exactly the positions with a positive score of at least the minimum. |
| Merge.RetainedIsPositive | src/adapter/merge.rs:34-38 | What is retained is positive, and still ranked if the selection was. |
| Merge.MergePlan | src/adapter/merge.rs:28-65 | The first `top_k` adapters good enough are kept, in order and under their names; each weight but the first is its share of the kept scores to the nearest hundredth, halves up, and the sum is exactly 100; the base model is the one listed first for the best adapter. |
| Merge.WeightsAreClose | src/adapter/merge.rs:44-59 | Every weight but the first is within half a hundredth of its exact share, the first within (n - 1) halves. |
| Merge.FifteenAreNotNegative | src/adapter/merge.rs:44-59 | With up to fifteen ranked adapters no weight is negative. |
| Merge.SmallPlansAreNotNegative | src/adapter/merge.rs:28-65 | So any plan of at most fifteen over any selection has no negative weight. |
| Merge.SixteenCanBeNegative | src/adapter/merge.rs:54-58 | Twelve scores of 13 and four of 11 give the best adapter the weight -1. |
| Recall.TopOfCover | src/memory.rs:61-131 | The newest fifty of what survives earlier cuts are a choice of the newest fifty of everything. |
| Recall.CoversJoin | src/memory.rs:110-122 | Joining results that were cut separately still leaves out nothing that matters. |
| Recall.TopCounts | src/memory.rs:123-130 | With ties the multiset of timestamps is determined. |
| Recall.DistinctTimesDecide | src/memory.rs:123-130 | Without ties the result is determined. |
| Recall.PageIsTop | src/store.rs:409-413 | A page of the store is a choice of the newest matching rows. |
| Recall.QueriesAreAskedFor | src/memory.rs:103-121 | A recall asks for the query itself and for its first eight different words in order. |
| Text.WordsAreStretches | src/memory.rs:103-106 | The words of a text are its longest stretches without blanks. |
| Recall.Dedup | src/memory.rs:133-136 | Removing duplicates keeps the set of events and leaves one of each. |
| Recall.Collate | src/memory.rs:122-130 | The combined page is sorted, free of duplicates and a choice of the newest. |
| Recall.RecallCandidates | src/memory.rs:86-131 | Over the query and its first eight distinct tokens, each cut at fifty, the result is a choice of the newest fifty that any of them finds. |
| Recall.RecallByType | src/memory.rs:61-84 | Over one type or all seven, each query cut at fifty, the result is the newest fifty of all stored events of the type and workspace that the query or one of its first eight words finds: newest first, then by id, with nothing newer left out; it fails only on an unreadable row. |
| Recall.RankedRecall | src/memory.rs:138-159 | The ranked result is a permutation of such a recall, by falling score, then newest, then smallest id. |

## Left out

- Time and identifiers are numbers in most modules; `TimeText` and `Uuid` prove that comparing their text is comparing the numbers. Years beyond four digits and leap seconds are not modelled.
- JSON text, TOML, HTTP, retries, SQL text, file locking and atomic file replacement: tables are maps, a transaction or a checkpoint save is one step, and a gateway row that cannot be parsed is not modelled.
- The digest of tokens and code verifiers is an arbitrary injective function, the URL checks on redirects an arbitrary predicate, and the mapping of foreign identifiers an arbitrary function.
- SyncMachine.ValidConfig: assumes that reading back the identifier a push wrote gives the same local identifier, which `Uuid.ParseFormat` and `PushBody.PushThenPull` justify; timestamps may be rewritten arbitrarily on either way.
- SyncMachine.Assumed: other clients do not insert into the walked range, local writes sort after the push snapshot, and each backfill page is honest; `SyncLosses` and the two `Forever` lemmas show that each write that breaks this is lost.
- SyncConvergence.SyncConvergesIff: assumes that gateway rows standing for one event the log lacks claim the same step; `SyncConvergence.RepeatedSyncsConverge` instead assumes that rows are stored under the identifier this client would push them under.
- Client, gateway and peers act one step at a time; there is no weaker memory or transaction model.
- The limit of 4294967295 rows on whole-log reads: a store is assumed to hold no more, and the push list is not cut.
- SyncLoops.FirstPullIsCompleteIff: leaves out initial claims and events the log already has; `SyncConvergence.BackfillGetsAllIff` does not.
- WorkflowRuns.ReachableRunsHaveShape: takes each read, check and append as atomic, keys as increasing and run ids as fresh, as the command arms do with one local store.
- Workflow.ApplyAction: a missing or ill-typed metadata field and an unknown action are one case, `Unreadable`; the texts of errors are not compared.
- Workflow.StartRun: title and specification path are kept as text; manifest loading and the checks on its paths are I/O, and only its unique, non-empty step list matters here.
- WorkflowProjection.ProjectRuns: `active_runs` and the other filters over the list are not modelled.
- Tasks.Show: the filters by status and the existence checks are not modelled.
- Store.ClaimOf: a nested JSON value as run or step is compared as a value, not as the text SQLite makes of it.
- Store.EventStore.Migrate: the adapter tables of the third migration do not appear, and a column added by the second is taken to hold its default already.
- Store.EventStore.List: conditions are taken to be checked in the order they are written; the text search condition is an arbitrary predicate on events, and sorting and deduplicating the requested tags, which does not change a conjunction, is left out.
- Mesh.SyncedViewsAgree: assumes that one identifier names one event on both sides up to earlier moves; archives on disk are I/O.
- OAuthHistory.RunsRefine: starts from empty tables, so tokens written by older versions and the schema migrations are not covered; secrets are drawn fresh, and clocks never go backwards.
- PushBody.PushThenPull: excludes metadata that already uses one of the three reserved keys; the text of a timestamp is taken to carry its instant.
- The gateway's claim tables, authorization, recall and context snapshots: only the event endpoint is modelled.
- Merge.MergePlan: scores and weights are exact hundredths; single-precision rounding, the cosine and embeddings are not modelled.
- Recall.RankedRecall: the score is an arbitrary integer function.
- Command-line printing, MCP schemas, repository context, telemetry, collaboration and the adapter trainer add only easy members.
