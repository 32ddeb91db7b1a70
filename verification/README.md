# A Dafny model of apatch's execution and evidence layer

apatch applies agent-made patches under governance. This project models the parts of it that carry state
or real algorithms, and proves properties of them in Dafny. `dafny verify dfyconfig.toml` checks it.

What is modelled, by module:

- `ChunkPlanner`, `ChunkLayout`, `ApplySession`: splitting the steps of a patch log into chunks, and the resumable session
  that applies one chunk per call. The session's history of calls to the applier is kept apart from the
  session file; the laws are about that history.
- `Backup`: the undo log of a session, step rollback, single-file restore and session rollback over a
  workspace (path to contents) and a session folder (name to contents).
- `Reconciliation`, `ContributionSync`, `DeliveryLaws`, `SyncConvergence`, `AvatarSync`, `AvatarReceipts`: the outbox of signed events, batched delivery,
  acknowledgements, reconciliation, replay, receipts and quarantine. A remote is a value holding two
  arbitrary functions on an arbitrary state, so the laws hold against every remote; convergence holds
  against every truthful one.
- `ArtifactPaths`, `ArtifactRegistry`, `ArtifactSafety`, `RegistryRows`, `ArtifactWorkspace`: the append-only registry read as
  "last row wins", run leases, session clean-up, garbage collection and reconcile, as a step system in
  which the steps of any number of sessions interleave.
- `VerifyPool`, `FailFastPool`, `ConformanceGate`: the verify commands of a spec run in order or in a bounded pool with any
  finishing order, and the standing gate over the specs of a contract.
- `ConceptMerge`: collapsing a concept graph along recorded merges, which may run in circles.
- `DocOutline`, `OutlineText`: reading, renumbering and inserting numbered Markdown headings, on characters.
- `Capability`: the Wilson interval over the reals with an abstract square root, and the counts behind it.
- `CsvScope`: partition preservation for slug-keyed CSV tables.
- `BoundaryScope`: line lookup in a joined text, brace matching and the heuristic scan end.
- `Common`, `Decimal`: optional values, white space, facts about sequences and sets; integers as decimal text.

The classes (`SessionFile`, `BackupManager`, `Outbox`, `ReceiptStore`, `Workspace`, `MergeStore`) have the source's
fields and loops; each method's new state equals a specification function of the old one, and the laws are
lemmas about those functions. A text in the source that may be missing is `""` or `None` here.

## Where the code is narrower than it reads

Each of these is stated exactly, as an if-and-only-if or with the whole family of failing inputs:

- A verify command that fails can go unnoticed under fail-fast, which is the default. Some schedule of a pool
  misses it exactly when the first failing command is not among the first `workers` ones and a command that
  cannot run comes before it (`MissesExactly`); the gate passes under some schedules exactly when this, or no
  failure, holds in every live spec (`FailFastGateExactly`).
- Under fail-fast the bucket of a spec can depend on the pool's schedule. All schedules give the bucket of the
  loop exactly when no command fails, the first red one fails, or as many commands as there are workers cannot
  run before the first failing one (`BucketsAgreeExactly`).
- Under a budget the sequential loop can report all green with commands left unrun (`SequentialGreenExactly`,
  `GreenThoughUnrun`). Outcomes do not depend on the clock here. As the code cuts each command's timeout to what is
  left of the budget, it takes a command that ends green just as the deadline passes.
- Undoing a step that is not the newest: a session rollback then fails for a file exactly when the undone step
  held its oldest record and a younger record with another state survives (`UndoThenRollbackExact`,
  `RunThenUndoExact`, `UndoingTheFirstEditLosesTheOrigin`). The log also gets shorter, and the next backup may
  reuse the name of a live one (`NextNameTakenExactly`, `UndoingAnOlderStepLosesABackup`).
- A session rollback removes a file that existed before if its first record is a CREATE (`SessionRollbackExact`).
- `restore_file` goes on to younger copies when the file it would remove is already gone (`RestoreFileExact`).
- Deleting the logs of an ended session also removes their `.lock` siblings without a look at the registry,
  leased or not (`LeasedIsDeletedExactly`, reached by `LeasedLockIsDeleted`).
- The refusal to delete backfilled files is lost for three canonical names: reconcile's class repair replaces
  the row's lineage, and with it a lease (`BackfillLostExactly`, `CanonicalBackfillIsLost`, `LeaseStaysExactly`).
  The run leases such a file as run state; the code's own callers lease apply sessions and spec runs only, so
  the path has to come from a user.
- An event whose id ends in `.ack` is exported but never listed for delivery (`ExportedIsListedExactly`).
- Quarantine can end when the call works on another local event with the same id (`QuarantineExactly`).
- A renumbering that passes through a negative number cannot be completed by a second one (`ShiftsCompose`).
- A partition that is not there yet may be added to a CSV table under a declaration of others
  (`UndeclaredChangeExactly`, `NewPartitionNeedsNoDeclaration`).
- A reset whose plan has no chunks leaves the old session in place (`ResetReplacesExactly`).
- A protected backup, or a file below one, that is registered as a debug file is rotated with the debug files
  (`ProtectedBackupStays` has the exception).
- With an empty merge map the graph is returned as it is, self-references included (`CollapseIsQuotient`).

## Model

| member | source | states |
|---|---|---|
| ChunkPlanner.CollectSteps | apatch/apply_session.py:171-182 | the applicable steps in first-occurrence order, and for each exactly its known target files |
| ChunkPlanner.AddPlaceholders | apatch/apply_session.py:187-190 | a step without a known target gets one slot of its own, all others keep their files |
| ChunkPlanner.LastPositions | apatch/apply_session.py:192-195 | every file's last position among the steps |
| ChunkPlanner.CloseGroup | apatch/apply_session.py:200-208 | the group closes at the first position behind which no file continues; every cut inside it divides a file |
| ChunkPlanner.AtomicGroups | apatch/apply_session.py:197-211 | the groups are the finest consecutive split that divides no file: they cut exactly at the clean positions |
| ChunkPlanner.Pack | apatch/apply_session.py:213-226 | greedy packing divides no file, holds the limit or one indivisible group per chunk, and leaves no chunk that could take the next group |
| ChunkPlanner.GreedyStaysAhead | apatch/apply_session.py:213-226 | after as many chunks no admissible split has come further than the greedy one |
| ChunkPlanner.GreedyIsMinimal | apatch/apply_session.py:213-226 | no admissible split has fewer chunks |
| ChunkPlanner.BuildChunks | apatch/apply_session.py:160-226 | the result is a layout: a split into admissible, undivided pieces with the minimal number of chunks |
| ChunkPlanner.LayoutKeepsSteps | apatch/apply_session.py:160-226 | concatenating the chunks gives the applicable steps, each once and in order; no chunk is empty |
| ChunkPlanner.LayoutDividesNoFile | apatch/apply_session.py:160-170 | no file has steps in two chunks, whatever the order of the log |
| ChunkPlanner.OversizedChunkIsAtomic | apatch/apply_session.py:192-226 | both parts of any cut of a chunk above the limit share a file |
| ChunkLayout.FilesAreTargets | apatch/apply_session.py:171-182 | a step with a target touches exactly the targets its applicable entries name, the resolved path before the one written |
| ChunkLayout.OneTargetOneChunk | apatch/apply_session.py:160-170 | applicable entries with the same target have their steps in one chunk |
| ChunkLayout.OwnSlot | apatch/apply_session.py:187-190 | a step without a target takes one slot and shares it with no other step, unless a file is named like a placeholder |
| ChunkLayout.TargetlessConnectsNothing | apatch/apply_session.py:187-226 | such a step connects nothing: a chunk that holds it with others is within the limit, or steps on both sides of it share a file |
| ChunkLayout.LayoutIsDivision | apatch/apply_session.py:160-226 | the chunks divide the applicable steps into pieces that share no file and fit the limit or cannot be divided |
| ChunkLayout.LayoutIsMinimal | apatch/apply_session.py:213-226 | no such division of the steps has fewer pieces |
| ApplySession.NextKeeps | apatch/apply_session.py:299-650 | one call with any answer of its environment keeps the session file, cursor, reports, checkpoints and blocked failure in agreement with the history of applier calls, clearings and aborts |
| ApplySession.RunKeeps | apatch/apply_session.py:299-650 | so does every run of calls, resets and aborts included |
| ApplySession.AppliedIsPrefixOfPlan | apatch/apply_session.py:525-643 | in every run, what was applied for the current session is a prefix of the plan's applicable steps: nothing skipped, repeated or reordered |
| ApplySession.CursorCountsApplied | apatch/apply_session.py:641-643 | 0 <= cursor <= chunks, one report per applied chunk, the applied chunks are the prefix at the cursor, and a complete session has applied the whole plan |
| ApplySession.DeferredVerifyComesLast | apatch/apply_session.py:531-540 | in deferred mode a call carries the verify command exactly when it completes the plan |
| ApplySession.CursorMovesExactly | apatch/apply_session.py:561-643 | a call tries at most one chunk; the cursor moves by one exactly when that chunk was applied without a verify rollback, and the session is removed exactly on a verify rollback |
| ApplySession.BlockedStaysBlocked | apatch/apply_session.py:457-458 | after a notarization failure no sequence of calls without reset and abort applies anything or changes the stored session |
| ApplySession.OthersLeaveItAlone | apatch/apply_session.py:355-370 | calls for other logs, without reset and abort, change nothing about an unfinished session |
| ApplySession.OthersStartExactly | apatch/apply_session.py:358-370 | a call for other logs clears the stored session and starts its own exactly when that one has applied its whole plan; otherwise it is refused |
| ApplySession.AbortEndsSession | apatch/apply_session.py:322-353 | an admitted abort answers with the checkpoint that the session's outcomes reported last, and ends the session |
| ApplySession.CheckpointWasReported | apatch/apply_session.py:322-330 | that checkpoint comes from an outcome of the session, and no later one reported any |
| ApplySession.AfterAbortStartsAfresh | apatch/apply_session.py:344-372 | the next call that applies begins a session of its own, for whatever logs |
| ApplySession.AbortedIsNeverApplied | apatch/apply_session.py:322-353 | in every run nothing is applied after an abort until a session begins |
| ApplySession.AnswersTell | apatch/apply_session.py:299-724 | every answer tells whether a chunk was tried, how that ended, the failure kept, and whether any of the plan is left |
| ApplySession.LeaseFollowsAttempts | apatch/apply_session.py:492-607 | in every run the session says it holds the sandbox lease exactly after an attempt, unless that failed its notarization and the lease could be released |
| ApplySession.ReportNamesDiffer | apatch/apply_session.py:641-643 | the reports of different chunks have different names |
| ApplySession.RunOverwritesNone | apatch/apply_session.py:355-372 | in a run without reset and abort a session begins only after the previous one was cleared with its whole plan applied, or rolled back |
| ApplySession.ResetReplacesExactly | apatch/apply_session.py:355-450 | a reset replaces the stored session exactly when the new plan has chunks and is admitted |
| ApplySession.GoodCallsComplete | apatch/apply_session.py:525-664 | as many good calls as there are chunks complete the session, and "continue" is false exactly on the last |
| ApplySession.SessionFile.RunApplySession | apatch/apply_session.py:299-724 | state, response and history of a call, with the chunks the planner makes, equal the specified step |
| ApplySession.SessionFile.StartSession | apatch/apply_session.py:372-455 | planning refusal, effect refusal, or a fresh session saved and continued |
| ApplySession.SessionFile.ContinueSession | apatch/apply_session.py:457-724 | blocked, complete, lease refused, crashed, notarization failure, verify rollback or advance, with the whole new session |
| Backup.BackupNameInjective | apatch/backup.py:124-125 | backup names differ when numbers or base names differ |
| Backup.BasenameExactly | apatch/backup.py:124-125 | the base name is what is behind the last slash |
| Backup.NewRecordSays | apatch/backup.py:105-136 | a new record says which file, step and kind of change it is of, and keeps what the file held |
| Backup.RestoreAllAt | apatch/backup.py:298-315 | replaying a log backwards decides each file by its oldest entry and leaves the others alone |
| Backup.SessionRollbackRestores | apatch/backup.py:90-141 | after any run of backed-up mutations, in any order of steps and with CREATE for absent files only, and of undone newest steps, session rollback gives exactly the starting workspace |
| Backup.LiveNamesDistinct | apatch/backup.py:97-136 | in such runs no two live backups share a name |
| Backup.UndoReturnsToStepStart | apatch/backup.py:143-185 | undoing the newest step gives exactly the workspace and the log from before it |
| Backup.UndoAllIsSessionRollback | apatch/backup.py:276-315 | undoing all steps newest first gives the workspace of a session rollback |
| Backup.UndoingAllRestores | apatch/backup.py:143-185 | after a run that goes step by step, undoing all steps newest first gives exactly the starting workspace |
| Backup.SessionRollbackExact | apatch/backup.py:109-118 | without discipline on CREATE a file comes back exactly unless it existed and its oldest entry says created |
| Backup.UndoThenRollbackExact | apatch/backup.py:143-185 | after any step is undone a session rollback restores a file exactly unless that step held the file's oldest record and an oldest survivor with another state stays |
| Backup.RunThenUndoExact | apatch/backup.py:90-185 | so after any such run and any undone step the rollback gives the starting workspace iff no file is in that case |
| Backup.UndoingTheFirstEditLosesTheOrigin | apatch/backup.py:143-185 | a file edited in steps 1 and 2 with step 1 undone rolls back to what step 1 wrote |
| Backup.NextNameTakenExactly | apatch/backup.py:124-130 | the next backup after an undone step overwrites a live copy exactly when the entry now outside the numbering survives with the same base name |
| Backup.UndoingAnOlderStepLosesABackup | apatch/backup.py:176-181 | a four-step family in which a reused name makes the rollback give one file the contents of another |
| Backup.RestoreFileExact | apatch/backup.py:187-214 | a single file is restored to its starting state unless the session created it, it is gone, and a younger entry still has a copy |
| Backup.ReportedExactly | apatch/backup.py:143-315 | an undo reports a file iff the folder has a copy of it, or it was created and is there |
| Backup.ScannedExactly | apatch/backup.py:187-214 | so does a single restore, which otherwise changes nothing and never another file |
| Backup.BackupManager.SaveMetadata | apatch/backup.py:60-88 | the log is saved unless checkpoint and manager belong to different governed sessions; owner and manager then agree |
| Backup.OwnerStays | apatch/backup.py:68-82 | over any run of saves an owner never changes; a manager of its session or of none always saves, any other never |
| Backup.FirstSessionOwns | apatch/backup.py:81-82 | without an owner the first manager that works for a session becomes it |
| Backup.BackupManager.CreateBackup | apatch/backup.py:90-141 | new store, owner and answer for a repeated record, a CREATE, a missing file, a copy; refused exactly between different governed sessions, with log and owner unchanged |
| Backup.BackupManager.RollbackStep | apatch/backup.py:143-185 | workspace, remaining log, owner and reported files of a step rollback; refused exactly between different governed sessions |
| Backup.BackupManager.RestoreFile | apatch/backup.py:187-214 | the workspace and answer of the oldest-first scan |
| Backup.BackupManager.RollbackSession | apatch/backup.py:276-320 | the workspace of the reversed replay, the reported files, and the removed session folder |
| ConceptMerge.FindSurvivor | apatch/concept_merge.py:65-70 | the walk ends for every merge map, circles included, at the specified survivor |
| ConceptMerge.SurvivorIdempotent | apatch/concept_merge.py:65-70 | the survivor of a survivor is itself, for any merge map |
| ConceptMerge.SurvivorIsFirst | apatch/concept_merge.py:65-70 | the survivor is where the chain of merges first ends or first returns to a concept it has passed |
| ConceptMerge.RewriteRelations | apatch/concept_merge.py:107-122 | references rewritten to survivors, self-references and repetitions dropped, other entries kept in place |
| ConceptMerge.RewrittenExactly | apatch/concept_merge.py:107-122 | of the references that become the same one the first stays, with its other fields, and what is no reference stays in order; the latter if nothing is merged into a nameless concept |
| ConceptMerge.CollapseGraph | apatch/concept_merge.py:73-134 | the loops compute the specified collapsed graph |
| ConceptMerge.CollapseIsQuotient | apatch/concept_merge.py:65-134 | (s, rel, t) is an edge of the result iff s stays, s differs from t, and some concept s survives has a rel-reference to something t survives |
| ConceptMerge.CollapseKeepsContents | apatch/concept_merge.py:84-123 | exactly the self-surviving concepts stay; aliases, realizations and absorbed ids are those of the concept and of all it survives |
| ConceptMerge.RealizationsAreAddedOnce | apatch/concept_merge.py:104-106 | a survivor's own realizations stay in front, and what merging adds is new and added once |
| ConceptMerge.CollapseMovesClaims | apatch/concept_merge.py:124-134 | every claim stays and is about exactly the survivors of what it was about |
| ConceptMerge.CollapseIdempotent | apatch/concept_merge.py:73-134 | collapsing twice with the same merges equals collapsing once |
| ConceptMerge.SurvivorResolves | apatch/concept_merge.py:65-70 | a survivor is past every merge exactly when the chain of merges from the concept ends |
| ConceptMerge.RecordedMergeResolves | apatch/concept_merge.py:41-49 | recording a merge leaves every concept resolvable iff all were without it and the target does not end at the dropped concept |
| ConceptMerge.MergeStore.RecordMerge | apatch/concept_merge.py:41-49 | the store gains or replaces one merge; merging a concept into itself is refused |
| ConceptMerge.MergeStore.Unmerge | apatch/concept_merge.py:52-57 | the merge is gone, all others stay, and the answer says whether it existed |
| Reconciliation.Deduplicate | apatch/contribution_delivery.py:91 | the non-empty ids, first occurrences only |
| Reconciliation.ReconcileContributions | apatch/contribution_delivery.py:80-275 | batches, tallies, errors, completeness flags and status of a reconciliation |
| Reconciliation.ReconcilePartitions | apatch/contribution_delivery.py:163-233 | present, missing and conflicts partition the ids of the accepted batches, and all requested ids when there is no error; envelopes and verification classes refine present; a rejected batch adds nothing |
| Reconciliation.JudgedExactly | apatch/contribution_delivery.py:146-222 | an answer counts iff it is for the Avatar and puts each id of the batch, and no other, on exactly one list, with envelopes and verification refining the present ones |
| Reconciliation.StatusExactly | apatch/contribution_delivery.py:91-275 | ids go out in order and in full batches; each status, completeness flag and ok says exactly what stands in the way, with no Tracker, no Avatar and failed batches included |
| Reconciliation.InSyncExactly | apatch/contribution_delivery.py:245-275 | "in sync" iff complete, and then every requested id is present, enveloped, and verified if classified |
| ContributionSync.CleanDelivery | apatch/contribution_delivery.py:278-404 | a delivery without errors leaves nothing pending and acknowledges every listed event |
| DeliveryLaws.UsableExactly | apatch/contribution_delivery.py:340-350 | an answer counts iff it is a 200 with a JSON object |
| DeliveryLaws.PostedExactly | apatch/contribution_delivery.py:291-298 | posted is exactly what is listed and either unacknowledged or forced |
| DeliveryLaws.PostedInOrder | apatch/contribution_delivery.py:317-330 | in listing order and in full batches of the size clamped to 1..250, but for the last |
| DeliveryLaws.AcknowledgedExactly | apatch/contribution_delivery.py:351-378 | for every Tracker: an event is acknowledged after a delivery iff it was before or a usable answer accepted it; as many rows count as delivered as were accepted; ok iff all were |
| DeliveryLaws.PendingExactly | apatch/contribution_delivery.py:381-393 | pending are exactly the ids of listed events without acknowledgement, and the forced ones no answer accepted |
| DeliveryLaws.OfflineExactly | apatch/contribution_delivery.py:299-306 | offline nothing changes, and everything that would be posted is pending |
| DeliveryLaws.SyncPostsExactly | apatch/contribution_delivery.py:407-605 | a sync posts what is unacknowledged, and of the rest exactly what a first reconciliation without errors reports missing, without envelope or unverified |
| DeliveryLaws.SyncAcknowledgesExactly | apatch/contribution_delivery.py:407-605 | a sync acknowledges an event only if it was acknowledged before or the Tracker accepted it, and then always |
| ContributionSync.OnlineOkMeansDelivered | apatch/contribution_delivery.py:594-605 | against any Tracker an online "ok" means every listed event is acknowledged and nothing is pending |
| ContributionSync.OnlineOkMeansReconciled | apatch/contribution_delivery.py:594-605 | and its last reconciliation was complete and covered every listed id |
| ContributionSync.ExportedIsListedExactly | apatch/contribution_delivery.py:36-50 | an exported event of the Avatar is listed for delivery iff its id does not end in ".ack" |
| SyncConvergence.SyncConverges | apatch/contribution_delivery.py:407-605 | one sync against any truthful Tracker, whatever its state and order of answers, settles every listed event, acknowledged-but-lost ones included, with nothing pending |
| SyncConvergence.StoreConverges | apatch/contribution_delivery.py:407-605 | export and one such sync settle every stored event of the Avatar whose id does not end in ".ack" |
| SyncConvergence.KeeperIsTruthful | apatch/contribution_delivery.py:139-233 | a Tracker that keeps what it is given and answers by it is truthful, so such Trackers exist |
| ContributionSync.Outbox.ExportPending | apatch/contribution_export.py:58-84 | new outbox and exported ids: present ones are skipped, others written once |
| ContributionSync.Outbox.PendingCount | apatch/contribution_delivery.py:53-63 | the number of listed events without acknowledgement |
| ContributionSync.Outbox.AcknowledgeBatch | apatch/contribution_delivery.py:351-378 | acknowledgement files, counts and forced deliveries of one answered batch |
| ContributionSync.Outbox.DeliverPending | apatch/contribution_delivery.py:278-404 | outbox, remote state and result of a delivery |
| ContributionSync.Outbox.SyncContributions | apatch/contribution_delivery.py:407-605 | export, reconcile, deliver with replay, reconcile again |
| AvatarSync.QuarantineHolds | apatch/contribution_export.py:449-456 | a quarantined event is not uploaded by a call and stays quarantined |
| AvatarSync.QuarantineIsForever | apatch/contribution_export.py:449-515 | nor by any sequence of calls, while no other local event has its id |
| AvatarSync.QuarantineExactly | apatch/contribution_export.py:496-588 | that condition is exact, with or without a selection: otherwise some remote ends the quarantine |
| AvatarSync.SentExactly | apatch/contribution_export.py:437-456 | unless the remote stops the uploads, exactly the events without receipt, or reported missing or unverified, are sent, quarantined ones excepted |
| AvatarSync.PreviewIsKept | apatch/contribution_export.py:395-401 | what a dry run announces, in events and batches, is what the call then sends, unless the remote asks for a replay or stops the uploads |
| AvatarSync.SelectedReceiptsWait | apatch/contribution_export.py:532-583 | with a selection a new success receipt means that the event was uploaded, that a second reconciliation took place, made with the receipts as they were after the uploads, and that it was complete |
| AvatarSync.SelectedReceiptExactly | apatch/contribution_export.py:494-583 | and exactly then: a selected event without a success receipt gets one iff an upload of it was accepted and that second reconciliation took place and was complete |
| AvatarReceipts.ReceiptExactly | apatch/contribution_export.py:494-583 | with distinct ids, the receipt of every event after a call, read off the answers: quarantined if permanently rejected, a success if accepted and confirmed, otherwise as before |
| AvatarReceipts.SelectionExactly | apatch/contribution_export.py:344-372 | a selection is accepted iff it is a non-empty list of distinct non-empty ids, each of exactly one local event; the call then works on those, in its order |
| AvatarReceipts.UploadsExactly | apatch/contribution_export.py:459-480 | the pending events go up in order, in full batches of the limit clamped to 1..100 and a last shorter one, until the Avatar refuses or its client raises: all of them if neither happens |
| AvatarReceipts.QuarantineEntersExactly | apatch/contribution_export.py:507-517 | an event enters quarantine iff an answer permanently rejects it |
| AvatarReceipts.SuccessExactly | apatch/contribution_export.py:499-506 | without a selection it gains its success receipt iff an answer accepts it |
| AvatarReceipts.OkExactly | apatch/contribution_export.py:472-519 | a call is ok iff every answer was usable and failed nothing but permanently, and the last reconciliation is complete |
| AvatarReceipts.AsksAgainExactly | apatch/contribution_export.py:526-546 | there is a second reconciliation iff the first was without errors, or the Avatar was unbound and accepted an event |
| AvatarSync.ReceiptStore.SettleBatch | apatch/contribution_export.py:494-519 | receipts, deferred receipts and quarantine of one answered batch |
| AvatarSync.ReceiptStore.UploadPending | apatch/contribution_export.py:461-521 | all batches in order, up to an identity refusal or an exception |
| AvatarSync.ReceiptStore.Sync | apatch/contribution_export.py:324-588 | answer, receipts and remote state of a whole call; selection errors, dry runs and unconfigured calls touch neither |
| ArtifactPaths.OneStarExactly | apatch/artifact_governance.py:279-286 | a name matches a pattern with one star iff it starts with what is before it and ends, without overlap, with what is behind it |
| ArtifactPaths.InferredStaticIsKept | apatch/artifact_governance.py:650-658 | whatever the inference rules say of a protected path, it is a class that is replay critical and not collected by default |
| ArtifactPaths.DebugIsNotStatic | apatch/artifact_governance.py:294-299 | no debug file is a protected path |
| ArtifactPaths.BackupIsNotStatic | apatch/artifact_governance.py:294-299 | nor is anything below the backups folder |
| ArtifactSafety.StepRow | apatch/artifact_governance.py:429-436 | the row of a registered path after any step: only its own registration, sync, session end, or reconcile changes it |
| ArtifactSafety.StepNewRow | apatch/artifact_governance.py:362-398 | a new row comes from a producer, a lease, inference, or is the registry's own |
| ArtifactSafety.StepFiles | apatch/artifact_governance.py:622-647 | only the collecting steps and removal from outside take a file away |
| ArtifactSafety.CollectorsSpare | apatch/artifact_governance.py:1417-1526 | neither collector mode deletes a protected or leased path; what it deletes is allowed by the registry, or is an unregistered backup or debug file |
| ArtifactSafety.RotationMeetsCap | apatch/artifact_governance.py:1454-1518 | the debug files on disk after a rotation total at most the cap, unless all of them are registered and not to be deleted |
| ArtifactSafety.RotatesOldestFirst | apatch/artifact_governance.py:1501-1518 | held files stay; of the others stale ones go, none that is older stays when a younger one goes, and none that is not stale goes when all were within the cap |
| ArtifactSafety.SafePlanIsValid | apatch/artifact_governance.py:1280-1322 | the collected plan always passes its validation |
| ArtifactSafety.SafePlanIsComplete | apatch/artifact_governance.py:1280-1309 | a file the safe plan leaves is unregistered, not to be deleted, or below a protected backup |
| ArtifactSafety.ProtectedBackupStays | apatch/artifact_governance.py:1280-1526 | neither collector deletes a protected backup or anything below one, unless it is registered as a debug file and rotated with those |
| ArtifactSafety.BackupRotatesExactly | apatch/artifact_governance.py:1474-1499 | of the listed backups exactly those go that are older than the newest 50 and are neither protected nor registered and held |
| ArtifactSafety.OldestBackupsGoFirst | apatch/artifact_governance.py:1474-1499 | when a backup is rotated away, every older one goes too unless something keeps it |
| ArtifactSafety.BackupsLeft | apatch/artifact_governance.py:1474-1499 | a backup still there after a rotation was one of the newest fifty, or something keeps it |
| RegistryRows.SafeDeletesExactly | apatch/artifact_governance.py:980-1309 | the safe collector deletes a file iff its row is free, its name neither a lock's nor protected, nothing it depends on leased, the row not merely backfilled, and no protected backup holds it |
| RegistryRows.DependenciesAreSpared | apatch/artifact_governance.py:980-1008 | neither collector deletes an artifact while something it depends on is leased |
| RegistryRows.DebugFilesExactly | apatch/artifact_governance.py:1454-1526 | rotation takes as debug files exactly those registered as such, or named so and unregistered, and leaves at most ten megabytes of them unless all are held |
| RegistryRows.StaleFilesGo | apatch/artifact_governance.py:1500-1526 | a debug file that nothing holds goes once older than seven days, and only then while all are within ten megabytes |
| RegistryRows.DisposesExactly | apatch/artifact_governance.py:622-647 | an ended session disposes of its own ephemeral, collectable, unleased rows and whatever is named like the lock of one |
| RegistryRows.SyncedExactly | apatch/artifact_governance.py:1011-1097 | the row after a run-state sync, field by field: run state of the run with a lease, free and of its old class without one |
| RegistryRows.EndedExactly | apatch/artifact_governance.py:1127-1147 | every row after the end of a session, field by field: logs and leased run state freed, all else as it was |
| RegistryRows.ReconciledExactly | apatch/artifact_governance.py:1325-1380 | every known row after a reconcile, field by field: ended apply sessions freed, canonical classes repaired, all else as it was |
| RegistryRows.StoreRowsExactly | apatch/artifact_governance.py:362-398 | bootstrapping gives a row of class registry to those of the store's two files that exist without one, and changes no other row |
| RegistryRows.NewRowsSay | apatch/artifact_governance.py:1325-1414 | rows that no producer wrote are never collectable and have their class's part in replays |
| ArtifactSafety.LeasesAreTaken | apatch/artifact_governance.py:1011-1018 | a lease only comes from registering with one or a run-state sync with one |
| ArtifactSafety.LeaseStaysExactly | apatch/artifact_governance.py:1021-1025 | a step keeps a lease iff it is none of the freeing ones |
| ArtifactSafety.DisposedExactly | apatch/artifact_governance.py:622-647 | deleting a session's logs removes its disposable logs and their lock siblings, nothing else |
| ArtifactSafety.LeasedIsDeletedExactly | apatch/artifact_governance.py:622-647 | a collecting step deletes a leased path iff it is the lock sibling of a disposable log of the session being cleaned up |
| ArtifactSafety.LeasedLockIsDeleted | apatch/artifact_governance.py:622-647 | from every state a run reaches that case |
| ArtifactSafety.LeasedSurvives | apatch/artifact_governance.py:980-1025 | in every interleaving a leased file survives until its lease is freed |
| ArtifactSafety.EndingReleasesExactly | apatch/artifact_governance.py:1127-1147 | after the release a session may dispose of exactly its own logs |
| ArtifactSafety.EndingKeepsOtherRows | apatch/artifact_governance.py:1127-1147 | ending a session changes no row of another |
| ArtifactSafety.EndingDeletesExactly | apatch/artifact_governance.py:622-647 | of the files it deletes exactly its own logs and their lock siblings |
| ArtifactSafety.ReconcileCompletes | apatch/artifact_governance.py:1325-1414 | after a reconcile nothing inferable is unregistered, the registry's own files included |
| ArtifactSafety.ReconcileBackfills | apatch/artifact_governance.py:1384-1403 | every inferable path gets a backfill row of its inferred class |
| ArtifactSafety.BackfillIsNoPermission | apatch/artifact_governance.py:987-991 | no later run may delete a backfilled path until a producer registers it, unless its name is an unprotected canonical one of another class than run state |
| ArtifactSafety.CanonicalBackfillIsLost | apatch/artifact_governance.py:1363-1382 | under those names a three-step run without any producer allows the deletion |
| ArtifactSafety.BackfillLostExactly | apatch/artifact_governance.py:980-1025 | so for a backfilled file some such run exists iff it has one of those names |
| ArtifactWorkspace.Workspace.LoadRegistry | apatch/artifact_governance.py:429-436 | the last row of each path |
| ArtifactWorkspace.Workspace.BootstrapStore | apatch/artifact_governance.py:362-398 | a registry file that exists without a row gets one |
| ArtifactWorkspace.Workspace.RegisterArtifact | apatch/artifact_governance.py:439-494 | the row is appended unless its lineage lacks tool or reason |
| ArtifactWorkspace.Workspace.PersistEntry | apatch/artifact_governance.py:1028-1057 | the row is appended with missing lineage filled in |
| ArtifactWorkspace.Workspace.SyncRunStateRegistry | apatch/artifact_governance.py:1060-1097 | acquire with a lease, release without |
| ArtifactWorkspace.Workspace.ReleaseSessionCleanup | apatch/artifact_governance.py:1127-1147 | every log and run-state row of the session released, in registry order; nothing for the empty session |
| ArtifactWorkspace.Workspace.DeleteSessionEphemerals | apatch/artifact_governance.py:622-647 | the session's disposable logs and lock siblings are gone; reported are exactly the disposable logs still there at their turn |
| ArtifactWorkspace.ReportedExactly | apatch/artifact_governance.py:628-647 | what is reported was there and is gone, and every disposable log there is reported unless its name ends in ".lock" |
| ArtifactWorkspace.Workspace.CollectSafe | apatch/artifact_governance.py:1280-1309 | exactly the existing, unprotected paths the registry allows to delete |
| ArtifactWorkspace.Workspace.GcSafe | apatch/artifact_governance.py:1417-1435 | exactly that plan is deleted |
| ArtifactWorkspace.Workspace.GcRotate | apatch/artifact_governance.py:1468-1526 | the safe plan, then excess backups, then debug files by age and total size |
| ArtifactWorkspace.Workspace.RegisterInferred | apatch/artifact_governance.py:1325-1414 | ended runs released, canonical classes repaired, inferable paths backfilled |
| VerifyPool.RunSequential | apatch/conformance.py:410-439 | ran, failures and broken labels of the loop with budget and fail-fast |
| VerifyPool.RunParallel | apatch/conformance.py:318-408 | the pool's report equals that of some schedule of the step system, which it follows to its end |
| VerifyPool.RunInv | apatch/conformance.py:320-400 | at most `workers` commands run, each is started once and in order, and the report holds exactly the labels of the collected ones |
| VerifyPool.SchedulesEnd | apatch/conformance.py:351-400 | without a budget a schedule has at most one wait per command |
| VerifyPool.PoolGreenIsTrue | apatch/conformance.py:318-408 | under any schedule an all-green report means every command ran and was green |
| VerifyPool.SequentialIsPrefix | apatch/conformance.py:410-436 | the loop reports a prefix of the commands and why it ended |
| VerifyPool.SchedulesAgree | apatch/conformance.py:318-439 | without budget and fail-fast every schedule reports the loop's count and multisets of labels |
| VerifyPool.FailFastCovers | apatch/conformance.py:318-439 | with fail-fast every schedule reports at least what the loop does, and either is all green iff every command is |
| VerifyPool.SequentialGreenExactly | apatch/conformance.py:410-436 | under a budget the loop is all green with commands unrun exactly when the deadline passes during a command that is not the last, all so far being green |
| VerifyPool.GreenThoughUnrun | apatch/conformance.py:410-436 | it happens with every list of two or more commands whose first is green, and the spec then counts as conformant |
| VerifyPool.BucketsAgree | apatch/conformance.py:580-596 | without fail-fast pool and loop give a spec the same bucket; with it drifted in the loop is drifted in every schedule, and BucketsAgreeExactly says when they agree |
| VerifyPool.FailFastBucketsDiffer | apatch/conformance.py:580-596 | two commands for which the bucket depends on the schedule, the smallest case of BucketsAgreeExactly failing |
| FailFastPool.RunCautious | apatch/conformance.py:351-400 | a pool that fails fast starts at most `workers` commands that are not green, and as many commands as it has workers if there are so many |
| FailFastPool.InOrderFails | apatch/conformance.py:410-439 | the loop reports a failing command iff there is one, or with fail-fast iff none that cannot run comes before it |
| FailFastPool.MissesExactly | apatch/conformance.py:318-408 | some schedule misses every failing command iff the first one stands at `workers` or later and a command that cannot run precedes it |
| FailFastPool.CatchesExactly | apatch/conformance.py:318-408 | some schedule reports a failing command iff fewer than `workers` commands before the first one are not green |
| FailFastPool.BucketsAgreeExactly | apatch/conformance.py:580-596 | with fail-fast every schedule gives the loop's bucket iff no command fails, the first red one fails, or `workers` commands cannot run before the first failing one |
| ConformanceGate.ClassifyAttestation | apatch/conformance.py:147-163 | exactly when attestation alone says conformant, stale, unproven or in progress; it never says drifted or broken |
| ConformanceGate.EvaluateExactly | apatch/conformance.py:530-602 | the verdict on a spec that cannot be read, one that does not run live, and one that does, from its report and attestation |
| ConformanceGate.InPoolFails | apatch/conformance.py:318-408 | every schedule of a pool reports only commands that failed, without fail-fast one iff there is one, and at least those the loop would; MissesExactly and CatchesExactly close the gap under fail-fast |
| ConformanceGate.DriftedExactly | apatch/conformance.py:530-602 | when a spec is drifted: exactly, without fail-fast for every way of running it and with fail-fast for the loop |
| ConformanceGate.BucketsPartition | apatch/conformance.py:616-623 | every gated spec is in exactly one bucket |
| ConformanceGate.CollectVerdicts | apatch/conformance.py:604-623 | the verdicts in contract order, whatever order the workers finish in |
| ConformanceGate.BlockOnExactly | apatch/conformance.py:91-96 | a bucket blocks iff it is configured, or it is drifted and no known one is |
| ConformanceGate.JudgeGate | apatch/conformance.py:627-719 | passed iff no blocking bucket is used; else failed or advisory by mode |
| ConformanceGate.GateExactly | apatch/conformance.py:627-719 | the gate passes iff no spec is in a configured bucket, nor in drifted when no known one is configured; otherwise it fails in blocking mode and advises in the other |
| ConformanceGate.DefaultGateExactly | apatch/conformance.py:658-719 | by default the blocking gate fails only for a command that failed; without fail-fast iff some live spec has one; FailFastGateExactly has the rest |
| ConformanceGate.FailFastGateExactly | apatch/conformance.py:273-439 | with fail-fast and any workers per spec: some schedules let the gate pass iff every live spec may miss its failing commands, and some fail it iff one may catch them |
| ConformanceGate.InOrderGateExactly | apatch/conformance.py:410-439 | with fail-fast, run in order, it passes iff no live spec has a failing command first among its red ones |
| DocOutline.SplitExactly | apatch/doc_outline.py:8-14 | however the number expression backtracks, a number is read iff a separator or nothing follows its first group, and the text around that group is kept |
| DocOutline.SplitReads | apatch/doc_outline.py:27-33 | what a split of a title says about the title |
| DocOutline.ReadsSplit | apatch/doc_outline.py:27-33 | the converse: a title of that form is split so |
| DocOutline.RenumberIsWrite | apatch/doc_outline.py:42-54 | renumbering rewrites the first number of a numbered heading of the levels and leaves every other line alone |
| DocOutline.WrittenReadsBack | apatch/doc_outline.py:36-54 | a written heading reads back exactly while its number is not negative |
| DocOutline.ShiftsCompose | apatch/doc_outline.py:36-54 | renumbering by a then b equals a + b iff the line is untouched, b is 0, or the number in between is not negative |
| OutlineText.NumberAfter | apatch/doc_outline.py:42-54 | the number of a heading of a level after a non-negative shift |
| OutlineText.InsertingKeepsNumbering | apatch/doc_outline.py:113-135 | inserting section k before heading k with delta 1 turns the numbering 1..n into 1..n+1 |
| OutlineText.InsertingKeepsNesting | apatch/doc_outline.py:113-135 | and every level-3 heading keeps the number of the level-2 heading above it |
| OutlineText.JoinOfLines | apatch/doc_outline.py:90-96 | joining the lines of a text gives the text |
| OutlineText.LinesOfJoin | apatch/doc_outline.py:90-96 | splitting joined lines gives the lines |
| OutlineText.NormalizedPlain | apatch/doc_outline.py:89 | a text without a carriage return before a line feed is normal already |
| OutlineText.NormalizedBreak | apatch/doc_outline.py:89 | every such pair becomes a line feed, whatever is around it |
| OutlineText.BlockOfLines | apatch/doc_outline.py:127-134 | an inserted block is its lines, one final break more or less making no difference |
| OutlineText.RenumberKeepsLine | apatch/doc_outline.py:42-54 | a renumbered line is still one line |
| OutlineText.FindAnchor | apatch/doc_outline.py:57-67 | the first heading containing the anchor, else the first line, else nothing |
| OutlineText.Rejoin | apatch/doc_outline.py:70-73 | the joined lines, with one empty line added iff the original ends in a break and the lines do not; the final break is never lost |
| OutlineText.InsertSection | apatch/doc_outline.py:113-135 | the lines of the new text: above, block, and the shifted rest |
| OutlineText.InsertedTextIsNumbered | apatch/doc_outline.py:113-135 | so in the text it returns sections 1..n have become 1..n+1 |
| OutlineText.InsertedTextIsNested | apatch/doc_outline.py:113-135 | and subsections carry the number of their section |
| OutlineText.ShiftOutline | apatch/doc_outline.py:76-96 | the lines from the anchor on are renumbered; delta 0 returns the text itself; no levels or no anchor is an error |
| Capability.IntervalIsScoreTest | apatch/capability.py:55-65 | a rate lies in the interval iff the score test at z = 1.96 accepts it |
| Capability.IntervalIsOrdered | apatch/capability.py:58-70 | 0 <= lower <= mean <= upper <= 1 in exact arithmetic |
| Capability.ClampsNeverAct | apatch/capability.py:66-71 | the clamps to 0 and 1 change nothing |
| Capability.IntervalMirrors | apatch/capability.py:55-65 | swapping passed and failed mirrors the interval around 1/2 |
| Capability.MorePassesRaiseBothEnds | apatch/capability.py:55-65 | more passes of as many attempts never lower either end |
| Capability.RoundIsNearest | apatch/capability.py:66-71 | rounding is to the nearest, ties to even |
| Capability.WilsonIsOrdered | apatch/capability.py:55-71 | the reported, rounded figures keep the order within 0..1 |
| Capability.WilsonMirrors | apatch/capability.py:55-71 | and mirror exactly |
| Capability.WilsonReports | apatch/capability.py:55-71 | the reported mean is the share of passes and the reported ends are the least and greatest rates the score test accepts, each to the nearest of four decimals; nothing without attempts |
| Capability.GroupEvidence | apatch/capability.py:120-128 | eligible episodes grouped by Avatar and primary taxonomy, in order |
| Capability.Observe | apatch/capability.py:134-136 | passed, failed and attempted of a group |
| Capability.DeriveObservations | apatch/capability.py:115-155 | one observation per group, always within the interval's precondition |
| Capability.CountsEpisodes | apatch/capability.py:115-136 | what is counted are the eligible episodes of the Avatar and primary taxonomy with that outcome, each once |
| Capability.EachEpisodeCountsOnce | apatch/capability.py:120-128 | no episode is counted twice, and none that belongs somewhere is lost |
| CsvScope.PartitionCounts | apatch/csv_scope.py:40-48 | a partition holds each row of its slug as often as it occurs, and no other |
| CsvScope.Groups | apatch/csv_scope.py:40-48 | the partitions by slug, or a refusal iff a row lacks its slug |
| CsvScope.ValidateReplacement | apatch/csv_scope.py:21-71 | accepted iff not a slug table, or header, slugs, partitions and declared scope are respected; each refusal exactly when it is due, with exactly the slugs at fault |
| CsvScope.VerdictsExactly | apatch/csv_scope.py:36-71 | what each verdict says about the rows of both tables: slugs gone, undeclared slugs whose rows changed, rows without a slug, and when none of this is so |
| CsvScope.DeclaredExactly | apatch/csv_scope.py:56-62 | a slug is declared iff it is not blank and a replacement record as long as the header, but not the header, carries it |
| CsvScope.NoPartitionDisappears | apatch/csv_scope.py:36-55 | over any run of accepted replacements the header stays and no partition disappears |
| CsvScope.UndeclaredPartitionIsKept | apatch/csv_scope.py:56-71 | a present partition that no step declares keeps its rows, if every step declares a scope |
| CsvScope.UndeclaredChangeExactly | apatch/csv_scope.py:36-71 | some accepted run that never declares a slug changes its rows iff the table is readable, the slug not blank, and it has no rows at the start |
| CsvScope.NewPartitionNeedsNoDeclaration | apatch/csv_scope.py:50-71 | a row of a new slug is accepted under every declaration |
| BoundaryScope.LineOffsets | apatch/boundary_scope.py:40-44 | where each line begins in the joined text |
| BoundaryScope.LineOfPosition | apatch/boundary_scope.py:47-55 | inside the text the line that holds the position, empty lines included in the list; behind it the number of lines |
| BoundaryScope.HeldCharacter | apatch/boundary_scope.py:40-55 | the line that holds a position has the joined text's character there |
| BoundaryScope.HeldOnce | apatch/boundary_scope.py:40-55 | and no other line holds it |
| BoundaryScope.DepthCounts | apatch/boundary_scope.py:85-90 | the depth is the number of opening less that of closing braces |
| BoundaryScope.FirstReturnIsMatch | apatch/boundary_scope.py:85-94 | the depth first returns to zero at a position iff a matching brace stands there: balanced text lies between |
| BoundaryScope.BlockClose | apatch/boundary_scope.py:77-95 | one past the line of the matching brace, and nothing iff there is no brace or no match |
| BoundaryScope.FindBlockOpenLine | apatch/boundary_scope.py:58-74 | the nearest marked line in the window, else the nearest less indented one with a brace, else none |
| BoundaryScope.OpenLineExactly | apatch/boundary_scope.py:58-74 | which line that is: of the 120 up to start the nearest marked one, else the nearest less indented one with a brace, else none |
| BoundaryScope.HeuristicScanEnd | apatch/boundary_scope.py:28-37 | in (start, lines], and exactly behind the block open at start if it closes at or below start |
| BoundaryScope.ScanEndExactly | apatch/boundary_scope.py:28-37 | the end is right behind the line that closes the open block, if that is at or below start, else the end of the file |
| BoundaryScope.ClosesExactly | apatch/boundary_scope.py:77-95 | a line closes the block iff it holds the brace that matches the open line's first one |
| BoundaryScope.ForwardScanEnd | apatch/boundary_scope.py:8-25 | the syntax tree's end if it lies behind start, else the heuristic one |

## Left out

- HTTP clients, subprocesses, git, clocks, file locks and atomic renames: outcomes of the environment, each write one step.
- Signatures, certificates, identity gates and the contents of envelopes: a Tracker or Avatar only reports them.
- `_reconcile_with_trustchain_avatar`: the ids it collects and its number of errors are arbitrary, and its batches are not modelled; when it is ok and complete is computed as in the code.
- Planning filters (`only_drifted`, `min_confidence`), leases of the sandbox and the applier itself: the plan, the grant and the applier's outcome are inputs of a call. `dropped_plan_steps` would only add an easy complement.
- `release_spec_run_scoped_artifacts` and the choice between the flat and the structured registry layout: the registry's own two paths are fixed for a run.
- ArtifactRegistry.ReleaseEnded: which apply sessions have ended is an input, since it is read from other files.
- `gc_report`, hygiene counters, protected-backup discovery: the protected set is an input.
- ArtifactPaths.Infer: file names are taken in normal form, and patterns other than `*` and a trailing `/**` do not occur.
- ContributionSync.Deliver: what stays pending is a set of ids; the offline answer of the code counts rows.
- The order in which the outbox directory is walked: the listing order is an input, new files come last.
- DocOutline.ParseHeading: lines hold no line break and outline digits are ASCII; other Unicode digits are not read.
- ConceptMerge.Collapse: aliases, absorbed ids and claim subjects are sets, so their sorted order is not captured; other fields of concepts and claims are not modelled.
- Capability.Wilson: exact reals and an abstract square root, so floating-point error is not captured; taxonomy ranking, recency and uncertainty reasons are left out.
- CsvScope.ValidateReplacement: rows are already parsed; row order inside a partition is not compared by the code either.
- BoundaryScope.FindBlockOpenLine: the block-opening expressions are an input (which lines match); `boundary_ast.py` is not part of this model.
- `is_ci_safe`, `gated_specs` and the baseline's changed files: which commands are candidates, which specs are gated and which are touched are inputs.
- Budgets at the gate: `ConformanceGate` treats runs without a time budget; `VerifyPool` covers budgets for one spec. A verify runner that raises, and a disabled project, are left out.
- CLI, console, guidance texts, profiles, ranking, YAML and fence handling: no hard property.
