# elasticctl: models and proofs

elasticctl manages Elastic Security content (detection rules, data views, dashboards, cases) from the
command line and over MCP. This project models the parts of it that have to be right while things go
wrong around them, and proves what they promise. `dafny verify dfyconfig.toml` checks everything.

**Crash-safe change reports** (`report_disk`, `report_recovery`, `report_runs`, `report_steps`,
`report_file`). A change report is published through a transaction directory that holds a staged
report, a backup, a snapshot of the original and an append-only journal of phases. `ReportDisk` is the
disk and its operations, with torn writes; `ReportRecovery` is the recovery procedure as the list of
operations it performs, and what happens when it is interrupted; `ReportRuns` puts whole processes
after one another, each stopped wherever it is stopped. `ReportSteps` says what may happen to one
call, and `ReportFiles` in `ReportFile` is the procedural code, every call of which may fail or be the
last, proved against those operation lists. One run is the list of its operations, so "stopped after k
of them, the next write torn after n bytes" covers every crash point. The theorem about whole
histories has torn writes and torn records too, with the exact condition under which recovery succeeds
at the end of one.

**Replacing a whole mirror** (`pull_disk`, `pull_transaction`, `pull_removal`). A pull replaces many
files under one journal that has a phase per file. `PullDisk` is the disk, the journal reader and what
recovery makes of a disk; `PullFiles` in `PullTransaction` is the procedural code, every call of which
keeps the promise that the old mirror can be restored and, while none fails, finds durable whatever
came before it; `PullRemoval` is about a removal of the transaction directory that stops half way.

**Line framing** (`bounded_io`). Lines are assembled from whatever chunks the reader delivers, under a
byte cap. The streaming reader is proved against a definition that looks at the whole stream.

**Data views** (`data_views`, `data_view_plans`, `data_view_import`, `data_view_apply`,
`data_view_deletion`, `data_view_removal`). The replacement patch, the import planner and validator,
and the optimistic apply loop against a server whose every answer is arbitrary, because anyone may
write to it between two requests. Deletion runs against a server with a state (views, references,
default), whose calls may fail before or after they took effect; other writers may replace the state
before any call, and the safety theorem is about the case that none does.

**Dashboards** (`dashboard_import`, `dashboard_apply`). The import planner and validator, and the apply
loop, which sends the whole dashboard and audits the answer for losses, against arbitrary answers.

**Reading a whole rule corpus** (`rule_corpus`). A divided read through a result window of 10,000,
against arbitrary answers and against a rule set that does not change.

**Canonical forms, drift and loss audit** (`json_tree`, `key_order`, `rule_forms`, `drift`,
`loss_audit`). Parsed JSON with its keys in written order; the on-disk and the comparison form of a
rule; the comparison of two rule sets; the audit of what a dashboard write lost, with rendered paths.

**Scanners and arithmetic** (`integer_scanner`, `json_text`, `json_grammar`, `civil_date`, `decimal`,
`result_rows`). The integer-range scan over unparsed JSON against the grammar of RFC 8259, the
calendar arithmetic against a day-by-day calendar, and the binary search that fits a list result into
its size limits.

**Case updates** (`case_updates`). A status change checked against the server's answer, and alerts
attached to a case in groups of one rule.

`wrappers`, `sequences`, `string_order` and `faults` hold what several of these share.

## What the proofs found

- The journal reader ignores a torn last record (`report_file.rs:580`), but the next record is
  appended behind the torn bytes (`report_file.rs:526-545`). After a torn append one uninterrupted
  recovery succeeds (`ReportRecovery.TornRecoveryRestores`); if that recovery is interrupted, the
  next one is accepted if and only if no record had been appended yet or the directory was already
  gone (`ReportRecovery.TornRecoveryRestartsIff`). Otherwise it refuses, with the report still on the
  disk. `ReportRuns.HistoryIsAtomic` says the same of whole histories, and
  `ReportRuns.TornRestartCanFail` is a history of two processes that ends so.
- Removal of the transaction directory is taken as one step by the commit protocol. If it stops half
  way, recovery refuses exactly when the journal outlives a file it vouches for: the original at the
  end of a recovery (`ReportRecovery.HalfRemovedAfterRecovery`), the backup or the original after a
  report was replaced (`ReportRecovery.HalfRemovedAfterInstall`, with such a disk in
  `ReportRecovery.HalfRemovedCanBeRefused`), and none where no report was before
  (`ReportRecovery.HalfRemovedAfterFirstInstall`).
- A pull has no snapshot of the originals to refuse by. If the removal that commits it stops half way
  and leaves the journal, recovery reports success; the mirror is then the old one if and only if the
  backup of every changed file is left, and otherwise may mix old and new files
  (`PullRemoval.HalfRemovedMirror`, `PullRemoval.HalfRemovedCanMix`).
- When the report appears or disappears between preparation and publication, publication fails and
  leaves the target alone. A target that vanished makes recovery refuse as well, and the transaction
  stays (`ReportFile.ReportFiles.Publish`).
- A deletion plan may be refused by its own validator: the planner does not look at the names the
  server returns, so a view with a blank title is planned and then refused
  (`DataViewDeletion.BlankTitlePlannedAndRefused`). Planner and validator agree exactly when the views
  selected from the listing and the default have names (`DataViewDeletion.PlannedAcceptedIff`).
- The lists of a dashboard import report can add up to more than its total: a dashboard whose write
  was lossy is listed as failed and as lossy if reading it back fails
  (`DashboardApply.TwoRowsIff`, `DashboardApply.TwiceListedIff`; `DashboardApply.ListedTwice` is one).

## Model

| member | source | states |
|---|---|---|
| ReportRuns.HistoryIsAtomic | crates/elasticctl-cli/src/report_file.rs:134-524 | over any sequence of processes, each stopped anywhere in recovery, preparation or publication, with torn writes and records: recovery succeeds if and only if every process survives, and then brings back exactly the last committed report; otherwise it refuses with that report still on the disk; nothing but the first content, absence, or a report some process was to publish is ever at the target |
| ReportRuns.WholeRecordsSurvive | crates/elasticctl-cli/src/report_file.rs:526-545 | while records reach the disk whole or not at all every process survives, so no journal is ever refused |
| ReportRuns.PublicationIsAtomic | crates/elasticctl-cli/src/report_file.rs:209-361 | stopped anywhere, torn writes and torn records included: while the transaction directory exists one recovery restores the old report or its absence; from its removal on the target is the new report |
| ReportRuns.PowerFailureIsAtomic | crates/elasticctl-cli/src/report_file.rs:209-361 | where every operation but the last begun was durable, losing that one in whole or in part still leaves the old or the new report |
| ReportRuns.PreparationIsAtomic | crates/elasticctl-cli/src/report_file.rs:134-207 | stopped anywhere, preparation has not touched the target and recovery leaves exactly what was there |
| ReportRecovery.RecoveryIsRestartable | crates/elasticctl-cli/src/report_file.rs:398-485 | however often recovery is cut short, its journal stays acceptable, what remains to be done is a suffix of what remained before, and completing it once restores the saved report |
| ReportRecovery.RecoveryResumes | crates/elasticctl-cli/src/report_file.rs:370-524 | stopped after k operations, recovery starts over with exactly the operations that were left |
| ReportRecovery.RecoveryIsIdempotent | crates/elasticctl-cli/src/report_file.rs:370-396 | a second complete recovery has nothing to do |
| ReportRecovery.TornRecoveryRestores | crates/elasticctl-cli/src/report_file.rs:547-606 | one uninterrupted recovery restores the report even behind a torn record |
| ReportRecovery.TornRecoveryRestartsIff | crates/elasticctl-cli/src/report_file.rs:526-606 | behind a torn record, an interrupted recovery can be restarted if and only if it had appended nothing or had finished; a refused disk still holds the report |
| ReportRuns.TornRestartCanFail | crates/elasticctl-cli/src/report_file.rs:526-606 | a process that dies while appending a record, and a second one that dies during its recovery, leave a journal that is refused |
| ReportRecovery.HalfRemovedAfterRecovery | crates/elasticctl-cli/src/report_file.rs:1014-1037 | directory removal that stops half way at the end of a recovery is refused if and only if a Restored journal outlives the original |
| ReportRecovery.HalfRemovedAfterInstall | crates/elasticctl-cli/src/report_file.rs:398-460 | over an existing report, a half-removed published transaction is refused if and only if the journal outlives backup or original; otherwise it is rolled back or committed, by whether the journal is left |
| ReportRecovery.HalfRemovedCanBeRefused | crates/elasticctl-cli/src/report_file.rs:398-460 | a published transaction whose backup was removed first is refused |
| ReportRecovery.HalfRemovedAfterFirstInstall | crates/elasticctl-cli/src/report_file.rs:487-524 | where no report was, a half-removed published transaction is never refused: it is rolled back if the journal is left and committed otherwise |
| ReportDisk.AppendReads | crates/elasticctl-cli/src/report_file.rs:526-617 | one appended record moves the journal along a valid transition; any other record, or any behind a torn tail, makes it unreadable for good |
| ReportDisk.JournalReadIff | crates/elasticctl-cli/src/report_file.rs:547-606 | a journal is read if and only if it begins with whether there was a report and every complete line moves on from the line before; it then stands where its last line leads |
| ReportDisk.TransitionsAre | crates/elasticctl-cli/src/report_file.rs:608-621 | a transaction moves on to the very next phase, or to Restoring from any phase in which the report may have moved; no other step is valid |
| ReportSteps.RecoveryAcceptsIff | crates/elasticctl-cli/src/report_file.rs:370-524 | on any disk whatever: recovery succeeds if and only if there is no transaction, no record, or files that fit the phase the journal names, the original compared with the backup or the target where the phase calls for it |
| ReportSteps.RecoveryLeaves | crates/elasticctl-cli/src/report_file.rs:370-524 | on any disk, a successful recovery leaves the backup if the report existed and one is there, nothing if a first report had been put in place, and the target as it is otherwise |
| ReportSteps.RefusalLeaves | crates/elasticctl-cli/src/report_file.rs:398-524 | on any disk, a refusal has changed nothing, unless it restored a backup that then differs from the original, which is still there |
| ReportSteps.PlacesCover | crates/elasticctl-cli/src/report_file.rs:209-361 | every name an operation makes, moves or removes is in a directory that is synced for it, and every file it writes is synced itself |
| ReportFile.ReportFiles.Publish | crates/elasticctl-cli/src/report_file.rs:209-361 | under failures, torn writes and a crash at any call: success means the new report and no transaction, a rolled-back error the target as at the start and no transaction, a failed rollback leaves the transaction; at most one failing call is always rolled back or survived; after several the report is still held by a transaction that recovery restores or refuses; a report that appeared or vanished since preparation is never overwritten; without faults the outcome is determined; while no call fails each operation is durable before the next begins |
| ReportFile.ReportFiles.Prepare | crates/elasticctl-cli/src/report_file.rs:134-207 | over any disk: where recovery refuses, nothing is touched; otherwise success is exactly the prepared disk for what recovery brings back, a rolled-back error that report without transaction; at most one failing call is rolled back unless it stopped the predecessor's own recovery; the saved report of a recoverable predecessor is held whatever the outcome, and if its journal had no torn tail and no write tears, recovery still accepts the disk |
| ReportFile.ReportFiles.Recover | crates/elasticctl-cli/src/report_file.rs:370-396 | the procedural recovery performs exactly the planned operations up to where a fault or crash stops it, and succeeds only where the plan does |
| ReportFile.ReportFiles.RecoverExistingTarget | crates/elasticctl-cli/src/report_file.rs:398-460 | the branch for a report that existed, by phase and by what is left of target and backup |
| ReportFile.ReportFiles.RecoverAbsentTarget | crates/elasticctl-cli/src/report_file.rs:487-524 | the branch for a report that did not exist: an installed report is removed, recovery-only phases are refused |
| ReportFile.ReportFiles.RestoreReport | crates/elasticctl-cli/src/report_file.rs:398-485 | Restoring is recorded before anything moves, Restored only after the restored bytes equal the original |
| ReportFile.ReportFiles.FinishRestoration | crates/elasticctl-cli/src/report_file.rs:467-485 | Restored is recorded only if the target matches the original artifact |
| ReportFile.ReportFiles.ReadPhases | crates/elasticctl-cli/src/report_file.rs:547-606 | the reading loop agrees with the journal as a whole: torn tail ignored, bad line or bad transition refused |
| ReportFile.ReportFiles.RemoveTransaction | crates/elasticctl-cli/src/report_file.rs:1014-1037 | an error leaves the directory in place, success means it is gone |
| ReportFile.ReportFiles.PerformSynced | crates/elasticctl-cli/src/report_file.rs:84-112 | the operation happens in whole, in part or not at all, and success means that every place it touched was synced |
| PullTransaction.PullFiles.Replace | crates/elasticctl-api/src/state/transaction.rs:240-337 | all or nothing: success is the whole new mirror without transaction, a rolled-back error the untouched old one; after a failed rollback or a crash, torn writes included, the old mirror can still be restored or the new one is complete; at most one failing call never ends in a failed rollback; while no call fails each operation is durable before the next begins, staged files being durable before the manifest |
| PullTransaction.PullFiles.Recover | crates/elasticctl-api/src/state/transaction.rs:392-426 | success is exactly what the journal calls for, a refused journal leaves the disk alone, a failing entry does not stop the others, and however it ends the old mirror can still be restored |
| PullTransaction.PullFiles.ReplaceOne | crates/elasticctl-api/src/state/transaction.rs:339-390 | one file advances by its four phases, and at every step the old mirror can be restored |
| PullTransaction.PullFiles.RecoverEntry | crates/elasticctl-api/src/state/transaction.rs:428-475 | the backup returns, or a newly created file goes, and no other entry is touched |
| PullTransaction.PullFiles.Prepare | crates/elasticctl-api/src/state/transaction.rs:258-313 | until the manifest is complete the mirror is untouched, and behind it every file is staged |
| PullTransaction.PullFiles.ReadEntries | crates/elasticctl-api/src/state/transaction.rs:493-555 | the reading loop agrees with the journal as a whole: torn tail ignored, unknown entry or illegal phase refused |
| PullTransaction.AllReplaced | crates/elasticctl-api/src/state/transaction.rs:240-327 | with every entry installed the mirror is the old one overwritten by all files |
| PullTransaction.OverwrittenIs | crates/elasticctl-api/src/state/transaction.rs:240-327 | the new mirror has the bytes of each file at its path and the old content everywhere else |
| PullTransaction.PlacesCover | crates/elasticctl-api/src/state/transaction.rs:258-390 | every name an operation makes or moves is in a directory that is synced for it, and every file it writes is synced itself |
| PullDisk.RecoveryRestoresMirror | crates/elasticctl-api/src/state/transaction.rs:392-475 | from every disk that replacement or an interrupted recovery can leave, one complete recovery restores the whole old mirror |
| PullDisk.RecoverFirstIs | crates/elasticctl-api/src/state/transaction.rs:415-426 | rolling back entry by entry keeps every disk in between recoverable and every entry behind settled |
| PullDisk.RecoveredFiles | crates/elasticctl-api/src/state/transaction.rs:392-475 | on any disk whose journal is read, file by file: a backup returns to its path, a new file that had left the transaction directory goes, and nothing else is touched |
| PullDisk.JournalReadIff | crates/elasticctl-api/src/state/transaction.rs:493-555 | a journal is read if and only if it begins with a manifest of prepared files and every later record names a listed file and its very next phase; each file then stands as many phases on as it has records |
| PullDisk.TouchEntry | crates/elasticctl-api/src/state/transaction.rs:428-475 | whatever happens to the file, the staged side and the backup of one entry leaves the others recoverable |
| PullDisk.TornKeeps | crates/elasticctl-api/src/state/transaction.rs:493-555 | a torn staged file or a torn record takes nothing away from what recovery restores |
| PullDisk.AppendKeeps | crates/elasticctl-api/src/state/transaction.rs:477-491 | a record that advances one entry keeps the old mirror restorable |
| PullDisk.AppendBehindTorn | crates/elasticctl-api/src/state/transaction.rs:477-555 | a record appended behind a torn one makes the journal unreadable for good |
| PullRemoval.HalfRemovedMirror | crates/elasticctl-api/src/state/transaction.rs:787-804 | if the committing removal stops half way: without the journal the new mirror stands; with it recovery succeeds, and gives the old mirror if and only if the backup of every changed file is left, the new one if and only if no file is new and no such backup is left |
| PullRemoval.HalfRemovedCanMix | crates/elasticctl-api/src/state/transaction.rs:787-804 | two changed files of which one lost its backup first end as one old and one new |
| BoundedIo.BoundedIo.ReadFrame | crates/elasticctl-mcp/src/bounded_io.rs:61-106 | outcome, line and unread rest are those of the whole stream, however it is cut into chunks; the buffer never exceeds the cap plus 2 |
| BoundedIo.BoundedIo.Receive | crates/elasticctl-mcp/src/bounded_io.rs:183-218 | the next message, the protocol errors answered and whether the transport closes depend on the stream only, also when an earlier call was dropped in the middle of a line |
| BoundedIo.ReceivedFromIs | crates/elasticctl-mcp/src/bounded_io.rs:183-218 | a call ends with the first framed line that is a message, is fatal or is malformed with no one to tell; it answers each malformed line before that one and leaves exactly what stands behind it, and closes if and only if there is none |
| BoundedIo.TerminatedLineAcceptedIff | crates/elasticctl-mcp/src/bounded_io.rs:61-106 | a terminated line is accepted if and only if it has at most 262,144 bytes, or one more that is a carriage return, and nothing behind its newline is consumed |
| BoundedIo.BoundedIo.ReadAll | crates/elasticctl-mcp/src/bounded_io.rs:61-106 | reading frame by frame until the stream ends or is refused gives the frames of the whole stream |
| BoundedIo.FramesRoundTrip | crates/elasticctl-mcp/src/bounded_io.rs:61-106 | acceptable payloads written as lines are framed back to the same lines, and what follows is framed as if alone |
| BoundedIo.FramesPartitionStream | crates/elasticctl-mcp/src/bounded_io.rs:61-106 | frames are the stream's own bytes in order, each ending at its only newline; an unrefused rest is a short unterminated tail |
| BoundedIo.FramesAreCausal | crates/elasticctl-mcp/src/bounded_io.rs:61-106 | lines already delivered do not change when more bytes arrive |
| BoundedIo.OverlongIsRefused | crates/elasticctl-mcp/src/bounded_io.rs:87-98 | an overlong unterminated piece may be refused at once: no continuation of the stream would have been accepted |
| DataViews.PatchReachesDesired | crates/elasticctl-api/src/data_views_ops.rs:768-846 | overwriting the named base fields and merging the metadata, null deleting, turns the current view into the desired one, null read as absent |
| DataViews.PatchIsMinimal | crates/elasticctl-api/src/data_views_ops.rs:768-846 | every base field and every attribute a patch names really differs, an attribute carries the desired value or null, and no part of it is empty |
| DataViews.PatchEmptyIff | crates/elasticctl-api/src/data_views_ops.rs:1093-1108 | the patch is empty if and only if base fields agree and every attribute is on both sides with one value or on neither |
| DataViews.BuildPatch | crates/elasticctl-api/src/data_views_ops.rs:768-846 | the loops compute exactly the specified patch; there is one if and only if both views are valid and any request of the update routes could reach the desired view, and it reaches it |
| DataViews.SupportedIff | crates/elasticctl-api/src/data_views_ops.rs:768-846 | a change is refused if and only if a view is invalid or no patch whatever turns the current view into the desired one |
| DataViews.ValidIff | crates/elasticctl-api/src/data_views.rs:75-106 | a view is portable if and only if id and title have a character that is not white space, field attributes are objects and no scripted field is left |
| DataViewImport.SelfPatchIsEmpty | crates/elasticctl-api/src/data_views_ops.rs:768-846 | a view needs no patch to become itself |
| DataViewImport.PlanImport | crates/elasticctl-api/src/data_views_ops.rs:849-947 | whatever the server answers: each id is read once, in order, and nothing written; a returned plan passes the validator and records for every view of the artifact the snapshot that was read; an artifact with an invalid view, a repeated id, none at all, or conflicting options is always refused, and any other only for an unreadable answer, a conflict or an inexpressible replacement |
| DataViewImport.AssembledIsAccepted | crates/elasticctl-api/src/data_views_ops.rs:849-947 | planner and validator agree: the plan assembled from any snapshots is accepted |
| DataViewImport.ValidateArtifact | crates/elasticctl-api/src/data_views_ops.rs:732-765 | accepted if and only if every view is portable and no id repeats; then the same views, sorted by id |
| DataViewImport.DecodedIs | crates/elasticctl-api/src/data_views_ops.rs:640-712 | decoding changes an empty typeMeta to none and nothing else, and canonical views are exactly the decoded valid ones |
| DataViewImport.SkipExisting | crates/elasticctl-api/src/data_views_ops.rs:905-914 | pending and skipped views split the artifact by what was read, both in order of their ids |
| DataViewPlans.ValidateImportPlan | crates/elasticctl-api/src/data_views_ops.rs:1131-1232 | accepts exactly: strictly increasing pending ids, snapshots and targets for exactly those, skipped ids disjoint from them, and on each replacement the recomputed patch |
| DataViewPlans.PreviewDetailsAre | crates/elasticctl-api/src/data_views_ops.rs:1245-1263 | the preview has one line per pending view, in order: create, no-op or replace, by its snapshot, with the titles |
| DataViewPlans.ValidateEntries | crates/elasticctl-api/src/data_views_ops.rs:1191-1232 | patches stand on the replacements and nowhere else, each the recomputed one |
| DataViewPlans.ValidateSkipped | crates/elasticctl-api/src/data_views_ops.rs:1153-1178 | skipped rows have exactly the expected shape, strictly increasing ids and none that is pending |
| DataViewApply.ApplyImport | crates/elasticctl-api/src/data_views_ops.rs:954-1091 | over any interleaving with other writers: one session of requests per pending view justifies its row and leaves no choice of it, rows are reported in order, and succeeded, skipped and failed add up to the total; a refused plan sends nothing |
| DataViewApply.ImportOne | crates/elasticctl-api/src/data_views_ops.rs:962-1082 | a write is sent only if the read just before showed the plan's snapshot, never twice, and nothing follows a failed one; created and replaced mean everything was written and the last read was the desired view; a row fails only if the view changed, has no patch, a write failed or the last read shows another view, and says applied if and only if some write was acknowledged |
| DataViewApply.OutcomeDetermined | crates/elasticctl-api/src/data_views_ops.rs:962-1082 | requests and answers determine the row: no two outcomes are justified by the same session |
| DataViewApply.ReplacementJustified | crates/elasticctl-api/src/data_views_ops.rs:1013-1080 | every way a replacement can end, by which of its writes were acknowledged, gets the row it deserves |
| DataViewApply.WritesReachDesired | crates/elasticctl-api/src/data_views_ops.rs:954-1091 | a replacement write of an accepted plan carries the patch of the view just read, and applied to that view it yields the desired one |
| DataViewDeletion.PlannedAcceptedIff | crates/elasticctl-api/src/data_views_ops.rs:302-400 | a plan made from any answers is accepted by the validator if and only if the default, the views the selectors name and the replacement have non-blank names in the listing the planner was given |
| DataViewDeletion.BlankTitlePlannedAndRefused | crates/elasticctl-api/src/data_views_ops.rs:581-637 | a listed view with a blank title is planned for deletion and refused on apply |
| DataViewDeletion.ValidateDeletePlan | crates/elasticctl-api/src/data_views_ops.rs:581-637 | accepts exactly the plans with distinct named targets, honest default claims, normalized references, and no reference or default left when nothing replaces the view |
| DataViewDeletion.NormalizedEqualIff | crates/elasticctl-api/src/data_views_ops.rs:518-534 | two listings normalize alike if and only if they hold the same references: order and repeats do not matter, a change does |
| DataViewDeletion.NormalizedIff | crates/elasticctl-api/src/data_views_ops.rs:518-534 | a listing is its own normal form if and only if every reference has type and id and they strictly increase by type, then id |
| DataViewDeletion.ResolveFinds | crates/elasticctl-api/src/data_views_ops.rs:83-125 | a selector resolves to the first view with that id; if there is none, to the view with that name if and only if exactly one listed view carries it |
| DataViewDeletion.SourcesAre | crates/elasticctl-api/src/data_views_ops.rs:317-326 | the sources exist if and only if every selector resolves; then every selected view is one, nothing else is, and they stand in the order of first appearance |
| DataViewDeletion.SelectedIff | crates/elasticctl-api/src/data_views_ops.rs:307-345 | the selection is allowed if and only if there is a selector, all resolve, and a replacement resolves to another view than the single one that all selectors name |
| DataViewDeletion.PlanFromIff | crates/elasticctl-api/src/data_views_ops.rs:302-400 | after the selection a plan is refused if and only if a reference lacks its type or id or, when nothing replaces the views, one is referenced or the default; its targets are the sources with their references and default claims |
| DataViewDeletion.DeleteDetailsAre | crates/elasticctl-api/src/data_views_ops.rs:543-564 | a line is in the preview if and only if it is a reference of a target, a direct deletion, or a default that moves |
| DataViewDeletion.DeletePreviewIs | crates/elasticctl-api/src/data_views_ops.rs:565-578 | the preview names the number of views or source and replacement, and the ids of all targets in order |
| DataViewDeletion.SourcesDistinct | crates/elasticctl-api/src/data_views_ops.rs:317-326 | selectors that name the same view give one target |
| DataViewRemoval.PlanDelete | crates/elasticctl-api/src/data_views_ops.rs:302-400 | planning only reads; a plan is made from exactly the answers, each asked for once, and has exactly one target for every view a selector names; a refusal has its cause in the answers: a failed read, a malformed listing, or a plan that is not allowed; without failing calls and other writers it returns a plan exactly when the state allows one |
| DataViewRemoval.FreshPlanIsCurrent | crates/elasticctl-api/src/data_views_ops.rs:302-400 | a plan made from a state holds of that state, target by target, and is accepted if and only if what it selects there has names |
| DataViewRemoval.ApplyDelete | crates/elasticctl-api/src/data_views_ops.rs:403-490 | a delete or swap is sent if and only if the reads right before confirmed the plan, and a row is deleted if and only if it was acknowledged and, for a default view, the default moved; deleted and failed add up to the targets; with no other writer every reported id is gone, unreferenced and not the default, and nothing outside the plan changed, whichever calls fail; with no failure a plan that still holds is carried out in full |
| DataViewRemoval.ReplaceOne | crates/elasticctl-api/src/data_views_ops.rs:432-481 | references only move, from the source to the replacement, and the default only follows them |
| DataViewRemoval.CheckSnapshot | crates/elasticctl-api/src/data_views_ops.rs:494-516 | succeeds if and only if references and default, read in this order, are those of the plan |
| DataViewRemoval.ProgressSettled | crates/elasticctl-api/src/data_views_ops.rs:412-431 | deleting further targets keeps every reported one gone, unreferenced and not the default |
| DashboardImport.PlanImport | crates/elasticctl-api/src/dashboards_ops.rs:252-371 | whatever the server answers: each dashboard is read once, in order, and nothing written; a returned plan passes the validator, is the plan of the snapshots read, and every data view referred to at any position was seen under its id; an artifact with an invalid dashboard, a repeated id, none at all, or conflicting options is always refused, and any other only for an unreadable answer, a conflict or a data view that is not there |
| DashboardImport.ReferencesAre | crates/elasticctl-api/src/dashboards.rs:177-202 | an id is collected if and only if at some position, through objects and arrays, stands an object of type data_view_reference with that ref_id |
| DashboardImport.AllReferencesAre | crates/elasticctl-api/src/dashboards_ops.rs:271-275 | the data views an import needs are those that some dashboard refers to at some position |
| DashboardImport.TimeRangeModeIff | crates/elasticctl-api/src/dashboards.rs:252-272 | a mode is found if and only if some position that ends in time_range holds an object with a mode |
| DashboardImport.ReadOfIs | crates/elasticctl-api/src/dashboards_ops.rs:948-965 | a read counts as the dashboard if and only if the answer has the requested id, id and title are not blank and no time range has a mode; then with the very data that was answered |
| DashboardImport.TitledIff | crates/elasticctl-api/src/dashboards.rs:28-44 | a title is a string under that key with a character that is not white space |
| DashboardImport.PlanOfIs | crates/elasticctl-api/src/dashboards_ops.rs:340-371 | under --skip-existing exactly the dashboards that were found are listed as skipped and all others are pending, otherwise all are; each pending one keeps its snapshot, and the preview names their number and ids |
| DashboardImport.PreviewDetailsAre | crates/elasticctl-api/src/dashboards_ops.rs:967-987 | the preview has one line per pending dashboard, in order: create, no-op or replace, by its snapshot, with the titles |
| DashboardImport.PlannedIsAccepted | crates/elasticctl-api/src/dashboards_ops.rs:252-371 | planner and validator agree: the plan of any snapshots without conflict is accepted |
| DashboardImport.ValidateImportPlan | crates/elasticctl-api/src/dashboards_ops.rs:618-694 | accepts exactly: valid pending dashboards with strictly increasing ids, valid snapshots for exactly those, replacements only under overwrite, skipped ids disjoint from them, and the preview they give |
| DashboardImport.ValidateArtifact | crates/elasticctl-api/src/dashboards_ops.rs:216-247 | accepted if and only if every dashboard is valid and no id repeats; then the same dashboards, sorted by id |
| DashboardImport.KeptAscends | crates/elasticctl-api/src/dashboards_ops.rs:346-356 | leaving out existing dashboards keeps the order of ids |
| DashboardApply.ApplyImport | crates/elasticctl-api/src/dashboards_ops.rs:379-460 | over any interleaving with other writers: one session per pending dashboard justifies its rows, and the four lists of the report add up to the total plus the number of dashboards listed twice |
| DashboardApply.ImportOne | crates/elasticctl-api/src/dashboards_ops.rs:388-448 | one write at most, sent if and only if the read just before showed the snapshot and another dashboard is wanted; succeeded means the answer contains everything sent; lossy and failed rows are exact |
| DashboardApply.ApplyPut | crates/elasticctl-api/src/dashboards_ops.rs:545-616 | the write succeeds if and only if it is answered for this dashboard with everything that was sent; otherwise the losses are listed and the dashboard is read once more |
| DashboardApply.TwoRowsIff | crates/elasticctl-api/src/dashboards_ops.rs:572-616 | every dashboard has one row, and a second one if and only if the write was lossy and the read after it failed or answered for another id |
| DashboardApply.ListedTwice | crates/elasticctl-api/src/dashboards_ops.rs:572-616 | a new dashboard whose write loses a key and whose extra read breaks has two rows |
| DashboardApply.TwiceListedIff | crates/elasticctl-api/src/dashboards_ops.rs:379-460 | the lists add up to the total if and only if no such read failed |
| DashboardApply.LossyPathsAre | crates/elasticctl-api/src/dashboards_ops.rs:572-588 | a lossy row lists exactly the lost paths, each once, in order, and at least one |
| RuleCorpus.RuleServer.FindAll | crates/elasticctl-api/src/rules.rs:297-375 | for any answers a result has as many rules as the first total; against an unchanging rule set the result is the matching multiset, and it exists if and only if one window suffices or all matching types are known and every slice fits |
| RuleCorpus.RuleServer.ReadHalves | crates/elasticctl-api/src/rules.rs:339-358 | a type that overflows the window is read complete through its two enabled halves, or not at all |
| RuleCorpus.RuleServer.Find | crates/elasticctl-api/src/rules.rs:140-198 | a page is decoded if and only if page and page size are positive and its rules exceed neither the page size nor the total, and then holds exactly those rules and that total |
| RuleCorpus.CoveredAllIff | crates/elasticctl-api/src/rules.rs:361-374 | the slice totals sum to the corpus total if and only if no matching rule has an unlisted type, and then the slices are the corpus |
| RuleCorpus.HalvesCover | crates/elasticctl-api/src/rules.rs:339-358 | enabled and disabled rules partition a slice |
| RuleForms.ComparableOfCanonical | crates/elasticctl-api/src/normalize.rs:68-84 | writing a rule to disk does not change how it compares |
| RuleForms.CanonicalIdempotent | crates/elasticctl-api/src/normalize.rs:68-74 | the on-disk form is a fixed point |
| RuleForms.ComparableIdempotent | crates/elasticctl-api/src/normalize.rs:77-84 | the comparison form is a fixed point |
| RuleForms.CanonicalEqualIff | crates/elasticctl-api/src/normalize.rs:68-74 | identical on-disk forms if and only if every non-volatile field agrees, exception ids aside |
| RuleForms.ComparableEqualIff | crates/elasticctl-api/src/normalize.rs:77-84 | identical comparison forms if and only if every such field agrees, an omitted one read as its server default |
| RuleForms.DefaultsAreRule | crates/elasticctl-api/src/model.rs:12-46 | the defaults name each field once and none that is volatile |
| RuleForms.Rule.ToCanonical | crates/elasticctl-api/src/normalize.rs:68-74 | in-place removals and sorting on a copy give the on-disk form |
| RuleForms.Rule.ToComparable | crates/elasticctl-api/src/normalize.rs:77-84 | in-place removals, filling and sorting on a copy give the comparison form |
| RuleForms.Rule.StripReferenceIds | crates/elasticctl-api/src/normalize.rs:26-33 | every reference of the exceptions list loses its id, whatever is not an object stays |
| RuleForms.StripReferenceIs | crates/elasticctl-api/src/normalize.rs:26-33 | an object reference loses its id and no other key; what is no object stays as it is |
| KeyOrder.SortedEqualIffSame | crates/elasticctl-api/src/normalize.rs:49-64 | two values have the identical sorted form if and only if they are equal up to key order at every depth |
| KeyOrder.SortedIsSame | crates/elasticctl-api/src/normalize.rs:49-64 | sorting changes key order only |
| KeyOrder.SortedIdempotent | crates/elasticctl-api/src/normalize.rs:49-64 | a sorted value stays as it is |
| Drift.PullThenDiffIsClean | crates/elasticctl-api/src/diff.rs:81-160 | rules compared with what pull wrote of them show no drift |
| Drift.Compute | crates/elasticctl-api/src/diff.rs:81-143 | refuses exactly an unreadable or repeated id; otherwise one change per id of either side, in strictly increasing order, each of the right kind and name, with exactly the fields that are on both sides with different values or on one side with a value other than null |
| Drift.FieldChanges | crates/elasticctl-api/src/diff.rs:61-78 | exactly the fields that are on both sides with different values or on one side only and not null, with these values and null for a missing side, in order of their names |
| Drift.CleanIff | crates/elasticctl-api/src/diff.rs:156-160 | clean if and only if both sides have the same ids and agree on each |
| Drift.ModifiedReachesLocal | crates/elasticctl-api/src/diff.rs:61-143 | writing the reported after values over the remote rule gives the local one |
| Drift.DriftMirrors | crates/elasticctl-api/src/diff.rs:81-143 | swapping the sides swaps added with remote-only and before with after, change by change |
| Drift.BuildIndex | crates/elasticctl-api/src/diff.rs:81-107 | the index loop succeeds if and only if every id is a string and no two are equal |
| Drift.IndexableIff | crates/elasticctl-api/src/diff.rs:81-107 | a side can be matched if and only if every rule has a string under rule_id and no two rules the same |
| Drift.IndexedIs | crates/elasticctl-api/src/diff.rs:81-107 | the index maps an id to a form if and only if some rule has that id and that comparison form |
| LossAudit.SilentIffContained | crates/elasticctl-api/src/dashboards.rs:205-246 | no loss is reported if and only if the submitted value is recursively contained in the accepted one |
| LossAudit.ContainedReflexive | crates/elasticctl-api/src/dashboards.rs:205-246 | every value contains itself |
| LossAudit.ContainedTransitive | crates/elasticctl-api/src/dashboards.rs:205-246 | containment is transitive |
| LossAudit.AuditIsExact | crates/elasticctl-api/src/dashboards.rs:205-246 | a position is reported if and only if it is a mismatch, with the values that stand there |
| LossAudit.PathInjective | crates/elasticctl-api/src/dashboards.rs:274-283 | a rendered path names one position only, whatever characters the keys contain |
| LossAudit.LossPathsDistinct | crates/elasticctl-api/src/dashboards.rs:205-283 | no two losses of one audit share a path |
| LossAudit.SubsetLosses | crates/elasticctl-api/src/dashboards.rs:205-246 | the pushing recursion reports exactly the specified losses in order |
| LossAudit.ReplaceTwice | crates/elasticctl-api/src/dashboards.rs:281 | the two replacements in a row escape each backslash and quote once |
| LossAudit.RenderStepIs | crates/elasticctl-api/src/dashboards.rs:274-283 | an identifier stands behind a dot, any other key in quotes with backslash and quote escaped, an index in brackets |
| JsonGrammar.ScanIsExact | crates/elasticctl-core/src/transport.rs:55-132 | for every JSON text the scan accepts if and only if each number without fraction and exponent lies in [-2^63, 2^64 - 1], strings and other numbers aside |
| IntegerScanner.ValidateIntegerRanges | crates/elasticctl-core/src/transport.rs:55-132 | the nested loops terminate on every text, JSON or not, and decide what the specified scan decides |
| IntegerScanner.SkipNumber | crates/elasticctl-core/src/transport.rs:76-127 | reads one number as a whole and judges it by its own digits |
| JsonText.NumberRead | crates/elasticctl-core/src/transport.rs:76-127 | a number token in any context is consumed exactly and judged by its value |
| CivilDate.CivilBijection | crates/elasticctl-api/src/rules_ops.rs:606-617 | day numbers and valid Gregorian dates correspond one to one, inverse to counting days with the leap rule of Appendix C of RFC 3339 |
| CivilDate.CivilFromDaysCounts | crates/elasticctl-api/src/rules_ops.rs:606-617 | the date is valid and that many days after the epoch, for negative numbers too |
| CivilDate.CivilSteps | crates/elasticctl-api/src/rules_ops.rs:606-617 | counting n days on from the number of a date gives the date n calendar days later |
| CivilDate.TimestampDenotesSecond | crates/elasticctl-api/src/rules_ops.rs:587-603 | the text is a date-time of section 5.6 of RFC 3339 if and only if the year is at most 9999, and then denotes the very second |
| ResultRows.SuccessWithTruncatedRows | crates/elasticctl-mcp/src/result.rs:88-141 | the longest prefix of the rows that fits with its counters, none if and only if not even one row fits; returned is its length, truncated says whether any row is missing, dropped here or before, and has_more is true if so and as given otherwise |
| ResultRows.FittingShrinks | crates/elasticctl-mcp/src/result.rs:143-170 | what fits with more rows fits with fewer, whatever the two pages say in their flags as long as they say the truth |
| ResultRows.EncodeTellsPage | crates/elasticctl-mcp/src/result.rs:116-126 | the counters and flags can be read off the encoded text: no two pages give the same one |
| ResultRows.EscapedLengthIs | crates/elasticctl-mcp/src/result.rs:143-170 | the escaped length that is counted is the length of the content written as a JSON string |
| CaseUpdates.ApplyStatus | crates/elasticctl-api/src/cases_ops.rs:301-393 | succeeds if and only if the plan is consistent and the answer has one case per planned id and no other, each in the target status |
| CaseUpdates.AnsweredIff | crates/elasticctl-api/src/cases_ops.rs:346-384 | counting and per-row checks amount to a bijection although no planned id is looked for |
| CaseUpdates.PlanAttach | crates/elasticctl-api/src/cases_ops.rs:452-529 | refused if and only if nothing is asked for, the search failed, or an alert is missing or lacks its rule or index; otherwise the deduplicated alerts, each in the group of the rule it was found with, beside the index it was found in, under the name of the first |
| CaseUpdates.DistinctGrows | crates/elasticctl-api/src/cases_ops.rs:457-462 | deduplication keeps the order of first appearance: what the first alerts leave begins what all leave |
| CaseUpdates.GroupsPartition | crates/elasticctl-api/src/cases_ops.rs:485-518 | the groups partition the alerts, one rule each, no rule twice, indices parallel to ids |
| CaseUpdates.ApplyAttach | crates/elasticctl-api/src/cases_ops.rs:537-568 | updated counts the alerts of the acknowledged groups, failed is its distance from the total, and the failures name exactly the refused groups, in order |
| CaseUpdates.AttachAccounts | crates/elasticctl-api/src/cases_ops.rs:537-568 | for a plan of the planner, updated and failed add up to the total and failed counts exactly the alerts of refused groups |

## Left out

- ReportRuns.HistoryIsAtomic: removing the transaction directory is one step, as in PublicationIsAtomic.
- ReportRuns.PublicationIsAtomic: removing the transaction directory is one step; what a removal that stops half way changes is in the three HalfRemoved lemmas.
- ReportFile.ReportFiles.Publish: that each operation is durable before the next begins is proved of runs in which no call fails; a power failure after a failed sync, or while a crashed process's last operation is not durable yet, may lose more than PowerFailureIsAtomic covers.
- ReportFile.ReportFiles.RemoveTransaction: a failing removal leaves the directory as it was; what one that stops half way leaves is in the HalfRemoved lemmas.
- PullTransaction.PullFiles.Replace: removing the transaction directory is one step, and PullRemoval.HalfRemovedMirror says what changes if it is not; making sure that a directory is there is a step that may fail, and paths are plain keys; that operations are durable in turn is proved of runs in which no call fails.
- Report files: permissions, symbolic links, metadata, the parent chain and error texts; the report lock is the assumption that no other elasticctl writes; a report is its serialized bytes.
- BoundedIo.BoundedIo.Receive: a read error and the end of the stream are one outcome, sending is a flag that says whether the writer works, and cancellation is noticed between frames, not while a read is pending. The decoder is a parameter; sending and closing with their time limits are left out.
- DataViewImport.PlanImport: an error carries no kind or message; decoding a response is part of the server's answer; JSON objects inside a view are maps, so their key order is not kept.
- DataViewApply.ApplyImport: the arm for a pending view without a snapshot cannot be reached from an accepted plan and is not modelled.
- DataViewRemoval.ApplyDelete: that reported ids are safe is proved for runs without other writers; with others the window between the last read and the write remains, and what is proved is that both reads confirmed the plan.
- Data views: export, the default-view plans and the portable form made from a raw server object.
- RuleCorpus.RuleServer.FindAll: the clauses of a filter that the division does not touch are one opaque part; the KQL text and its escaping are left out, and so are find_by_rule_ids and the source partition check.
- JsonGrammar.ScanIsExact: the text is a sequence of characters, one for each UTF-8 sequence, and the grammar is slightly wider than that of RFC 8259 (any character after a backslash, control characters in strings), so the statement covers every JSON text.
- RuleForms.CanonicalEqualIff: JSON numbers are opaque values compared by equality; the YAML and JSON files between pull and diff are not part of this model.
- CivilDate.TimestampDenotesSecond: integers are unbounded, so no overflow near the ends of a 64-bit range; the clock is a parameter.
- ResultRows.SuccessWithTruncatedRows: the encoded parts around rows and counters are fixed texts with one character per byte; serialization itself, and data without the row key, are left out.
- CaseUpdates.PlanAttach: titles and preview lines are left out, and so is resolving cases and their versions.
- DashboardImport.PlanImport: an error carries no kind or message, and the path of a dropped time range mode is reduced to whether there is one.
- DashboardApply.ApplyImport: the arm for a pending dashboard without a snapshot cannot be reached from an accepted plan and is not modelled.
- Dashboards: listing page by page, deletion (no snapshot is taken and no reference checked), export and opaque bundle import.
- URL parsing in profiles, the retry loop of the transport, bundle encoding and saved-object scanning, exception lists, the command line, the MCP catalog, health, samples and prebuilt rules.
