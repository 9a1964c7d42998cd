# SDBX transactions, resolver and configuration machines in Dafny

SDBX manages a self-hosted media stack. Several of its parts are transactions or state machines whose
correctness no single branch shows. This project models those parts and proves what they promise.
`dafny verify dfyconfig.toml` checks all of it.

## What is modelled

**Journaled restore** (`restore_*.dfy`). A restore writes a write-ahead journal while it moves original files
into rollback slots and staged files into place, in three directory trees. `RestoreDisk` is the disk: a map from
(root, path) to file or directory, the journal as a list of records, and a `Host` whose every call, hook or
append may run, be refused, take effect and still report an error, or be the last one before a crash.
`RestoreJournal` is the writer and the reader of the journal, `RestorePlan` where a run stands between the old
and the new trees, `RestoreApply` the forward run, `RestoreRecover` recovery as it runs under faults,
`RestoreRecovery` what it amounts to, `RestoreReentry` when it may be entered again, `RestoreCapacity` how far the
size limit of the journal lets a run get, and `RestoreFailures` and `RestoreFull` runs that do not end as they should.
`ArchivePlan` connects the archives below with the plans here. The pre-state is taken once the journal header is
durable.

**Project generation** (`project_*.dfy`). An undo log with copied backups and a manifest that is prepared,
promoting or committed, over one tree whose entries have a mode with its special bits and an owner, run by a process
that is root or some user. `ProjectUndo` is the log and its rollback, `ProjectExact` when that is exact, `ProjectLog`
the preparation, `ProjectApply` apply, repair of managed files, volume owners and rollback as they run under faults,
`ProjectTransaction` the whole transaction and its recovery, and `ProjectFailures` runs that do not end as they should.
Unlike that of the restore, its rollback may be repeated as long as the backups are there: a recovery that dies while
it removes the transaction directory can lose one of them. The two groups of theorems say precisely what each allows.

**Dependency resolver** (`resolver.dfy`, `toposort.dfy`, `names.dfy`). The recursive closure over a possibly
cyclic catalog and the topological sort with its sorted ready queue.

**Streams and text** (`line_writer.dfy`, `splitting.dfy`, `lines.dfy`, `ini*.dfy`, `qbt_settings.dfy`,
`qbittorrent.dfy`, `tautulli*.dfy`). The bounded redacting log writer; the INI editor and its reader; the
two-file credential protocol of qBittorrent that rests on them, with a fate for each of its calls; the Tautulli
reader and renderer.

**Bounds, paths and selection** (`archive*.dfy`, `stable_order.dfy`, `authelia.dfy`, `audit.dfy`,
`selection.dfy`). Archive budgets in explicit 64-bit arithmetic against the two archive readers, path cleaning
and archive names, Authelia rule order, the windowed audit read, ignore patterns and permission roots.

## Results about the code worth knowing

- Restore recovery cannot always be re-run to success: a recovery stopped after it put an original back, before
  the journal is gone, is refused by the next one (`RestoreReentry.StoppedAfterRestoring`).
  `RestoreRecovery.RecoveryFailsClosed` is what always holds, and `RestoreReentry.ReentrySucceedsIff` says
  exactly when a further recovery goes through.
  `RestoreFailures.StoppedRecovery` is such a run.
- Recovery looks its rollback slots up under names 72 bytes longer than their targets and refuses names over 4096
  bytes, while promotion does not check them. A begun target over 4024 bytes, which archive validation accepts, is
  therefore never rolled back: the operations after it are undone, then every recovery is refused.
  `RestoreRecovery.CrashAtomicity` has the exact condition, `RestoreFailures.LongTargetStays` is such a run.
- An archive entry below another entry (`configs/a` and `configs/a/b`) passes archive validation
  (`ArchivePlan.NestedAccepted`) but never commits: `RestoreApply.CommittedUnobstructed`, `RestoreApply.RunRestore` and
  `ArchivePlan.SeparatedIff` give the exact condition.
- A restore with nothing in its way fails all the same when its journal would pass 256 MiB, which long ways of new
  directories bring about in an archive that is accepted (`RestoreFull.JournalTooSmall`, `RestoreFull.DeepAccepted`); it
  is then taken back. `RestoreApply.RunRestore` has the exact condition.
- Project generation says that an error restores the exact contents and modes. Four things it cannot give back:
  the setuid, setgid and sticky bits of what it replaces (`ProjectFailures.SetgidTarget`); those of the directories it
  writes files into, of which the project root is never journaled, so that a root with mode 02775 becomes 0775 by
  failing and by succeeding (`ProjectFailures.SetgidHome`, `ProjectFailures.SetgidHomeCommitted`); the owners of files
  when it does not run as root (`ProjectFailures.ForeignFile`); and the owners volumes are given to
  (`ProjectFailures.VolumeStaysGiven`). `ProjectExact.ExactFromEveryStop`, and in terms of the generated items
  `ProjectTransaction.RollbackExactIff`, are the exact condition.
- A user's generation over a directory of another owner fails, cannot be rolled back, and keeps every later one by
  that user from running (`ProjectFailures.ForeignDirectory`); `ProjectTransaction.UsableAgree` is the exact condition.
- A recovery of project generation that dies while it removes the transaction directory can lose a backup before the
  manifest; from then on recovery, and with it generation, is refused for good though the project is as it was
  (`ProjectFailures.StoppedCleaning`).
- A guarded service routed at "/" on the dashboard's host comes before the shared rule, so its rule decides the
  dashboard's own API requests (`Authelia.RootHidesDashboard`); `Authelia.FirstIsMostSpecific` and
  `Authelia.SharedFirstIff` give the exact conditions.
- The INI editor sets keys under the last of several adjacent headers of a section while the reader stops at
  the first, so a duplicate header can hide a new password hash. `IniLaws.ReadsBackIff` is the exact condition,
  `IniLaws.DuplicateHeaderHides` a family of such files, and the qBittorrent theorems carry the condition.
- A backup whose source file its owner cannot read is written but not accepted by the archive reader
  (`ArchivePlan.UnreadableRefused`); `Archive.WriterReaderAgree` and `Archive.MaskedSafe` are the exact condition.
- The audit window drops its first line even when that line is whole, so records that take exactly the window
  are not all shown (`Audit.ExactWindow`); `Audit.CompleteWhen` is the exact condition.

## Specification functions

Besides the members below, these functions are the reference meanings they are proved against:
`RestoreJournal.ReadRecord` and `Load` (`internal/backup/transaction.go:1074-1165`),
`RestoreRecovery.RollbackOperation` and `Recovered` (`internal/backup/transaction.go:981-1024`, `1276-1435`),
`ProjectUndo.Rollback` (`internal/generator/transaction.go:655-703`), `TopologicalSorting.Greedy`,
`Redacting.Render`, `IniSections.Lookup` and `Update`, `Tautulli.Read` and `Render`, `ArchivePaths.Clean`,
`Archive.Reserve` and `ReadItems`, `StableOrder.Best`, `Audit.Answer` and `Selection.Deepest`.

## Model

| member | source | states |
|---|---|---|
| RestoreJournal.LoadRestoreJournal | internal/backup/transaction.go:1033-1166 | the indexed single pass over the records gives exactly what the record-by-record reading gives: a state, or a refusal of the whole journal, which also meets a file over 256 MiB |
| RestoreJournal.TornJournalRefused | internal/backup/transaction.go:1045-1071 | an empty journal, or one with a torn record anywhere, is refused |
| RestoreJournal.ReadBack | internal/backup/transaction.go:948-970 | every journal promotion can write for distinct targets, within the size limit of the file, is accepted within the 3n+2 record bound and rebuilds exactly the begun operations in order with their flags and the commit mark |
| RestoreJournal.CutJournalLoads | internal/backup/transaction.go:1074-1165 | every record-boundary prefix of such a journal is accepted and reads as the operations begun so far, the last one possibly with fewer marks |
| RestoreJournal.WrittenCommit | internal/backup/transaction.go:200-203 | a written journal holds the commit record exactly when the run committed |
| RestorePlan.MissingAccepted | internal/backup/transaction.go:1224-1256 | every directory list promotion records passes the ordered-ancestor check of the reader |
| RestorePlan.FinalContent | internal/backup/transaction.go:523-709 | after k promotions each of those targets holds its staged file, everything else that existed is as it was, and what is new besides targets is directories above them |
| RestorePlan.TargetUntouched | internal/backup/transaction.go:594-607 | no earlier promotion changes what is at a later target |
| RestoreApply.MissingRestoreDirectories | internal/backup/transaction.go:747-792 | the walk upwards finds exactly the absent ancestors in order, and refuses exactly when an ancestor is a file |
| RestoreApply.BeginPromotion | internal/backup/transaction.go:530-607 | the begin record describes the target as it is; the run stands at a journaled, not yet moved operation; undisturbed it is written exactly when the target is free and the journal has room |
| RestoreApply.CreateRestoreDirectories | internal/backup/transaction.go:794-875 | whatever call fails or is the last one, the trees stand at a position with some of the directories made; undisturbed all are |
| RestoreApply.MakeRoom | internal/backup/transaction.go:609-652 | directories made, the target re-checked and room in the rollback area: afterwards both renames have somewhere to go |
| RestoreApply.Exchange | internal/backup/transaction.go:655-709 | the two renames and their records: original into its rollback slot, staged file into place; every stop in between is a position recovery understands |
| RestoreApply.PromoteStagedRestoreFile | internal/backup/transaction.go:523-709 | every outcome of one promotion is a running stand with the journal matching the trees; undisturbed it succeeds when the target is free and the journal has room |
| RestoreApply.StageRestoreFile | internal/backup/transaction.go:469-521 | staging touches only the transaction directories and puts the file in its stage slot |
| RestoreApply.RunRestore | internal/backup/transaction.go:155-203 | the whole forward run from staging to the commit record: every stop is a running stand, success means committed, and undisturbed it commits exactly when the plan is unobstructed and the journal of the whole run fits its 256 MiB |
| RestoreApply.CommittedUnobstructed | internal/backup/transaction.go:155-203 | only a plan with no target at, above or below another, below a file or at a directory ever commits |
| RestoreApply.ApplyArchiveTransactional | internal/backup/transaction.go:99-217 | with recovery on failure: success means the new content with nothing left over; undisturbed, the end is the new state or the old one, decided by the plan and the room in the journal, unless the run begins a target over 4024 bytes before it meets an obstruction or the journal is full: exactly then the clean-up fails, and is refused from then on |
| RestoreApply.StopThenRecover | internal/backup/transaction.go:981-1021 | crash atomicity over whole runs: stop anywhere, recover once undisturbed; every staged file is in place if the commit record was journaled, otherwise the trees are exactly as before when the journal begins no target over 4024 bytes, and no transaction directory or journal remains; otherwise the journal stays and recovery is refused from then on |
| RestoreApply.RecoverRepeatedly | internal/backup/transaction.go:981-1021 | any number of interrupted recoveries keep a committed run committed and an uncommitted one recoverable or refused; one undisturbed recovery of a committed run finishes it; a run with a begun target over 4024 bytes is never finished |
| RestoreCapacity.BegunFits | internal/backup/transaction.go:955-959 | what a journal holds had room when it was written, each entry behind all complete records of those before it |
| RestoreCapacity.RunAfterEntries | internal/backup/transaction.go:955-959 | a journal with room for the commit record had room for every entry |
| RestoreCapacity.FirstFits | internal/backup/transaction.go:955-959 | behind a header of at most a million bytes the first entry always has room, whatever accepted path and directories it names |
| RestoreFull.NoRoom | internal/backup/transaction.go:955-959 | 80 files, each in a new directory tree of 1970 levels: nothing is in the way of the plan, and the journal has no room for it |
| RestoreFull.DeepAccepted | internal/backup/transaction.go:219-362 | that plan is what an accepted archive stages |
| RestoreFull.JournalTooSmall | internal/backup/transaction.go:955-959 | its undisturbed restore fails and leaves the trees as before |
| RestoreRecovery.CrashAtomicity | internal/backup/transaction.go:981-1021 | from every disk a run can stop at, one complete recovery succeeds exactly when the run has committed or no begun target is over 4024 bytes, and then leaves exactly the old trees, or the complete new ones when the commit record is there |
| RestoreRecovery.SlotNames | internal/backup/transaction.go:1285-1303 | the name check passes for the rollback slot, 72 bytes longer than its target, exactly when the target has at most 4024 bytes; it then passes for the stage name too |
| RestoreRecovery.LongNameHolds | internal/backup/transaction.go:1437-1443 | a recovery held at a target over 4024 bytes has undone the operations after it, leaves the journal, and no further recovery changes anything |
| RestoreRecovery.RecoveryFailsClosed | internal/backup/transaction.go:1276-1435 | after any number of interrupted recoveries a further one finishes, or refuses with the disk untouched, or is held at a target over 4024 bytes, from where no further recovery changes anything |
| RestoreReentry.ReentrySucceedsIff | internal/backup/transaction.go:1276-1435 | after any number of interrupted recoveries the next one succeeds exactly when, for every begun operation, the slot names are short enough, the original waits in its slot or was never journaled as moved, and a new file waits in the stage or has a directory to be absent from; otherwise it refuses with the disk untouched or is held at a long name for good |
| RestoreReentry.StoppedAfterRestoring | internal/backup/transaction.go:1351-1352 | a recovery stopped after it put a backed-up original back is refused by every later one, which changes nothing |
| RestoreFailures.StopAfterRestoring | internal/backup/transaction.go:1351-1352 | a run that replaced one file and met an obstruction at the second; its recovery removes the new file, renames the original back and dies: every recovery from then on is refused |
| RestoreFailures.StoppedRecovery | internal/backup/transaction.go:1351-1352 | such a run on a concrete disk |
| RestoreFailures.LongTarget | internal/backup/transaction.go:1437-1443 | a target of 4079 bytes, begun before an obstruction at the second entry: a plan for which clean-up after an undisturbed run fails |
| RestoreFailures.LongTargetStays | internal/backup/transaction.go:1437-1443 | an undisturbed restore with a target of 4079 bytes that fails at its second entry and that no recovery cleans up |
| RestoreFailures.PlanAccepted | internal/backup/transaction.go:219-362 | these runs promote what accepted archives of two configuration files stage |
| RestoreRecovery.OriginalsKept | internal/backup/transaction.go:1321-1399 | until commit, the original of every begun operation whose target existed is at its target or in its rollback slot |
| RestoreRecovery.RollbackAllAt | internal/backup/transaction.go:1006-1016 | rolling all begun operations back, last first, from a position the run left goes as far as the slot names allow, and to the old trees exactly when all do; from any other position it does that or is refused with nothing changed |
| RestoreRecover.RollbackTarget | internal/backup/transaction.go:1285-1399 | the target and slot part of one rollback, name checks first, under faults: position before or after, never in between, and equal to the specified step when undisturbed |
| RestoreRecover.RollbackDirs | internal/backup/transaction.go:1401-1434 | created directories are removed deepest first, each met empty |
| RestoreRecover.RollbackRestoreOperation | internal/backup/transaction.go:1276-1435 | one operation undone or left at a position a later recovery can judge |
| RestoreRecover.CleanupRestoreTransaction | internal/backup/transaction.go:1459-1470 | removes nothing but transaction content, and all of it on success |
| RestoreRecover.RecoverRestoreTransaction | internal/backup/transaction.go:981-1024 | recovery under arbitrary faults moves between stands only forwards, to the old trees only if every slot can be named; undisturbed it equals the specified recovery |
| ProjectLog.SortKeeps | internal/generator/transaction.go:579-584 | the entry sort keeps every entry once and orders directories by depth before files |
| ProjectLog.PrepareTransactionEntries | internal/generator/transaction.go:464-586 | the log describes every walked path and the tree as it is but for special mode bits and the owners of directories, with usable backups of all replaced files; nothing is changed; undisturbed it succeeds exactly when no target comes twice, kinds agree and no staged or existing file is over 16 MiB |
| ProjectApply.ApplyFile | internal/securefs/atomic.go:561-580 | promoting a file first sets the mode of its directory to the permission bits it has, then replaces the file; whatever stops it, nothing else changes, and undisturbed it succeeds exactly when the stage file is the recorded one and the process may change that directory |
| ProjectApply.ApplyTransaction | internal/generator/transaction.go:611-653 | whatever stops it, the tree stays one that rollback judges; on success every entry is applied; undisturbed it succeeds exactly when the process is root or owns every directory it sets the mode of |
| ProjectApply.RepairFiles | internal/generator/transaction.go:588-609 | managed files get mode 0600 and, from root, their owner, and nothing else changes; undisturbed it succeeds exactly when all of them are there |
| ProjectApply.GrantVolumes | internal/generator/ownership.go:46-108 | whatever stops it, only directories to be given away change, and only their owner; not to be allowed that is no failure |
| ProjectApply.RollbackTransaction | internal/generator/transaction.go:655-703 | a rollback under faults keeps the tree one that rollback judges; success means that every entry could be undone and the tree is the specified one; undisturbed it equals the specified rollback |
| ProjectUndo.RollbackRestores | internal/generator/transaction.go:655-703 | from any partial apply or partial rollback, by any process, a full rollback puts back the contents and permission bits of every target that can be undone, with its owner when the process is root, removes every created entry, and reports success exactly when nothing was in the way: a lost backup, or for a process that is not root a directory of another owner |
| ProjectUndo.StepRestores | internal/generator/transaction.go:655-703 | one rollback step puts its target back as recorded, as far as the process may, and keeps the later ones back |
| ProjectUndo.CreatedDirEmpty | internal/generator/transaction.go:579-584 | when its turn comes, a directory the transaction created is empty |
| ProjectExact.ExactFromEveryStop | internal/generator/transaction.go:464-586 | rollback gives back the tree exactly as it was from every stop if and only if the backups are there, no existing target and no existing directory of a generated file has a special mode bit, the process is root or owns every existing target, and every directory to be given away is its new owner's already |
| ProjectExact.ExactWhenWorn | internal/generator/transaction.go:611-653 | at a single stop the same condition decides, once the directories of all files have lost their special bits, as after a complete apply |
| ProjectExact.RepeatedRollback | internal/generator/transaction.go:655-703 | any number of rollbacks stopped midway, each by a process of its own, followed by a full one restores all that the last process can restore, and everything when nothing unrecorded was there |
| ProjectExact.RollbackWhenRestored | internal/generator/transaction.go:655-703 | on a tree with nothing left to undo a rollback changes no more than special mode bits and, unless the process is root, file owners, of generated paths and their directories |
| ProjectTransaction.RollbackExactIff | internal/generator/transaction.go:464-586 | for the log of a run, in terms of what can be looked up before the call: rollback is exact from every stop precisely when no generated path and no directory of a generated file that is there has a special mode bit, and owners are as in ProjectExact.ExactFromEveryStop |
| ProjectTransaction.StrippedExactIff | internal/generator/transaction.go:297-331 | what a failed run leaves behind a complete apply is the tree before precisely under that condition |
| ProjectTransaction.UsableAgree | internal/generator/transaction.go:687-687 | the rollback of a run can be complete precisely when the process is root or owns every existing directory among the generated paths |
| ProjectTransaction.RemoveTransactionDir | internal/generator/transaction.go:902-917 | removing the transaction directory touches no destination and never changes the manifest, but it may stop with any piece gone first |
| ProjectTransaction.RecoverProjectTransaction | internal/generator/transaction.go:82-127 | recovery ends at what the open manifest can give back of the old tree, or at the committed tree, keeps which of the two it is however it is interrupted, and undisturbed succeeds exactly when the manifest is accepted and, if uncommitted, can be undone in full |
| ProjectTransaction.RegainedIsBefore | internal/generator/transaction.go:82-127 | what a recovery that goes through regains is the tree before the transaction but for what no log records, and exactly that tree when nothing of that kind was there |
| ProjectTransaction.JournalAccepted | internal/generator/transaction.go:794-887 | the manifest a run writes passes the manifest validation of its recovery |
| ProjectTransaction.PromoteAndCommit | internal/generator/transaction.go:297-331 | the committed manifest decides: before it the old tree can be had back but for what no log records, with it the new tree is complete |
| ProjectTransaction.Transact | internal/generator/transaction.go:129-337 | one transaction from an idle project: undisturbed it goes through exactly when nothing is in its way; a failure leaves the tree before when nothing unrecorded was there, and that tree stripped of exactly the unrecorded things when it fails behind a complete apply; only a directory of another owner among the generated ones keeps the journal open |
| ProjectTransaction.GenerateProjectTransactional | internal/generator/transaction.go:129-337 | an earlier transaction is finished first; afterwards the project is as it was then but for what no log records, recoverable to it, or completely built with everything else unchanged but the special bits of directories of generated files and the owners of volumes; undisturbed, it succeeds exactly when recovery can go through and nothing is in the way of the run |
| ProjectFailures.SetgidHome | internal/securefs/atomic.go:561-580 | a project root with mode 02775, which no run journals: after a failed generation it is 0775 |
| ProjectFailures.SetgidHomeCommitted | internal/securefs/atomic.go:561-580 | after a successful one too |
| ProjectFailures.SetgidTarget | internal/generator/transaction.go:687-687 | an existing directory with mode 02775 among the generated ones comes back as 0775 |
| ProjectFailures.ForeignFile | internal/securefs/ownership_supported.go:42-54 | root's lock file in a user's project: after a failed generation by the user it is the user's |
| ProjectFailures.ForeignDirectory | internal/generator/transaction.go:299-305 | a directory of another owner among the generated ones: generation and its rollback fail, the journal stays, and every later generation by that user is refused |
| ProjectFailures.VolumeStaysGiven | internal/generator/transaction.go:317-324 | a volume directory given away before a failure is not taken back |
| ProjectFailures.StopWhileCleaning | internal/generator/transaction.go:902-917 | a recovery that put the one replaced file back, removed its backup before the manifest and died: every recovery by anyone is refused from then on |
| ProjectFailures.StoppedCleaning | internal/generator/transaction.go:902-917 | such a run on a concrete project |
| Resolving.CollectDependencies | internal/registry/resolver.go:184-207 | the collected dependencies are the required ones and the conditional ones whose condition holds, each once |
| Resolving.ResolutionGraph.ResolveService | internal/registry/resolver.go:98-171 | terminates on every graph, adds exactly the resolvable services reachable from the name, and reports an error exactly for an unresolvable dependency |
| Resolving.ResolutionGraph.Resolve | internal/registry/resolver.go:25-75 | for any set of enabled services, known or not, the services are the closure of the enabled ones; there are no errors exactly when every dependency resolved and the order exists; the order is valid and greedy unless there is a cycle |
| Resolving.ConsistentOrder | internal/registry/resolver.go:57-72 | without errors the order puts every collected dependency before its dependent |
| TopologicalSorting.TopologicalSort | internal/registry/resolver.go:217-274 | refuses exactly the graphs with a dependency cycle; otherwise a permutation of the services with every in-graph dependency earlier, taken greedily by name |
| TopologicalSorting.GreedyIsLeast | internal/registry/resolver.go:246-264 | that order is the lexicographically least valid one, so it does not depend on map iteration |
| TopologicalSorting.OrderExcludesCycles | internal/registry/resolver.go:266-271 | a graph with an order has no cycle |
| TopologicalSorting.StuckHasCycle | internal/registry/resolver.go:266-271 | services that only wait for each other contain a cycle |
| Redacting.LineWriter.Write | internal/redact/redact.go:112-168 | a write ends in the state that feeding its bytes one at a time ends in; the pending line is bounded and empty while discarding; nothing is accepted when it fails |
| Redacting.LineWriter.Close | internal/redact/redact.go:171-189 | flushes an unterminated line once, without a newline, unless it is being discarded |
| Redacting.FeedSplit | internal/redact/redact.go:112-168 | cutting the data anywhere changes nothing |
| Redacting.FeedRenders | internal/redact/redact.go:112-189 | feeding a whole stream and closing gives its rendering: each line redacted, one placeholder for an oversized one, the tail flushed |
| Redacting.WriteStream | internal/redact/redact.go:108-189 | any sequence of writes and a close, to a destination that does not fail, outputs the rendering of the concatenated data |
| IniSections.UpdateINISection | internal/integrate/qbtinit.go:406-471 | the in-place editor computes the update defined on the parts of the file |
| IniSections.QbtPreferenceValue | internal/integrate/qbtinit.go:301-318 | the loop returns the first value of the key under any Preferences header, or the empty string |
| IniLaws.ReadBack | internal/integrate/qbtinit.go:406-471 | after an update every set key reads as an earlier duplicate section sets it, or else as set |
| IniLaws.ReadsBackIff | internal/integrate/qbtinit.go:406-471 | a set key reads back exactly when no earlier duplicate section sets it to something else |
| IniLaws.SingleHeaderReadsBack | internal/integrate/qbtinit.go:406-471 | with at most one matching header every set key reads back |
| IniLaws.DuplicateHeaderHides | internal/integrate/qbtinit.go:411-424 | a file with two adjacent headers of one section in which no update of a key set under the first ever reads back |
| IniLaws.OthersUnchanged | internal/integrate/qbtinit.go:406-471 | lookups in other sections and of keys not set are unchanged |
| IniLaws.UpdateTwice | internal/integrate/qbtinit.go:406-471 | applying the same update twice is applying it once |
| IniLaws.TakeApartWhole | internal/integrate/qbtinit.go:407-440 | the section found again in an edited file is the one that was edited |
| IniLaws.EarlierRead | internal/integrate/qbtinit.go:301-318 | a value an earlier section sets is the one the reader finds |
| IniShadow.EarlierAfterOther | internal/integrate/qbtinit.go:406-471 | editing another section neither hides nor uncovers a value |
| IniShadow.EarlierAfterSame | internal/integrate/qbtinit.go:406-471 | neither does editing the section itself |
| QbtSettings.HashMatches | internal/integrate/qbtinit.go:264-283 | a password matches its own hash text |
| QbtSettings.PreferencesWellFormed | internal/integrate/qbtinit.go:486-500 | the security preferences are keys and values that mean themselves in the file, whatever the public hostname |
| Qbittorrent.UpdateConfSections | internal/integrate/qbtinit.go:376-404 | sections are edited in name order and an unusable section name refuses the whole edit |
| Qbittorrent.FullEditReads | internal/integrate/qbtinit.go:172-182 | after a run the port and every security preference read as wanted unless an earlier section hides them |
| Qbittorrent.Deployment.ReadOrCreateSecret | internal/integrate/qbtinit.go:575-613 | an existing secret is kept; otherwise the file holds the new one |
| Qbittorrent.Deployment.BeginRotation | internal/integrate/qbtinit.go:129-149 | a rotation goes on only when the stored password matches the persisted hash |
| Qbittorrent.UrlSafeDrawn | internal/integrate/qbtinit.go:597-606 | every password in the alphabet of base64.URLEncoding is one the results speak about |
| Qbittorrent.Deployment.WriteFiles | internal/integrate/qbtinit.go:172-213 | both files written, or an error that leaves rotation undoable |
| Qbittorrent.Deployment.Ensure | internal/integrate/qbtinit.go:86-251 | stamped, rotated and skipped-already-init leave the secret verifying against the persisted hash exactly unless an earlier section hides it; a failing rotation keeps agreement when writes are whole, the undo writes succeed and, with a hidden hash, the last step is not the one that fails; a refused rotation changes nothing; every other setting reads as before |
| Qbittorrent.Deployment.Serve | internal/integrate/qbtinit.go:86-251 | any runs in sequence, crashes between the two writes included: whenever the last one succeeds the files agree |
| Qbittorrent.Deployment.EnsureTwice | internal/integrate/qbtinit.go:107-124 | after a successful provisioning the next run has nothing to do |
| Qbittorrent.InstalledSettles | internal/integrate/qbtinit.go:285-299 | a password stored with its hash agrees, unless the hash is hidden |
| Tautulli.ReadTautulliConfig | internal/integrate/tautulli.go:24-67 | the loop reads the settings of all Plex sections, or reports the first one met twice |
| Tautulli.RenderTautulliPMSConfig | internal/integrate/tautulli.go:69-131 | the in-place renderer computes the rendering defined on the lines; it fails exactly on a duplicate setting or without a Plex section |
| TautulliLaws.RenderRead | internal/integrate/tautulli.go:24-131 | whatever rendering succeeds reads back as exactly the four desired values, also with several Plex sections |
| TautulliLaws.UnmanagedSurvive | internal/integrate/tautulli.go:69-131 | every line that holds no managed setting survives, in order |
| TautulliLaws.RenderTwice | internal/integrate/tautulli.go:69-131 | rendering twice is rendering once |
| ArchivePaths.SafeIff | internal/backup/backup.go:1457-1475 | the accepted names are exactly those whose every component is non-empty and neither "." nor "..", without backslashes or control characters: the fixed points of path.Clean that stay inside |
| ArchivePaths.CleanTwice | internal/backup/backup.go:1457-1475 | path.Clean is idempotent on every name |
| ArchivePaths.CleanStack | internal/backup/backup.go:1457-1475 | a cleaned name taken apart is the component stack it was made of, for every name |
| ArchivePaths.CleanInside | internal/backup/backup.go:1457-1475 | a cleaned name has only proper components exactly when it does not start with a parent step |
| ArchivePaths.DestinationClean | internal/backup/transaction.go:1511-1531 | every accepted entry goes to a clean non-empty path below its root |
| ArchivePaths.DestinationInjective | internal/backup/transaction.go:1511-1531 | different entries go to different places |
| Archive.BackupBudget.ReserveFile | internal/backup/backup.go:898-918 | a file is reserved exactly when count, path bytes, sizes and managed limits allow it; no int64 arithmetic overflows |
| Archive.ValidateRestorePathBudget | internal/backup/backup.go:1418-1427 | the subtraction form of the path budget check is exact and cannot overflow |
| Archive.ValidateRestoreSize | internal/backup/backup.go:1429-1437 | the subtraction form of the size check is exact and cannot overflow |
| Archive.ValidateArchive | internal/backup/backup.go:1298-1378 | accepts exactly the archives whose every entry is accepted in turn |
| Archive.BudgetSuffices | internal/backup/backup.go:898-918 | whatever the budget let the writer write passes every count, path and size check of the reader, with the same totals |
| Archive.WriterReaderAgree | internal/backup/backup.go:616-620 | a backup within budget is accepted by the reader exactly when its names are accepted and distinct and every file is readable by its owner |
| Archive.MaskedSafe | internal/backup/backup.go:938-941 | a mode after the writer's mask passes the reader's mode check exactly when the owner may read |
| Archive.StageRestoreArchive | internal/backup/transaction.go:219-362 | staging accepts exactly what validation accepts and the caller's inspections and required project files allow, and plans exactly the entries the selection keeps |
| Archive.StagedPlan | internal/backup/transaction.go:1557-1564 | every staged target of an accepted archive passes the relative-path check, and no two share a place |
| ArchivePlan.SeparatedIff | internal/backup/transaction.go:1511-1531 | the plan of an accepted archive collides with itself exactly when one staged file lies below another |
| ArchivePlan.NestedAccepted | internal/backup/backup.go:1298-1378 | an archive of metadata.json, configs/a and configs/a/b is accepted, and its plan collides with itself |
| ArchivePlan.UnreadableRefused | internal/backup/backup.go:938-941 | a configuration file its owner may only write fits the budget, and the backup of it is not accepted |
| Authelia.GenerateAutheliaAccessRules | internal/generator/integrations.go:416-484 | the loop builds the rules of the guarded services after the shared rule and sorts them stably by the length of their first pattern |
| Authelia.PrefixQuote | internal/generator/integrations.go:457-464 | quoting keeps the length order of two prefixes of one request |
| Authelia.FirstIsMostSpecific | internal/generator/integrations.go:469-481 | some rule is met exactly when one applies; it spells out as much of the request as any that applies, by the pattern that matches, exactly when no service at "/" takes over from the shared rule |
| Authelia.SharedFirstIff | internal/generator/integrations.go:416-430 | the shared rule is first for a request it covers exactly when no guarded route on its host contains the request |
| Authelia.RootHidesDashboard | internal/generator/integrations.go:453-481 | with a guarded service at "/" on its host the rule of that service, not the shared one, is met by /api/x |
| Authelia.LongestRouteWins | internal/generator/integrations.go:457-481 | when a path-routed service of the host contains the request, the first rule is that of the longest such route |
| StableOrder.SortMeaning | internal/generator/integrations.go:471-481 | the stable sort permutes, orders by descending key and keeps the order of equals |
| StableOrder.FirstIsBest | internal/generator/integrations.go:471-481 | in that order the first match is the match with the largest key |
| Audit.FileAuditor.Append | internal/broker/audit.go:98-126 | recording appends one whole record |
| Audit.FileAuditor.Recent | internal/broker/audit.go:143-199 | the window, the cut at the first newline and the backwards loop compute the defined answer |
| Audit.VisibleIsShown | internal/broker/audit.go:162-186 | what the window shows are whole records, never a torn one |
| Audit.RecentRefines | internal/broker/audit.go:143-199 | some number of records is shown, and the result is the newest records of the whole log, as many as asked for and shown, newest first; it fails exactly when one of those is damaged |
| Audit.CompleteWhen | internal/broker/audit.go:162-186 | all records asked for are returned exactly when the file fits the window or they take strictly fewer bytes |
| Audit.ExactWindow | internal/broker/audit.go:162-186 | of 257 records of 32768 bytes the newest 256 fill the window exactly; asked for 256, the reader returns 255 |
| Selection.ProjectIgnorePatterns | internal/generator/generator.go:433-487 | returns exactly the candidates no other candidate covers, once each in order; fails exactly on a control character |
| Selection.ReductionCovers | internal/generator/generator.go:472-486 | every candidate is covered by a pattern and no pattern covers another |
| Selection.PatternCovers | internal/generator/generator.go:464-480 | one pattern is a text prefix of another exactly when its directory contains the other |
| Selection.EffectiveHostPathPermission | internal/generator/effective_policy.go:204-251 | the permission of the deepest root that contains the path |
| Selection.DeepestMeaning | internal/generator/effective_policy.go:239-250 | which is a containing root, none deeper, none as deep declared earlier; host-mount exactly when no root contains the path |
| Selection.RootsAgree | internal/generator/effective_policy.go:239-248 | for roots of one path, longer text means deeper |

## Left out

- Encryption, compression, and the tar, JSON and YAML codecs: archives are lists of entries, journals and manifests lists of records; entry contents are taken to have their declared sizes.
- SHA-256, PBKDF2, base64 and random values: an injective digest, an abstract derivation and encoding, and drawn values given as arguments.
- Symbolic links, inode identity, special files and the bodies of `securefs` but for what they do to modes and owners in project generation; a single writer is assumed, with atomic rename, atomic replacement of a whole file and atomic append of one journal record.
- The order of fsync calls: a rename, directory change or append that happened is durable. A failing sync after a call is a call that took effect and still reported an error.
- Restore: owners of files, and errors of closing the journal; the header is durable before the pre-state is taken, and the transaction identifier is fresh, so no target lies in the transaction directory.
- Restore: the archive is a staged plan there; `Archive.StagedPlan` shows that accepted archives give plans whose targets are valid and distinct, and names are character strings with their UTF-8 length counted, ill-formed UTF-8 excluded.
- Restore: the three roots are independent trees, though the config and secrets directories may lie inside the project; a configuration target reached through the project root as well is not modelled.
- RestoreApply.RunRestore: hooks and validation callbacks are calls that may fail or be the last one, and touch nothing themselves.
- Project generation: planning, rendering and validating the stage are one step that may fail; manifests of earlier schema versions and the temporary files of atomic writes are not modelled.
- Project generation: of the permission checks of the kernel only the one of chmod, for the owner and for root, is computed; the others are refusals the environment may make, and a process is its user and group, without capabilities, further groups or a umask. A group passed on by every directory, as on BSD, and the change of a group by a user among their own groups are not modelled.
- ProjectTransaction.GenerateProjectTransactional: the ancestors of every mapped root are assumed to exist, and a walk to list every directory above what it lists, so no file is written where its directory is missing; managed files to repair are among the generated ones or absent.
- Resolver: validation of definitions is a flag of the catalog entry, and enabling rules are given as the set of enabled services; hashes, warnings and cancellation are left out.
- Redacting.LineWriter.Write: the redaction of one line is an arbitrary function; the mutex is left out.
- Qbittorrent.Deployment.Ensure: what qBittorrent itself writes to its settings when it stops or starts is not modelled, nor are size limits of the files; agreement on failing returns is stated for rotations whose writes are whole and whose undo writes succeed (with a hidden hash, also whose last step does not fail: there the new secret stays with a hash the reader does not see), and not for failing provisioning runs, which may leave a new secret without its hash.
- QbtSettings: quoting is written out for quotes, backslashes and line breaks; other escapes of unprintable characters do not matter to the settings file.
- Tautulli: lower-casing covers ASCII letters only, and the size limit of the file is left out.
- Authelia: patterns are the four shapes the generator writes, with the requests each matches; lengths count characters, which for validated route paths are bytes. Subjects and policies are carried along, not evaluated.
- Audit.FileAuditor.Recent: decoding is a set of damaged lines, sanitizing of events and the mutex are left out; Audit.RecentRefines is about logs of whole records.
- Selection: resolving configured paths to clean absolute ones, and the errors of that, come before the model.
- HTTP integrations, container and Git commands, DNS probes, templates, Traefik and Compose assembly, configuration validation, the command line, lock generation and the rest of the broker: input and output without a comparable invariant, or simpler instances of what is proved here.
