# Elvern state machines in Dafny

This project models the parts of Elvern, a self-hosted media library, that keep state over several steps, and
proves what those steps are for. `dafny verify dfyconfig.toml` checks everything.

| modules | what they model |
|---|---|
| `LibraryTables`, `ScanPlan`, `CopyEvidence`, `CopyIdentity`, `WaitingIdentities`, `ScanMatching`, `MediaScan`, `LibraryScan` | the library scan: recognising files, matching renames, and rewriting the rows under a UNIQUE path column |
| `HiddenKeys`, `IdentityRepair` | hidden titles: migrating and materialising legacy keys, repairing shared identities |
| `SavedHides` | what becomes of the hides of a deleted row |
| `Destination`, `ReleaseMigration`, `MigrationRun` | the transactional copy of a helper release, with its ledger, mode repairs and rollback |
| `RevisionCounters` | the per-transaction claims behind the library revision counters |
| `RangeAuthority` | single-writer allocation of half-open index ranges |
| `RecoveryArms`, `RecoveryRuns` | the service worker's bounded store of single-use recovery arms |
| `Progress`, `TrackingRebuild` | watch-time accounting and its rebuild from the event logs |
| `FloodFill` | the search that makes an icon's corner background transparent |

## How the models are built

Objects that the source updates in place are classes; each method is tied to a function or relation on the
values, and the properties of whole runs are lemmas about those. A SQLite table is a map or a set in a field of the
connection, a savepoint is the value it would restore, and a transaction on the browser's object store is one method.

- **Hashes and identities.** A hash is represented by what it was computed from, so hashes do not collide. A new
  random identity occurs nowhere in the tables and differs from every derived one. Every stored non-empty identity
  carries the current prefix, so the unique index on identities covers it.
- **Order.** Where a query has no ORDER BY, or an order cannot influence the result, the loops take elements in an
  arbitrary order.
- **Parameters.** The title normaliser behind legacy keys, path normalisation and the disk are fields of
  `Environment`, arbitrary but fixed during a scan. File lists are given after the filtering by media root and poster
  folder, with distinct paths, none of which is a staging name. Clocks are arguments.
- **Scopes.** The user tables and the global tables that record hides are treated alike and differ only in a scope.
- **Failures.** In the release migration any read, write, link or chmod on the way forward may fail at any point,
  and the lock may be lost before any part of the cleanup; rollback calls succeed. Names for temporary files differ
  from release names, and the release validator rejects a package named like the manifest. A run records the history of its calls and of the
  states between them; in `RollbackArtifacts` and `RestoreModes` other processes may change the directory between any
  two calls unless the run is marked quiet.
- **Time and numbers.** Positions, durations and instants are whole centiseconds and event epochs whole seconds, so
  rounding to two decimals is exact. Two UTC timestamps in ISO format compare like the instants they name.

## Where the code does less than one might expect

Each of these is stated exactly, as a lemma or a contract, and the general property is proved with the exact condition.

- A destination directory whose identity cannot be read right after it was made stays behind, empty, when the migration
  rolls back (`MigrationRun.Migrate`, the `CleanupFailed` case). A failed mkdir is reported the same way, although
  nothing has changed: the rollback cannot synchronise a directory that is not there.
- A lock lost between the parts of the cleanup leaves the directory partly undone (`MigrationRun.Undo`; what is left is
  in `AfterUndo`).
- A row that never got an identity and whose file is gone loses its hides when a scan removes it: the keys are saved
  for a new identity that nothing can match again (`SavedHides.GoneFileLosesHide`, `OneRowLosesHide` and
  `LostForGood`; the exact condition is in `SavedKeyMatchable`).
- A row whose file comes back does not get its identity back, nor the hides saved for it, when aliases record two or
  more free identities for the file; then only a direct hide or a legacy key of its title hides it
  (`SavedHides.HiddenAgain`, `TwoIdentitiesLoseHide`).
- An authority in conflict does not keep its exact range from being granted again
  (`RangeAuthority.ConflictRangeRegranted`).
- A claim outlives a partial savepoint rollback, so a later change in the same transaction commits without a new
  revision (`RevisionCounters.PartialRollbackLosesRevision`; the exact condition is in `TransactionCounts`).
- A clock that runs back makes a write store another client's arm under its own key, and that arm can then be
  accepted twice (`RecoveryArms.WriteStoresOwn`, `RecoveryRuns.BackwardClockUsesTwice`).
- Migrating legacy keys can make a row visible that shares a legacy key with a directly hidden row
  (`HiddenKeys.SharedKeyRevealed`, `MigrationReveals`; the exact outcome is in `HiddenAfterMigration`).
- A cloud row that holds the path of a discovered file makes a scan fail, and so do legacy keys together with two rows
  that clash over a derived identity; the savepoint then restores every table (`LibraryScan.ScanLibrary`).

## Model

| member | source | states |
|---|---|---|
| ScanPlan.EveryPrefixUnique | backend/app/media_scan.py:694-768 | Path column unique before, between and after all staging, delete and apply writes, for any renames, swaps and cycles, when no untouched row is in the way |
| ScanPlan.PlanOutcome | backend/app/media_scan.py:694-768 | A plan's writes are all accepted if and only if no untouched row holds a planned path; the rows afterwards are exactly the untouched ones and one per changed file |
| ScanPlan.AcceptedPrefixUnique | backend/app/media_scan.py:694-768 | Any sequence of accepted writes keeps the column unique at every prefix |
| ScanPlan.UnstagedSwapRefused | backend/app/media_scan.py:694-709 | Without the staging pass, a plan in which two rows exchange files always has a refused write |
| ScanPlan.StagePass | backend/app/media_scan.py:696-709 | Staging is never refused and leaves every displaced row under its own staging name |
| ScanPlan.DropPass | backend/app/media_scan.py:711-720 | The deletes remove the leftover rows and touch no other path |
| ScanPlan.ApplyAccepts | backend/app/media_scan.py:722-747 | The write of one changed file is refused exactly when an untouched row holds its path |
| ScanPlan.ApplyPass | backend/app/media_scan.py:722-768 | From any point of the apply pass: all remaining writes accepted if and only if no untouched row is in the way, with the final rows fixed |
| ScanPlan.FinalStateUnique | backend/app/media_scan.py:694-768 | The plan determines the final path column, whatever the intermediate states |
| ScanPlan.FinalStateInjective | backend/app/media_scan.py:694-768 | The final path column is unique |
| ScanPlan.RowForInjective | backend/app/media_scan.py:722-747 | Different changed files end in different rows, matched or inserted |
| ScanPlan.StagingPathInjective | backend/app/media_scan.py:703-709 | Staging names of different rows differ, down to the decimal digits of the row ids |
| ScanPlan.DecimalInjective | backend/app/media_scan.py:706-706 | Different numbers have different decimal forms |
| ScanMatching.MatchingIsInjective | backend/app/media_scan.py:642-690 | The rename matching is a partial injection from changed files to displaced local rows |
| ScanMatching.LegacyRowStays | backend/app/media_scan.py:617-623 | A row without identity and with unchanged size and time always stays with its path while its folder data are upgraded |
| ScanMatching.UnsampledFileUnmatched | backend/app/media_scan.py:626-639 | A file without a content sample is matched only as a legacy upgrade |
| ScanMatching.SampledIdentitiesFrame | backend/app/media_scan.py:549-640 | Aliases written while classifying never show in the candidate search of a changed file, so discovery order cannot matter |
| ScanMatching.UnseenRowFrame | backend/app/media_scan.py:549-640 | Aliases written while classifying never show in the continuity test of a row not yet reached |
| ScanMatching.RenewalStep | backend/app/media_scan.py:599-606 | Renewing a row recognised by its sample adds no sample alias |
| ScanMatching.AdoptionStep | backend/app/media_scan.py:607-616 | Giving an unidentified stable row an identity adds no sample alias |
| ScanMatching.RecordedIsKnown | backend/app/media_scan.py:576-587 | A row whose aliases hold the file's inode evidence is found unchanged by the locator search |
| ScanMatching.ClassifyFile | backend/app/media_scan.py:550-640 | One file's record is decided by the tables as they were before the scan |
| ScanMatching.ClassifyFiles | backend/app/media_scan.py:550-640 | The loop finds exactly the stable rows of an order-free definition over the set of files, touches no other row, and takes no identity that waits for a returning file |
| ScanMatching.OneMoreTouched | backend/app/media_scan.py:550-640 | Classifying one more file gives an identity or an alias to its stable row only |
| ScanMatching.CandidateRowsCorrect | backend/app/media_scan.py:653-666 | The candidate ids computed for a record are the candidates of the definition |
| ScanMatching.CollectCandidates | backend/app/media_scan.py:653-671 | The second loop collects for every row exactly the paths it is a candidate for |
| ScanMatching.MutualMatch | backend/app/media_scan.py:673-685 | One candidate row with one candidate path is the same as being each other's only candidate |
| ScanMatching.MatchRecords | backend/app/media_scan.py:673-690 | The matched and the removable rows are those of the order-free definition |
| MediaScan.PlanWellFormed | backend/app/media_scan.py:687-709 | The records give a well-formed plan: distinct targets, distinct paths, no staging name in use |
| MediaScan.UntouchedRows | backend/app/media_scan.py:687-690 | The rows a scan leaves alone are the cloud rows and the stable rows |
| MediaScan.ObstructedByCloud | backend/app/media_scan.py:694-768 | The only obstacle to the writes is a cloud row that holds a discovered path |
| MediaScan.UpdateItem | backend/app/media_scan.py:51-120 | An UPDATE goes through exactly when the path is free, and otherwise changes nothing |
| MediaScan.InsertItem | backend/app/media_scan.py:121-158 | An INSERT goes through exactly when the path is free, under a new id |
| MediaScan.StageMatched | backend/app/media_scan.py:696-709 | The staging loop carries out the staging part of the plan and changes only paths |
| MediaScan.RemoveRows | backend/app/media_scan.py:711-720 | The delete loop removes exactly the leftover rows, leaves other rows alone, and keeps each removed row's hides as keys for one identity per row: its own, or the one its resolution chose at that moment |
| MediaScan.RemoveStep | backend/app/media_scan.py:711-720 | Saving one row's hides and deleting it keeps the saved keys of the rows deleted before |
| MediaScan.DroppedRow | backend/app/db_hidden_movie_keys.py:1124-1197 | What is left after one row is saved and deleted: the key of its identity in every scope that hid it directly, everything else as before |
| MediaScan.WriteRecord | backend/app/media_scan.py:735-747 | The row of a record is filled with the file's content, or nothing changes when the path is taken |
| MediaScan.TracedStep | backend/app/media_scan.py:753-762 | The identity recorded for an applied file makes the file known to later scans, without disturbing rows applied before |
| MediaScan.ReturnedStep | backend/app/media_scan.py:722-762 | Writing and resolving one changed file gives it the identity due to it and leaves those of the files to come |
| MediaScan.ApplyRecords | backend/app/media_scan.py:722-768 | The apply loop completes exactly when no untouched row is in the way, and fills every row of a changed file |
| LibraryScan.ScanLibrary | backend/app/media_scan.py:508-799 | Completes exactly when no cloud row holds a discovered path and, with legacy keys to prune, no two rows clash over a derived identity; otherwise all tables are as before; completed: reconciled, every direct hide kept with its row or as a key for its removed row's identity, no copy key lost, every traceable file recognisable, every returning file with its identity back, counters that add up with the new rows |
| LibraryScan.Reconcile | backend/app/media_scan.py:549-768 | Completes exactly when no cloud row holds a discovered path; the old local rows minus the removed ones plus the new row ids in the table are as many as the files; hides, keys and the identities of returning files are kept |
| LibraryScan.RowsInserted | backend/app/media_scan.py:549-768 | In every reconciled library old local rows minus removed rows plus new row ids equals the number of files |
| LibraryScan.CloudAfter | backend/app/media_scan.py:549-768 | Up to the prune the cloud rows stay as they were and only copy keys are added, so whether the prune can resolve every row is decided before the scan |
| LibraryScan.Mutate | backend/app/media_scan.py:694-768 | Staging, removal and apply together complete exactly when the plan is unobstructed |
| LibraryScan.ReconciledAfter | backend/app/media_scan.py:549-768 | After the passes every file has its right row and every local row its file, cloud rows and identities are kept, exactly the removed rows are gone |
| LibraryScan.OneRowPerFile | backend/app/media_scan.py:549-768 | After a completed scan there are exactly as many local rows as discovered files |
| LibraryScan.HidesAfter | backend/app/media_scan.py:711-720 | Every direct hide survives with its row, or as a key for one identity of its removed row: its own, or the one resolved at the moment of its removal |
| LibraryScan.AllReturnedAfter | backend/app/media_scan.py:549-768 | Every file recorded for one identity only, held by no row and recorded nowhere else, has that identity after the passes, in whatever order files are processed |
| LibraryScan.ReturningIsDue | backend/app/media_scan.py:549-720 | Classification, staging and removal neither take such an identity nor record anything for its path |
| LibraryScan.KeptThroughScan | backend/app/media_scan.py:694-768 | The identity chosen for a removed row is one its resolution may choose on the tables as the whole scan found and left them |
| LibraryScan.PruneKeepsHides | backend/app/media_scan.py:770-778 | The legacy prune keeps those hides and the keys of the removed rows' identities |
| LibraryScan.PruneKeepsRows | backend/app/media_scan.py:770-778 | The legacy prune keeps the reconciliation |
| LibraryScan.CountsAgree | backend/app/media_scan.py:642-720 | Old local rows minus removed plus inserted rows equals the number of files |
| LibraryScan.LocalRowsPartitioned | backend/app/media_scan.py:642-690 | Stable, matched and removed rows partition the old local rows |
| LibraryScan.SecondScanFindsNothing | backend/app/media_scan.py:549-690 | After a completed scan, another scan of the same files, all with a usable inode and locator, finds every row stable and nothing to match or remove |
| LibraryScan.SecondScanChangesNothing | backend/app/media_scan.py:549-778 | A completed second scan leaves every row exactly as it was, when cloud rows have their identities |
| LibraryScan.TracedAfter | backend/app/media_scan.py:549-768 | After the passes every traceable file is recognised, unchanged, in an identified row |
| LibraryScan.UniqueAfter | backend/app/media_scan.py:722-768 | Final paths are unique and are those of the plan's run |
| CopyEvidence.FindCandidates | backend/app/db_hidden_movie_keys.py:396-480 | The alias queries and the filter return exactly the identities accepted by the evidence rules |
| CopyEvidence.GroupHits | backend/app/db_hidden_movie_keys.py:396-436 | The alias queries, grouped by identity, hit exactly the identities with a supporting alias |
| CopyEvidence.AcceptedIsFound | backend/app/db_hidden_movie_keys.py:396-480 | The grouping by identity agrees with a rule stated identity by identity |
| CopyEvidence.AcceptedFrame | backend/app/db_hidden_movie_keys.py:396-480 | Whether an identity is accepted depends on its own aliases only |
| CopyEvidence.SampledSearchFrame | backend/app/db_hidden_movie_keys.py:437-480 | A search that demands a sample depends on sample aliases only |
| CopyEvidence.AcceptedGrows | backend/app/db_hidden_movie_keys.py:447-480 | What a search accepts stays accepted when aliases are added |
| CopyIdentity.ResolveIdentity | backend/app/db_hidden_movie_keys.py:552-646 | The method takes one of the permitted steps: keep, adopt, create or derive an identity, and record aliases |
| CopyIdentity.ResolveKeepsDistinct | backend/app/db_hidden_movie_keys.py:552-646 | Resolving keeps active identities distinct and touches no other row, path, hide or key; a local row always gets an identity |
| CopyIdentity.LocalChoiceUnowned | backend/app/db_hidden_movie_keys.py:600-635 | The identity chosen for a local row is held by no other row |
| CopyIdentity.ResolutionKeepsRandom | backend/app/db_hidden_movie_keys.py:552-646 | Identities of local rows and of aliases stay random ones |
| WaitingIdentities.ResolutionLeavesWaiting | backend/app/db_hidden_movie_keys.py:552-646 | A resolution for one path leaves alone every recorded identity that waits for another |
| WaitingIdentities.WaitingIsFree | backend/app/db_hidden_movie_keys.py:396-480 | When its file comes, the only identity recorded for it is the only free candidate |
| CopyIdentity.RecordAliases | backend/app/db_hidden_movie_keys.py:340-393 | Adds one alias for each piece of evidence and changes nothing else |
| CopyIdentity.NewIdentity | backend/app/db_hidden_movie_keys.py:314-318 | A new random identity is mentioned nowhere in the tables |
| HiddenKeys.HiddenAfterMigration | backend/app/db_hidden_movie_keys.py:777-901 | Exactly who is hidden after a migration, row by row and scope by scope |
| HiddenKeys.MigrationNeverHides | backend/app/db_hidden_movie_keys.py:777-901 | Migration hides nothing new |
| HiddenKeys.MigrationReveals | backend/app/db_hidden_movie_keys.py:830-896 | A row becomes visible only if it is not hidden directly and shares a legacy key with a row that is |
| HiddenKeys.SharedKeyRevealed | backend/app/db_hidden_movie_keys.py:830-896 | The input that reveals a row: two rows share their only legacy key, the key is recorded, and one of them is hidden directly |
| HiddenKeys.MigrationIdempotent | backend/app/db_hidden_movie_keys.py:777-901 | After a migration no remaining record migrates, and the keys stay as they are |
| HiddenKeys.SecondMigrationFindsNothing | backend/app/db_hidden_movie_keys.py:777-901 | A second migration, with its own load of the rows, reports no migrated record in either table and leaves the keys as they are |
| HiddenKeys.MigrateLegacyKeys | backend/app/db_hidden_movie_keys.py:777-901 | The loops leave exactly the migrated keys and report exactly the migrated and retained records; it fails exactly when there are legacy keys and two rows clash over a derived identity |
| HiddenKeys.MigrateRecords | backend/app/db_hidden_movie_keys.py:777-901 | One record loop processes each of its records once, on the rows and hides read at the start |
| HiddenKeys.LoadIdentityRows | backend/app/db_hidden_movie_keys.py:742-766 | Every row is resolved in turn and only missing identities are filled; it stops exactly when a cloud row derives an identity that another row holds or derives too |
| HiddenKeys.StoppedAtClash | backend/app/db_hidden_movie_keys.py:742-766 | A load that stops does so at two rows that clash over a derived identity |
| HiddenKeys.LoadedWithoutClash | backend/app/db_hidden_movie_keys.py:742-766 | A load that resolves every row has met no such clash |
| HiddenKeys.ReplaceRecord | backend/app/db_hidden_movie_keys.py:840-859 | A legacy record is replaced by copy keys for all its rows if all of them have an identity, and otherwise kept whole |
| HiddenKeys.HiddenAfterReplacement | backend/app/db_hidden_movie_keys.py:777-1018 | Exactly who is hidden after any set of such replacements |
| HiddenKeys.MaterialiseForItem | backend/app/db_hidden_movie_keys.py:904-1018 | With all rows identified, everyone sees the same rows as before; the keys left are exactly the materialised ones |
| HiddenKeys.MaterialisationPreservesHidden | backend/app/db_hidden_movie_keys.py:960-1018 | Materialising an item's legacy coverage changes nobody's hidden rows, in any scope |
| HiddenKeys.MaterialisationClearsKeys | backend/app/db_hidden_movie_keys.py:960-1018 | No covered legacy key is left in the requested scopes when its rows have identities |
| IdentityRepair.RepairCollisions | backend/app/db_hidden_movie_keys.py:1021-1121 | Identities end distinct; every scope sees the same rows; exactly the rows after the first of each group change; the count is exact; nothing to repair means nothing changes |
| IdentityRepair.SplitPreservesHidden | backend/app/db_hidden_movie_keys.py:1057-1111 | Giving a row a new identity and copying the keys of the old one changes nobody's view |
| IdentityRepair.SplitGroup | backend/app/db_hidden_movie_keys.py:1042-1111 | One shared identity is left with its first row only |
| IdentityRepair.AllRepaired | backend/app/db_hidden_movie_keys.py:1021-1121 | A repaired library has unique identities and differs exactly in the rows that had to give theirs up |
| IdentityRepair.PreserveHides | backend/app/db_hidden_movie_keys.py:1124-1197 | Before a row is deleted, each scope that hides it directly gets a key for its identity |
| SavedHides.SavedKeyMatchable | backend/app/db_hidden_movie_keys.py:1124-1197 | After a deletion the saved key can match a row again if and only if the row had an identity recorded by an alias, or had none and its inode led to exactly one free identity |
| SavedHides.GoneFileLosesHide | backend/app/db_hidden_movie_keys.py:1124-1197 | For a row without identity whose file is gone the saved key names a new identity that no row and no alias mentions |
| SavedHides.OneRowLosesHide | backend/app/db_hidden_movie_keys.py:1124-1197 | The failing input: a library of one hidden row without identity whose file is gone |
| SavedHides.ResolutionLeavesLost | backend/app/db_hidden_movie_keys.py:552-646 | No resolution gives such an identity to a row or records an alias for it |
| SavedHides.LostForGood | backend/app/db_hidden_movie_keys.py:552-646 | Over any run of resolutions, splits and other statements, on any disks, a row never matches such a key while it is there |
| SavedHides.RecordedIsAccepted | backend/app/db_hidden_movie_keys.py:437-480 | A file whose evidence is recorded is accepted by a search at its path |
| SavedHides.HiddenAgain | backend/app/db_hidden_movie_keys.py:1124-1197 | The resolution of a new row at the path of a removed row's recorded file: it gets that identity back if and only if no other free identity is recorded for the file, and is then hidden in the same scopes; otherwise exactly a direct hide or a legacy key of its title hides it |
| SavedHides.TwoIdentitiesLoseHide | backend/app/db_hidden_movie_keys.py:552-646 | The failing input: two identities recorded for the file and only one of them hidden; the new row is not hidden |
| SavedHides.HiddenAfterReturn | backend/app/media_scan.py:508-799 | Round trip over any run of completed scans: a row removed by one scan has its identity back, and is hidden in the same scopes, after a later scan in which its file returns |
| SavedHides.KeysKeptThrough | backend/app/media_scan.py:508-799 | No run of completed scans takes a copy key away |
| SavedHides.RecordedReturns | backend/app/db_hidden_movie_keys.py:396-480 | When a file counts as returning: it is recorded for one identity only, which no row holds and nothing records elsewhere, and no row stands for it or matches it |
| MigrationRun.Migrate | scripts/desktop-helper-runtime-releases.py:787-902 | The recorded history of single calls leads from the directory as found to the directory as left, with an active manifest backed by the whole release in every state of it; success: every source file present, equal and immutable; a clean failure: names, contents and modes as found; an incomplete cleanup: no old file lost, and each part the lock was held for undone, so that with the lock held throughout at most an empty new directory is left; refused or identical: no call at all |
| MigrationRun.Place | scripts/desktop-helper-runtime-releases.py:844-902 | The forward path and its rollback, for a missing or partial destination; the history goes on and keeps the manifest backed |
| MigrationRun.RepairModes | scripts/desktop-helper-runtime-releases.py:821-842 | Either all files are immutable afterwards, or all modes are as found, or the lock was lost and nothing but modes of old files differs; the history goes on and keeps the manifest backed |
| MigrationRun.Inspect | scripts/desktop-helper-runtime-releases.py:798-820 | An incomplete active manifest and a conflicting file are refused; what passes is a backed, conflict-free directory |
| MigrationRun.Undo | scripts/desktop-helper-runtime-releases.py:875-900 | Each part of the cleanup is done exactly if the lock is held for it, and what the refused parts cover stays a transaction state; clean exactly when every part is done, the identity of a new directory known included; the history goes on and keeps the manifest backed |
| MigrationRun.AfterUndo | scripts/desktop-helper-runtime-releases.py:875-900 | All parts done: the view before the run; otherwise no old file is lost, names are as before if artifacts were undone, modes if modes were, and with the lock held throughout only an empty new directory is left |
| MigrationRun.PlaceAll | scripts/desktop-helper-runtime-releases.py:858-874 | The loop places packages before the manifest; success means the whole release is installed |
| MigrationRun.UndoneView | scripts/desktop-helper-runtime-releases.py:844-900 | Once ledger and repairs are used up, names, contents and modes are the initial ones |
| ReleaseMigration.Migration.PlaceOne | scripts/desktop-helper-runtime-releases.py:858-868 | Each file is skipped, made immutable, refused or copied, and the forward invariant moves one file on |
| ReleaseMigration.Migration.CopyVerified | scripts/desktop-helper-runtime-releases.py:462-519 | A copy appears complete and immutable or not at all, and no temporary file stays |
| ReleaseMigration.Migration.RepairMode | scripts/desktop-helper-runtime-releases.py:750-755 | The old mode is recorded before the mode changes |
| ReleaseMigration.Migration.RollbackArtifacts | scripts/desktop-helper-runtime-releases.py:691-747 | Undisturbed and with the lock held it undoes all placements; whatever others do, each of its own calls unlinks a name that at that moment holds the inode and state of an uncommitted entry of its ledger; without the lock it makes no call |
| ReleaseMigration.Migration.RollbackEntry | scripts/desktop-helper-runtime-releases.py:700-744 | One ledger entry: the checks and at most one unlink, after any change by another process; undisturbed it never complains and the transaction is one entry shorter |
| ReleaseMigration.Migration.RestoreModes | scripts/desktop-helper-runtime-releases.py:661-688 | Undisturbed and with the lock held every recorded mode comes back, last repair first; whatever others do, each call sets the recorded mode of a recorded file that is still the same under its name; without the lock it makes no call |
| ReleaseMigration.Migration.RemoveDestination | scripts/desktop-helper-runtime-releases.py:758-784 | The directory goes only if it is empty and still the one this run made |
| ReleaseMigration.Migration.Commit | scripts/desktop-helper-runtime-releases.py:872-874 | Exactly the placed entries become committed |
| ReleaseMigration.RollbackRemovesOnlyOwn | scripts/desktop-helper-runtime-releases.py:691-747 | Over any history of rollback calls and foreign changes: a link to a file that was there before, that was replaced, or that is committed is still there unless another process removed it, and no rollback call changes a file |
| ReleaseMigration.TransactionLedgerNew | scripts/desktop-helper-runtime-releases.py:462-519 | A run's ledger holds only names and files that were not there when it began, which RollbackRemovesOnlyOwn takes as its premise |
| ReleaseMigration.RollbackStep | scripts/desktop-helper-runtime-releases.py:700-747 | Undoing the last ledger entry keeps the transaction invariant and never takes a package from under an active manifest |
| ReleaseMigration.RestoreStep | scripts/desktop-helper-runtime-releases.py:661-688 | The checks before restoring a mode pass on an undisturbed directory, and the restore moves the invariant one repair back, whatever the rollback before it has left |
| ReleaseMigration.RepairIsUndone | scripts/desktop-helper-runtime-releases.py:650-688 | Recording a mode and changing it cancels out under the reversed restore |
| ReleaseMigration.UndoneKeeps | scripts/desktop-helper-runtime-releases.py:661-688 | Restoring touches modes only, and only of recorded files |
| ReleaseMigration.CopyKeepsTransaction | scripts/desktop-helper-runtime-releases.py:462-519 | A copy, finished or interrupted anywhere, leaves a state rollback can undo |
| ReleaseMigration.CopyBacked | scripts/desktop-helper-runtime-releases.py:462-519 | No step of a copy makes an active manifest unbacked |
| RevisionCounters.TransactionCounts | backend/app/db.py:997-1130 | A transaction bumps a counter by one if and only if its first touching statement is not undone by a savepoint rollback |
| RevisionCounters.CounterIsCommittedChanges | backend/app/db.py:1270-1291 | Over any run, a counter is the number of committed transactions whose first touch survives |
| RevisionCounters.CounterIsCommittedTouches | backend/app/db.py:1270-1291 | Without partial rollbacks, a counter is the number of committed transactions with a tracked change for its scope and layer |
| RevisionCounters.RolledBackUnseen | backend/app/db.py:1289-1291 | Removing a rolled-back transaction from a history changes nothing |
| RevisionCounters.PartialRollbackLosesRevision | backend/app/db.py:1275-1283 | After a partial savepoint rollback a committed change can leave the counter where it was |
| RevisionCounters.MoveConcernsBoth | backend/app/db.py:1099-1129 | An update that moves a row between users fires the triggers of both users' counters |
| RevisionCounters.MoveRaisesBoth | backend/app/db.py:1099-1130 | A committed transaction with such an update and no partial rollback raises the counter of either user by exactly one, whatever else it changes |
| RevisionCounters.DurableUntilCommit | backend/app/db.py:1285-1291 | Durable counters do not change before a commit |
| RevisionCounters.ElvernConnection.Claim | backend/app/db.py:1275-1283 | True once for each key and transaction |
| RevisionCounters.ElvernConnection.Execute | backend/app/db.py:1068-1130 | A statement's triggers together act as one touch of all keys they concern, in any order |
| RevisionCounters.ElvernConnection.Commit | backend/app/db.py:1285-1287 | Counters become durable and claims are forgotten |
| RevisionCounters.ElvernConnection.Rollback | backend/app/db.py:1289-1291 | Counters return to the durable ones and claims are forgotten |
| RangeAuthority.RelationMeaning | scripts/route2-canonical-authority-simulator.py:60-76 | Two valid ranges share an index exactly when the relation is not adjacent or disjoint; subrange and wider mean inclusion |
| RangeAuthority.AnswerMeaning | scripts/route2-canonical-authority-simulator.py:355-403 | An authority stands in the way exactly when it is not terminal and shares an index, unless it is in conflict over the very same range |
| RangeAuthority.GrantableMeansNoAnswer | scripts/route2-canonical-authority-simulator.py:354-417 | A grant goes ahead exactly when no authority answers |
| RangeAuthority.GrantKeepsDisjoint | scripts/route2-canonical-authority-simulator.py:346-417 | A grant never gives a live authority an index of another live one |
| RangeAuthority.StepKeepsDisjoint | scripts/route2-canonical-authority-simulator.py:346-437 | Every acquire, heartbeat, abandon, expire and permitted transition keeps live ranges disjoint |
| RangeAuthority.RunKeepsDisjoint | scripts/route2-canonical-authority-simulator.py:346-437 | In every run live authorities have pairwise disjoint ranges |
| RangeAuthority.ConflictRangeRegranted | scripts/route2-canonical-authority-simulator.py:364-410 | With an authority in conflict, the same range is granted again, and no other range ending at the same index is |
| RangeAuthority.StoreContents | scripts/route2-canonical-authority-simulator.py:410-410 | Storing under an id replaces the record with that id or adds one, and keeps ids distinct |
| RangeAuthority.AuthoritySimulator.Acquire | scripts/route2-canonical-authority-simulator.py:346-417 | Grants exactly when grantable; otherwise the first authority in order that answers decides the action; the new table is that of the step |
| RangeAuthority.AuthoritySimulator.Heartbeat | scripts/route2-canonical-authority-simulator.py:419-423 | Renews the lease for thirty seconds, fails without a lease, changes no other authority |
| RangeAuthority.AuthoritySimulator.AbandonIfStale | scripts/route2-canonical-authority-simulator.py:425-431 | Abandons exactly when the lease is active and out of time |
| RangeAuthority.AuthoritySimulator.Expire | scripts/route2-canonical-authority-simulator.py:433-437 | Expires authority and lease, changes no other authority |
| RangeAuthority.AuthorityRecord.RecordSegmentHashConflict | scripts/route2-canonical-authority-simulator.py:196-225 | The conflict list is ascending and without repeats, holds exactly the recorded indexes, and count and times agree with the log |
| RecoveryArms.WriteOutcome | frontend/public/sw.js:79-121 | With nothing younger in the store: at most 32 records left, the new one under its own key, the rest unchanged and unexpired, evictions only oldest first and only down to 32 |
| RecoveryArms.WriteStoresOwn | frontend/public/sw.js:98-111 | The new record is stored under its own key if and only if no retained record is younger |
| RecoveryArms.WriteKeys | frontend/public/sw.js:86-110 | The sorted list holds exactly the retained records and the new one, in order of creation |
| RecoveryArms.SortedFacts | frontend/public/sw.js:106-106 | The sort orders by creation time and keeps exactly the elements |
| RecoveryArms.SortedLast | frontend/public/sw.js:106-111 | The last element is the new record whenever nothing is younger, and always one of the youngest |
| RecoveryArms.ArmStore.Write | frontend/public/sw.js:86-113 | The transaction's loops compute the specified store, in whatever order the store lists its records |
| RecoveryArms.ArmStore.Consume | frontend/public/sw.js:131-162 | Accepts exactly when an unexpired arm of the same scope and client with a long enough nonce is there; deletes it and all expired ones |
| RecoveryArms.ArmStore.Cleanup | frontend/public/sw.js:165-184 | Deletes exactly the keys of expired records |
| RecoveryRuns.AcceptedByWriter | frontend/public/sw.js:124-162 | Over any run, an accepted consume uses an arm the same client wrote, before it expires and before anything else touched its key |
| RecoveryRuns.UsedOnce | frontend/public/sw.js:124-162 | No arm is accepted twice |
| RecoveryRuns.AcceptsWithinWrites | frontend/public/sw.js:79-162 | A client's accepted consumes never outnumber its writes |
| RecoveryRuns.LiveArmAccepted | frontend/public/sw.js:79-162 | An arm that is not expired, not touched and not outnumbered by 32 others at least as young is accepted |
| RecoveryRuns.EveryStateExplained | frontend/public/sw.js:79-184 | In every state at most 32 arms, each from a write whose key nothing has touched since |
| RecoveryRuns.LostToEviction | frontend/public/sw.js:107-110 | An untouched, unexpired arm is lost only to a write that leaves 32 arms, none of them older |
| RecoveryRuns.BackwardClockUsesTwice | frontend/public/sw.js:98-111 | If the clock runs back between two writes, one arm can be accepted twice |
| Progress.RunWithinBounds | backend/app/progress.py:189-303 | After n + 1 saves from no row, among any saves of others and whatever old events are logged: total equals the sum of the watch events of this run and is at most 10 s + elapsed + 2 s per save, and at most 10 s + 30 s per save |
| Progress.RunNeverLowers | backend/app/progress.py:189-303 | No save lowers any total |
| Progress.SaveAdds | backend/app/progress.py:225-280 | A save adds to the log exactly what it adds to the total, for its own item only |
| Progress.SaveAddsToEnd | backend/app/progress.py:225-280 | A save adds the same to the total as to the events logged after any earlier point |
| Progress.SaveBalanced | backend/app/progress.py:225-280 | Totals stay equal to the sums of their watch events |
| Progress.IncrementIsLargestAllowed | backend/app/progress.py:69-96 | The increment is the most that forward progress and the caps allow |
| TrackingRebuild.ProgressStore.SaveProgress | backend/app/progress.py:189-303 | The method leaves the specified row, watch event and tracking event |
| TrackingRebuild.ProgressStore.RefreshRecentTracking | backend/app/progress.py:340-537 | Every candidate row is rebuilt from its own evidence, every other row kept, and both counters are exact |
| TrackingRebuild.SecondRefreshEmpty | backend/app/progress.py:340-537 | An immediate second run rebuilds nothing, inserts nothing and changes nothing |
| TrackingRebuild.RebuildIdempotent | backend/app/progress.py:434-530 | Rebuilding a row just rebuilt or inserted is a no-op, the ignored bogus completion included |
| TrackingRebuild.RefreshNeverLowers | backend/app/progress.py:473-530 | No run lowers a watch total or a time of update, or removes a row |
| TrackingRebuild.IgnoredExactly | backend/app/progress.py:33-54 | The newest event is ignored exactly when it is a bogus completion with an unfinished position behind it, which is then selected |
| TrackingRebuild.SelectRow | backend/app/progress.py:33-45 | The loop selects the specified row |
| TrackingRebuild.NewestFacts | backend/app/progress.py:361-381 | The query lists exactly the relevant events of an item, youngest first |
| TrackingRebuild.RefreshBalanced | backend/app/progress.py:340-537 | Totals that equal the sums of their watch events still do after a refresh |
| TrackingRebuild.LostTotalsRestored | backend/app/progress.py:340-537 | When all rows of a user are lost, a refresh restores every watch total |
| TrackingRebuild.LastSaveRestored | backend/app/progress.py:189-303 | A lost row comes back from the logs with position, duration and completion of the last recorded save, dated by the clock or by the client, except exactly after an ignored bogus completion |
| FloodFill.RemoveCornerBackground | scripts/generate_icons.py:38-70 | Terminates with alpha 0 on exactly the background pixels connected to a corner through background pixels, all else unchanged |
| FloodFill.SearchFinished | scripts/generate_icons.py:51-68 | Once the queue is empty, the background points cleared are exactly those reachable from the corners, and nothing else has changed |
| FloodFill.WalkSeen | scripts/generate_icons.py:51-68 | A set that holds the corners and the neighbours of its background points covers every walk |
| FloodFill.ExpandFrontier | scripts/generate_icons.py:60-68 | Visiting a background point keeps the search invariant |
| FloodFill.SecondPassRemovesNothing | scripts/generate_icons.py:38-70 | On the result nothing is reachable any more, so a second pass would remove nothing |

## Left out

- LibraryScan.ScanLibrary: does not model the scan_jobs row, subtitles, media metadata from ffprobe, or files that change on disk during the scan; the exact condition for completing takes the identities of local rows and aliases to be random ones, as resolutions keep them, and otherwise only its two halves about cloud rows are stated; the hidden-row view of a title that the prune reveals is stated in `HiddenKeys`, not here.
- LibraryScan.SecondScanFindsNothing: asks that every file is regular and has an inode number and a locator, since only such files are recognised without a content sample.
- HiddenKeys.MigrateLegacyKeys: does not model hidden_at, display titles and the other descriptive columns of the key tables; the view is stated for tables in which every row already has an identity.
- HiddenKeys.MaterialiseForItem: states the unchanged view for tables in which every row already has an identity; without one a resolution during the call could add an identity that a key already names.
- IdentityRepair.RepairCollisions: does not model the savepoint around the repair, since no modelled step can fail.
- MigrationRun.Migrate: does not model fsync, signals, symbolic links, file descriptors, or rollback calls that fail; interference by other processes is modelled for the artifact rollback and the mode restore only.
- HiddenKeys.LoadIdentityRows: states exactly when it stops for tables in which the identities of local rows and aliases are random ones, and otherwise that it does not stop when no cloud row lacks an identity.
- SavedHides.HiddenAfterReturn: asks that nothing is recorded for the returning file's path but its identity, and nothing for that identity at another discovered file; with more recorded, which file takes the identity depends on the order of the scan, and `HiddenAgain` states each single resolution exactly. Between the scans of a run nobody shows the title again.
- RevisionCounters.ElvernConnection.Execute: groups the tables by scope and layer and takes the change of a tracked column as given, instead of listing the columns.
- RangeAuthority.StepKeepsDisjoint: allows a transition only if it does not bring a conflict or terminal authority back to a live state; the unrestricted transition method would allow that too.
- RangeAuthority.AuthoritySimulator.Acquire: does not model the reason texts, the blocked-serving reasons or the constant metadata of an authority.
- RecoveryArms.ArmStore.Write: does not model failing transactions, which leave the store unchanged, or numbers that are not finite.
- TrackingRebuild.ProgressStore.RefreshRecentTracking: takes one clock reading for all rows inserted without an event time.
- Progress.RunWithinBounds: covers runs of saves; a refresh in between may move the position and the time of update, and only the equality with the event log is proved across it (`TrackingRebuild.RefreshBalanced`).
- The mutation lock, the dry run, release inspection and validation of release files.
- The one-off backfill of hidden keys, the functions that show a hidden title again, and cloud synchronisation.
- The service worker's caches and fetch handling, and the checks of the arming message before a write.
- Cropping, resizing and encoding of icons.
- HTTP routes, React components, the command line, configuration, authentication and playback: plumbing around the modelled state.
