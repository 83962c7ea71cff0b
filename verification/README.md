# Verification model of Guiying's evidence-safety core

Guiying finds duplicate photos, moves the redundant ones into a quarantine directory, and exports its evidence. This
Dafny project models the parts of it that must never lose, overwrite or misreport anything, and proves what they keep
over whole runs, with other processes, failing calls, crashes and concurrent threads in the model. `dafny verify
dfyconfig.toml` checks all of it.

## How it is built

Every operation has a specification function on values; the code that works by changing things is a method with its
loops and fields, proved equal to that function state by state; and the theorems are about the functions, so they are
about the methods too.

- **Quarantine and restore.** `FileSystem` is a volume: one map from (directory, name) to node, file objects with
  metadata, bytes and a change time that every touch renews. `Quarantine` specifies one move and one restore as the
  list of durable states they pass through, with arbitrary actions of other processes just before the commit and at the
  post-rename hook, and with every I/O call allowed to fail; a new directory or manifest may be in place and the call
  that made it fail all the same. `QuarantineRuns` specifies `execute_plan` and `restore_operation`,
  `QuarantineService` is the service itself on a mutable volume. `Manifest`, `Text` and `Paths` hold the evidence, the
  recovery manifest with its validator, and the codecs. `ManifestShape`, `Sessions` and `RestoreResponses` hold for
  arbitrary interference; `Recovery`, `CrashRecovery`, `OperationSetup`, `CrashTheorem` and `ExecutionCompletes` build up
  to the two whole-protocol theorems: quarantine then restore is the identity through any crash, and when an undisturbed
  execution completes. `ExecutionAnswers`, `RestorationAnswers` and `Undoing` say what the service's answers mean and what
  it undoes, whatever else happens; `ManifestRecords` what the accepted manifests and paths are.
- **Exact comparison.** `Reading` is a machine on which each system call happens at some later instant and may be cut
  short, interrupted or fail, and a world whose files change over time. The one assumption about the operating system
  is that every content change renews the change time. `Compare` proves that an answer holds at every instant of a
  window, and that chunked reading means comparing whole contents.
- **JPEG markers.** `Jpeg` follows sections B.1.1.2 to B.1.1.4 of ITU-T T.81; the TIFF parser is an arbitrary function.
- **Export.** `Csv`, `ExportDigest` and `ExportEncoder` are the printer, the digest stream and the encoder over a
  bounded writer; `ExportPublication` is the cancel/commit gate and the whole export, from the temporary file through the
  encoder to the publication by link, with its exact answer when nothing disturbs it.
- **Jobs and authority.** `JobControl` interleaves pause, resume and cancel with the worker, at the granularity of
  lock acquisitions, and `JobFlows` says where each leads. `ResultReads` (with `ResultReadService`) is the grant registry with generations and leases, and
  `ResultAdmission` what being admitted to it promises; `ResultAnswers` gives the exact condition and effect of each of
  its operations and the origin of every lease. `Activities` puts scans, exports, mutations, target selections and window
  closing together; `ActivityFlows` gives the exact condition and effect of its steps and shows that a cancellation is
  final. `Admission` holds the root tokens and the history-read gate.

## Where the code does not do what its words suggest

Each is shown by an input on which it fails, and by the exact condition under which it holds.

- A failed move that reports itself rolled back may have returned a foreign object to the user's path
  (`Quarantine.RollbackMayReturnImpostor`); it returned the user's object exactly if that object still had the
  quarantine name (`Quarantine.RollbackBringsHome`). Nothing is lost either way.
- A failed move that reports nothing in quarantine may have left the file there, and the manifest then keeps calling it
  planned (`Quarantine.RecheckMayMissQuarantine`). The flag is exact when the call that looks for the file works
  (`Quarantine.MoveContract`), and restoring goes by where the file is, so it comes home anyway
  (`CrashTheorem.QuarantineThenRestoreIsIdentity`).
- The remaining count of a restore response counts from the files this run verified, not from what is restored
  (`RestoreResponses.RemainingMayOverstate`). It is the number of files still to restore exactly if the run verified at
  least the files recorded as restored before (`RestoreResponses.RemainingIsExact`), and can be relied on beforehand
  exactly if none is (`RestoreResponses.RemainingReliable`).
- Being admitted to open a result does not promise a token (`ResultAdmission.AdmissionIsNoPromise`). A pending open is
  refused for lack of room exactly if it has no place (`ResultAdmission.RefusedWithoutPlace`), admission gives it one, and
  only the admitted reopen of an already granted run can take it away (`ResultAdmission.AdmittedIsIssued`).
- A temporary export file that was created but could not be secured or verified is not removed by anyone: ownership
  starts only after both checks (src-tauri/src/export_target.rs:244-263). `ExportPublication.LeavesFileBehind` is such a
  run; `ExportPublication.Export.WriteHistoryExport` says of every run which file, if any, is still under its name.

## Model

| member | source | states |
|---|---|---|
| CrashTheorem.QuarantineThenRestoreIsIdentity | src-tauri/src/quarantine_service.rs:1211-1322 | Crash `execute_plan` after any durable step, with any call failing before it (also the look for the file after a failed verification, and the sync after a manifest was replaced); run any number of restores that fail or crash; then one undisturbed restore leaves every file entry of the volume with the object, metadata and bytes it had at the start. If a manifest had reached the disk, that last run reports every file restored. |
| CrashTheorem.ExecPlanStates | src-tauri/src/quarantine_service.rs:1260-1303 | Every durable state of `execute_plan` without other processes, whichever calls fail, is one of two: nothing moved and no manifest written, or a valid manifest that reads quarantined for the first k files while exactly the first k or k + 1 are physically in quarantine. The last includes the manifest written for a moved file the run could not find again. |
| CrashTheorem.MidwayRestores | src-tauri/src/quarantine_service.rs:1942-2028 | From any such interrupted state, repeated failing or crashing restores followed by one undisturbed restore bring all files home and mark them all restored. |
| ExecutionCompletes.UndisturbedExecutionCompletes | src-tauri/src/quarantine_service.rs:1211-1322 | An undisturbed execution of a plan over independent files completes if and only if three things hold before it starts: the group is still what was sealed (each member's path leads to the sealed object, unaccompanied, all contents equal, the byte total and the digest as planned), there is room for its directory, and its database numbers are not negative. Then every mover is in quarantine under its own name, the keeper and everything else is where it was, and the manifest says so. |
| ExecutionAnswers.ExecutionAnswersTruly | src-tauri/src/quarantine_service.rs:1211-1322 | What an execution answers under any interference, any failing call and any evidence: every file it counts was moved safely at some point of the run; completed means that evidence and contents were confirmed, that all movers are counted, and that at the end a valid manifest says all are in quarantine; stopped means that the first file not counted was tried and not moved, and that the manifest, if one could be written, records just what is known of it; refused counts nothing and touches no manifest. |
| ExecutionAnswers.ChangedGroupIsRefused | src-tauri/src/quarantine_service.rs:1211-1227 | An execution whose evidence differs from the plan's, or whose group no longer validates to the plan's digest, is refused with no durable change at all. |
| ExecutionAnswers.CountedAreMoved | src-tauri/src/quarantine_service.rs:1264-1303 | Every file the loop counts was safely moved between two states of the run, under any interference. |
| ExecutionAnswers.StoppedIsRecorded | src-tauri/src/quarantine_service.rs:1280-1303 | A loop that stops at a move did try it in some state of the run, it was not moved there, and the last manifest asks for recovery and calls quarantined exactly the files before it, and it too if it is known to lie in quarantine. |
| ExecutionCompletes.GroupValidates | src-tauri/src/quarantine_service.rs:829-885 | The group validates if and only if it is a duplicate group in the state at hand: every member's path leads to its sealed object, unaccompanied, and all hold the same bytes of the sealed sizes; the digest is then that of these bytes. |
| RestorationAnswers.RestorationAnswersTruly | src-tauri/src/quarantine_service.rs:1942-2028 | What a restore answers under any interference and any failing call: refused exactly if the operation cannot be found or opened, and then nothing is touched; every file it counts was seen at home, as the manifest describes it, in some state of the run; done means all are counted and the manifest it leaves says all restored; stopped means the first file not counted was tried and not found or put home, and the manifest says partially restored and records just the counted files. |
| RestorationAnswers.SiteIsFound | src-tauri/src/quarantine_service.rs:1942-1971 | An operation is found if and only if the root stands, the operation's two directories are below it, and its directory holds a valid manifest of that operation. |
| Undoing.FailedMoveIsUndone | src-tauri/src/quarantine_service.rs:1671-1730 | A committed move that was not verified is undone if and only if the rename back works and has somewhere to go: the quarantine name is taken, the original name is vacant and its directory still contained. Then that node has its original name again; without other processes every entry is as before. Otherwise nothing more changes, and it is reported as lying in quarantine exactly if the look for it works and finds that very object there. |
| Undoing.FailedRestoreIsUndone | src-tauri/src/quarantine_service.rs:1732-1761 | A committed restore that was not verified is undone if and only if the rename back works and the original name is taken and the quarantine name vacant. Then that node is in quarantine again; without other processes every entry is as before. Otherwise nothing more changes. |
| Undoing.UnverifiedMoveReturns | src-tauri/src/quarantine_service.rs:1701-1715 | Nobody interferes, the verification fails and the rename back works: the move reports itself rolled back and every entry of the volume is as it was. |
| Undoing.UnverifiedRestoreReturns | src-tauri/src/quarantine_service.rs:1743-1748 | Nobody interferes, the verification fails and the rename back works: the restore reports failure and every entry of the volume is as it was. |
| Undoing.MoveAnswers | src-tauri/src/quarantine_service.rs:1388-1529 | A move reports itself not begun exactly if its rename did not happen, and done exactly if it did and the verification passed. |
| Undoing.RestoreAnswers | src-tauri/src/quarantine_service.rs:2047-2208 | When a restore says that the file is back: exactly if it is home already and matches, or was renamed and verified; with the file in both places or in neither, nothing is done and nothing claimed. |
| Undoing.AccompaniedStays | src-tauri/src/quarantine_service.rs:1148-1209 | A file with a sidecar of any known kind beside it, named after the file or after its stem, or with an attribute file, is not moved: the move ends before anything is changed, whatever else happens. |
| ExecutionCompletes.FirstManifestWritten | src-tauri/src/quarantine_service.rs:1257-1262 | The first manifest of a run over independent files passes the validator and reaches the disk if and only if the database numbers in it are not negative. |
| OperationSetup.SetupSucceeds | src-tauri/src/quarantine_service.rs:2351-2414 | With working calls the private directories are created if and only if the two outer names are free or directories and the operation's name is free. |
| ExecutionCompletes.NextMoves | src-tauri/src/quarantine_service.rs:1388-1529 | In every state in which only earlier members have been moved, the undisturbed move of the next member succeeds: no private directory or earlier move makes it look accompanied, changed or occupied. |
| ExecutionCompletes.PrivateIsNoCompanion | src-tauri/src/quarantine_service.rs:1148-1209 | None of the names the service creates directories under is a companion name of any media file. |
| CrashRecovery.RestoreOpRecoverable | src-tauri/src/quarantine_service.rs:1942-2028 | Whatever call fails in a restore, every state it passes through is one the next restore can start from. |
| CrashRecovery.RestoreOpCompletes | src-tauri/src/quarantine_service.rs:1942-2028 | From any recoverable state an undisturbed restore ends with every file home, every state `restored` and the whole operation reported done, whatever the manifest said before. |
| CrashRecovery.AttemptsRecoverable | src-tauri/src/quarantine_service.rs:1942-2028 | Any number of restore attempts, each failing or cut short anywhere, keeps the operation recoverable. |
| CrashRecovery.ExecFromMidway | src-tauri/src/quarantine_service.rs:1264-1303 | Every state the move loop passes through is midway between two manifest entries, whichever call fails. |
| CrashRecovery.MoveCalm | src-tauri/src/quarantine_service.rs:1388-1529 | Without other processes a move has exactly five outcomes: nothing happened; moved; moved and put back; left in quarantine and reported so; or, only if the look for the file failed, left in quarantine and not reported. |
| Recovery.RestoreFromRecoverable | src-tauri/src/quarantine_service.rs:1972-2003 | The restore loop keeps every intermediate state recoverable, decided by where files physically are and not by what the manifest says. |
| Recovery.RestoreFromCompletes | src-tauri/src/quarantine_service.rs:1972-2020 | The undisturbed restore loop brings home every file from any scattering and records each. |
| OperationSetup.SetupMade | src-tauri/src/quarantine_service.rs:2351-2430 | The private directories created for an operation are reachable by the exact path later checks use, the files directory is new and empty, and nothing else on the volume has changed. |
| OperationSetup.LoopStarts | src-tauri/src/quarantine_service.rs:1236-1263 | Once the first manifest is on disk, it truthfully describes where every file is and where it will go. |
| OperationSetup.ItemsDiffer | src-tauri/src/quarantine_service.rs:1324-1364 | Different members of a valid plan have different original slots and different quarantine slots. |
| Quarantine.MoveContract | src-tauri/src/quarantine_service.rs:1388-1529 | One move with arbitrary other processes before the commit and at the hook and any call failing. Success: the keeper path still binds the identical unchanged keeper object (also if the evidence names the keeper's path twice), the source name is vacant, and the quarantine name holds the very object that was at the source, with the expected digest; that object was the sealed member, unaccompanied and byte for byte equal to the keeper. After a failure past the commit, the committed flag is set exactly if the rollback did not succeed, the look for the object did not fail, and the object sits in the contained files directory. |
| Quarantine.RecheckMayMissQuarantine | src-tauri/src/quarantine_service.rs:1688-1729 | The counterexample to the flag: if verification, the look for the file and the rollback all fail, the move reports nothing in quarantine although the object sits in the contained files directory. |
| Quarantine.KeeperApart | src-tauri/src/quarantine_service.rs:1546-1580 | A verified move cannot have moved the keeper: a new name would have shown in its change time. |
| Quarantine.MoveSteps | src-tauri/src/quarantine_service.rs:1457-1528 | Each durable state change of a move is one exclusive rename of the service or one action of another process. |
| Quarantine.RollbackBringsHome | src-tauri/src/quarantine_service.rs:1671-1730 | A rollback reported successful returns the original object exactly if that object was still under the quarantine name when the rollback ran. |
| Quarantine.RollbackMayReturnImpostor | src-tauri/src/quarantine_service.rs:1671-1730 | The counterexample: another process that swaps the quarantine name at the hook makes a rollback report success although a foreign object went to the user's path. |
| Quarantine.RestoreContract | src-tauri/src/quarantine_service.rs:2047-2208 | A successful restore, under the same interference, means the described object (key, size, digest) is at its original path and its quarantine name is vacant. |
| Quarantine.RestoreSteps | src-tauri/src/quarantine_service.rs:2140-2197 | Each durable state change of a restore is one exclusive rename of the service or one action of another process. |
| Recovery.RestoreHome | src-tauri/src/quarantine_service.rs:2088-2109 | A file already at home is recognised by its identity and content and left alone. |
| Recovery.RestoreAway | src-tauri/src/quarantine_service.rs:2110-2197 | A file in quarantine is put back, or after a failed check left in or returned to quarantine; undisturbed, it is put back. |
| FileSystem.RunConserves | src-tauri/src/quarantine_service.rs:1457-1528 | Between any two moments of any run of exclusive renames, new directories and outside actions, no media object is lost or left without a name, and an unchanged change time means an unchanged object that gained no name. |
| FileSystem.StepEvolves | src-tauri/src/quarantine_service.rs:2858-2902 | One exclusive rename, one new directory or one outside action loses no object and no last name. |
| FileSystem.WalkInjective | src-tauri/src/quarantine_service.rs:2582-2646 | In a directory tree, opening two different component lists never reaches the same directory. |
| FileSystem.WalkSame | src-tauri/src/quarantine_service.rs:2608-2646 | Path resolution depends on directory entries only, so moving files never redirects a path. |
| Sessions.SessionConserves | src-tauri/src/quarantine_service.rs:1211-2208 | Conservation over any sequence of executions, restores, crashes in the middle of either, and outside batches. |
| Sessions.SessionRuns | src-tauri/src/quarantine_service.rs:1211-2208 | Every durable change in such a session is an exclusive rename, a new directory, an outside action, or the replacement of one manifest by a valid one. |
| Sessions.SessionProgress | src-tauri/src/quarantine_service.rs:1264-2020 | Over such a session every manifest on the volume stays valid and reads restored, then quarantined, then planned; a final status is never claimed early; no manifest is lost; and no restored prefix ever shrinks. |
| Sessions.RestoreOpOrderly | src-tauri/src/quarantine_service.rs:1972-2027 | Under arbitrary interference and failures a restore keeps the manifest orderly and never shrinks its restored prefix; when it responds, the files recorded as restored are those recorded before or those verified now, whichever are more. |
| RestoreResponses.RemainingIsExact | src-tauri/src/quarantine_service.rs:2004-2027 | The remaining count of a response is the number of files not recorded as restored if and only if the run verified at least the files recorded as restored before it; otherwise it is more, never less. |
| RestoreResponses.RemainingReliable | src-tauri/src/quarantine_service.rs:1909-1940 | The condition to check beforehand, from the operation listing: every response, whatever fails and whoever interferes, reports the exact count if and only if no file is recorded as restored yet. |
| RestoreResponses.FirstUnreadableOverstates | src-tauri/src/quarantine_service.rs:1972-2027 | If the first file cannot be read, the response calls every file remaining, however many are recorded as restored. |
| RestoreResponses.RemainingMayOverstate | src-tauri/src/quarantine_service.rs:2004-2027 | A concrete volume on which the count is wrong: its one file is recorded as restored, and the response calls one file remaining. |
| Sessions.ExecPlanRuns | src-tauri/src/quarantine_service.rs:1211-1322 | An execution changes the manifest of its own new operation directory and no other. |
| Sessions.RestoreOpRuns | src-tauri/src/quarantine_service.rs:1942-2028 | A restore changes the manifest of the operation it was asked for and no other. |
| ManifestShape.ExecPlanOrderly | src-tauri/src/quarantine_service.rs:1260-1303 | Every manifest an execution leaves, whatever fails and whoever interferes, is valid and reads quarantined, then planned, with nothing restored. |
| ManifestShape.RestoreFromOrderly | src-tauri/src/quarantine_service.rs:1972-2020 | Every manifest a restore loop writes is valid and ordered, the restored prefix only grows, and the files verified by the run are covered by it, except possibly the last when its write failed. |
| ManifestShape.WriteOrderly | src-tauri/src/quarantine_service.rs:2432-2490 | A manifest that reaches the disk is stamped, valid and of the recorded shape. |
| ManifestShape.AfterMoveShape | src-tauri/src/quarantine_service.rs:1280-1299 | Recording the outcome of the i-th move extends the quarantined prefix by at most that file. |
| Manifest.PlannedManifestValid | src-tauri/src/quarantine_service.rs:1324-1364 | The manifest built from a loaded group passes its own validator if and only if the identifiers, digests and clock fit the text codecs and the moved paths are supported and pairwise different; counts, member names, ordinals, sizes and keys need no condition. |
| Manifest.UpdateValid | src-tauri/src/quarantine_service.rs:2210-2288 | A valid manifest with updated states, status and time is valid again if and only if the clock has not gone back behind its creation time. |
| Manifest.LoadEvidence | src-tauri/src/scan_service.rs:5148-5301 | Accepts a group, from any sequence of store pages, if and only if it has 2 to 256 members, all independent, at most 64 GiB, and its keeper among them, and the pages up to the first without a successor are each non-empty and together are exactly the announced records: each at its own place, with exact path bytes, fingerprints and object key. Those records are the evidence. |
| Manifest.TakePage | src-tauri/src/scan_service.rs:5229-5275 | One page is taken exactly if every record on it is acceptable at its place, and then all its records are. |
| Manifest.MoverAt | src-tauri/src/quarantine_service.rs:1264-1271 | The i-th manifest file is the i-th member that is not the keeper; there are at most 255. |
| Manifest.MemberNamesDistinct | src-tauri/src/quarantine_service.rs:1324-1364 | Different member numbers get different quarantine names. |
| Manifest.NamesFromPlan | src-tauri/src/quarantine_service.rs:1324-1364 | No two movers of a plan share a quarantine name. |
| Manifest.ValidateManifest | src-tauri/src/quarantine_service.rs:2210-2288 | The validator accepts exactly the manifests with a well-formed header, 1 to 255 well-formed files, and pairwise different quarantine names and original paths. |
| Manifest.ValidateFiles | src-tauri/src/quarantine_service.rs:2236-2287 | One pass with two sets of names seen decides well-formedness and pairwise difference. |
| ManifestRecords.AcceptsExactlyRecords | src-tauri/src/quarantine_service.rs:2210-2288 | The manifests the validator accepts are exactly the texts of sound operation records: 32-byte identifiers and digests, 64-bit numbers, plain component names, media names and known states; the record can be read back from the manifest. |
| ManifestRecords.RecordsReadBack | src-tauri/src/quarantine_service.rs:2210-2349 | Every sound record, written as a manifest, is accepted under its identifier and reads back as itself. |
| ManifestRecords.MediaPathExact | src-tauri/src/quarantine_service.rs:1098-1146 | The accepted media paths are exactly the joined routes of at most 1024 plain component names whose last is a stem and one of the media extensions in any letter case and whose first is not the quarantine directory. |
| ManifestRecords.PlanReadsBack | src-tauri/src/quarantine_service.rs:1324-1364 | The manifest made from a plan reads back as that plan: identifier, run, group, keeper, keys, digests, both times and the number of files. |
| ManifestRecords.PlannedFileReadsBack | src-tauri/src/quarantine_service.rs:1324-1364 | Its i-th entry reads back as what the store's record of the i-th member other than the keeper says: observation, path, size and object key, under the member's own quarantine name, planned. |
| Manifest.ShapeCounts | src-tauri/src/quarantine_service.rs:1909-1940 | In every manifest a run leaves, counting states gives the lengths of the two leading blocks. |
| Manifest.Tally | src-tauri/src/quarantine_service.rs:1909-1940 | The counting loop returns exactly the numbers of quarantined and restored files and the byte total, and refuses exactly when the total overflows 64 bits. |
| Manifest.DescribeOperation | src-tauri/src/quarantine_service.rs:1909-1940 | A listed operation reports exactly the progress its manifest records; invalid manifests and overflowing totals are refused. |
| Recovery.WriteSucceeds | src-tauri/src/quarantine_service.rs:2432-2490 | With a clock that never reads less than the creation time, no manifest either loop writes is refused by the validator. |
| Text.CanonicalU64Exact | src-tauri/src/quarantine_service.rs:2306-2320 | The number codec accepts exactly the decimal renderings of 64-bit numbers and reads back the number rendered. |
| Text.Hex32Exact | src-tauri/src/quarantine_service.rs:2322-2349 | The 32-byte hexadecimal codec is a bijection between 32-byte values and the strings it accepts. |
| Text.HexInjective | src-tauri/src/quarantine_service.rs:721-729 | Different byte strings have different hexadecimal texts. |
| Text.DecimalInjective | src-tauri/src/quarantine_service.rs:1324-1364 | Different numbers have different decimal texts. |
| Text.Padded6Injective | src-tauri/src/quarantine_service.rs:1324-1364 | Zero-padding to six digits keeps numbers apart, also beyond six digits. |
| Text.EncodeHex | src-tauri/src/quarantine_service.rs:721-729 | The encoding loop computes the text whose properties are proved beside it. |
| Text.ParseHex32 | src-tauri/src/quarantine_service.rs:2322-2349 | The decoding loop accepts exactly 64 lower-case digits and returns the value they denote. |
| Paths.JoinSplit | src-tauri/src/quarantine_service.rs:2582-2606 | Splitting a raw path at slashes loses nothing. |
| Paths.SplitRelativeInjective | src-tauri/src/quarantine_service.rs:2582-2606 | Two accepted raw paths with the same components are the same path. |
| Paths.ResolveInjective | src-tauri/src/quarantine_service.rs:2608-2646 | In a directory tree different media paths denote different entries. |
| Paths.ResolveSame | src-tauri/src/quarantine_service.rs:2608-2646 | States with the same directory entries resolve every media path alike. |
| QuarantineService.Volume.RenameExclusive | src-tauri/src/quarantine_service.rs:2858-2902 | The primitive makes exactly one exclusive rename durable, or nothing. |
| QuarantineService.Volume.Interfere | src-tauri/src/quarantine_service.rs:1464-1464 | The volume passes through exactly the states of the outside batch. |
| QuarantineService.Volume.WriteManifest | src-tauri/src/quarantine_service.rs:2432-2490 | Stamps, validates and replaces one manifest; reports success exactly if it was replaced and made durable; a failed sync leaves the new manifest. |
| QuarantineService.Volume.RollBackMove | src-tauri/src/quarantine_service.rs:1671-1730 | The rollback passes through exactly the specified states and reports the specified outcome. |
| QuarantineService.Volume.CommitMember | src-tauri/src/quarantine_service.rs:1457-1529 | Commit, hook, verification and rollback pass through exactly the specified states. |
| QuarantineService.Volume.MoveOneMember | src-tauri/src/quarantine_service.rs:1388-1529 | One whole move equals its specification, state by state. |
| QuarantineService.Volume.MoveAndRecord | src-tauri/src/quarantine_service.rs:1264-1299 | One turn of the move loop equals one unfolding of the specified run. |
| QuarantineService.Volume.MoveMembers | src-tauri/src/quarantine_service.rs:1264-1303 | The move loop equals the specified run: same durable states in order, same count, same end. |
| QuarantineService.Volume.CreateOperation | src-tauri/src/quarantine_service.rs:2351-2430 | Creating the private directories passes through exactly the specified states. |
| QuarantineService.Volume.ExecutePlan | src-tauri/src/quarantine_service.rs:1211-1322 | The whole execution equals its specification; every theorem above about that specification is about this method. |
| QuarantineService.Volume.CommitRestoreOf | src-tauri/src/quarantine_service.rs:2140-2197 | Commit, hook, verification and rollback of a restore equal their specification. |
| QuarantineService.Volume.BringBack | src-tauri/src/quarantine_service.rs:1732-1761 | A restore's rollback is one exclusive rename back, or nothing. |
| QuarantineService.Volume.RestoreOneFile | src-tauri/src/quarantine_service.rs:2047-2208 | One whole restore equals its specification, state by state. |
| QuarantineService.Volume.RestoreAndRecord | src-tauri/src/quarantine_service.rs:1972-2003 | One turn of the restore loop equals one unfolding of the specified run. |
| QuarantineService.Volume.RestoreFiles | src-tauri/src/quarantine_service.rs:1972-2020 | The restore loop equals the specified run: same durable states, same count, same end. |
| QuarantineService.Volume.RestoreOperation | src-tauri/src/quarantine_service.rs:1942-2028 | The whole restore equals its specification; every theorem above about that specification is about this method. |
| QuarantineService.CheckGroup | src-tauri/src/quarantine_service.rs:829-885 | The two validation loops return a digest exactly if every member is sealed, supported and unaccompanied, all contents equal the keeper's, and the byte total matches; it is then the digest of that content. |
| Compare.CompareFilesExact | crates/guiying-core/src/compare.rs:67-154 | An Ok answer is true of both files at every instant between the right open and the left recheck, whatever changes meanwhile: identical exactly if the contents are equal, with the bytes compared as for whole contents; each path led to its object before and after. No cancellation seen is overlooked, one is looked for before anything is opened and before every buffer, and only one that was seen ends in the cancelled answer. In a world that does not change, with no failing call and no cancel, the answer is exact: the comparison of the two contents, or the reason why the first file that cannot be opened as recorded cannot. |
| Compare.CompareOpen | crates/guiying-core/src/compare.rs:89-154 | Comparing and rechecking two files just opened linearises between that moment and the left recheck. |
| Compare.CompareContents | crates/guiying-core/src/compare.rs:98-145 | For every buffer size and every pattern of short, interrupted and repeated reads, the chunk loop's verdict is that of comparing the whole contents, as long as neither changed after it was opened. |
| Compare.CompareChunk | crates/guiying-core/src/compare.rs:98-140 | One chunk of both files either extends what is known to agree or settles the answer at its first difference, through short and interrupted reads. |
| Compare.VerdictLinearises | crates/guiying-core/src/compare.rs:147-153 | Equal snapshots before and after turn the conditional verdict into a fact about every instant of the window. |
| Reading.SnapshotsBracket | crates/guiying-core/src/file_io.rs:151-189 | If every content change renews the change time, equal change times at two instants mean the same content at every instant between them. |
| Compare.FirstDifferenceIsPrefix | crates/guiying-core/src/compare.rs:126-137 | The position counted at the first difference is the length of the common prefix plus one. |
| Compare.Position | crates/guiying-core/src/compare.rs:126-131 | The scan finds the first position where the buffers differ. |
| Compare.ChunkAgrees | crates/guiying-core/src/compare.rs:112-140 | Equal chunks extend the agreed prefix; a difference inside a chunk settles the comparison. |
| Compare.WholeAgrees | crates/guiying-core/src/compare.rs:142-145 | Agreement up to the recorded length and the end of both files there means equal contents. |
| Reading.ReadExact | crates/guiying-core/src/compare.rs:156-181 | Fills the buffer with exactly the bytes at the offset, through short and interrupted reads, or reports an end of file that is really there. |
| Reading.EnsureEof | crates/guiying-core/src/compare.rs:183-200 | Succeeds only at the end of the file, retrying interrupted probes. |
| Compare.OpenByPath | crates/guiying-core/src/file_io.rs:197-220 | A stable open returns an object the path led to, with the snapshot it has now, matching the expected one. |
| Compare.OpenRelative | crates/guiying-core/src/directory_io.rs:490-534 | The component-by-component open returns an object its last component led to, matching the expected snapshot. |
| Compare.OpenParents | crates/guiying-core/src/directory_io.rs:490-519 | In a world that does not change, the no-follow chain reaches the directory the components denote. |
| Compare.Open | crates/guiying-core/src/directory_io.rs:97-122 | Each kind of access opens what it denotes; in a world that does not change, with working calls, exactly if that is a regular file that still matches what was recorded, and otherwise the refusal names what is wrong. |
| Compare.Unchanged | crates/guiying-core/src/directory_io.rs:124-138 | A positive recheck means the object had the earlier snapshot at the instant of the descriptor check and the path still led to it. |
| Compare.CompareExactReaders | src-tauri/src/quarantine_service.rs:1044-1096 | For two files that do not change meanwhile: accepts exactly two equal contents of the expected size and returns the digest of either; refuses all others unless the kernel failed or interrupted a call, and the reason given is true: one is shorter, one is longer, or they differ. |
| Compare.DigestExactFile | src-tauri/src/quarantine_service.rs:1801-1844 | For a file that does not change meanwhile: the digest of the whole content exactly if it has the expected size. |
| Compare.ProbeEnd | src-tauri/src/quarantine_service.rs:1078-1094 | The end probe, which is not retried, tells the end of the file or fails. |
| Jpeg.StreamIsScanned | crates/guiying-metadata/src/jpeg.rs:24-130 | On every well-formed marker stream (fill bytes, standalone markers, segments) within the limit, TIFF is handed exactly the Exif APP1 segments before SOS or EOI, in order, and the outcome is exactly what TIFF makes of them. |
| Jpeg.FinishesExactlyOnStreams | crates/guiying-metadata/src/jpeg.rs:24-130 | With readable bytes and no fatal TIFF failure, the scan ends without an issue of its own if and only if the bytes are a well-formed marker stream within the segment limit. |
| Jpeg.PrefixIsKept | crates/guiying-metadata/src/jpeg.rs:10-22 | Truncating or corrupting a stream after some complete segments keeps all their results, in order, unless the extraction fails for a reason unrelated to structure. |
| Jpeg.BrokenFileIsKept | crates/guiying-metadata/src/jpeg.rs:10-130 | A readable file never fails the extraction, however it is broken, unless it begins with as many complete segments as are allowed: what was found before the break is kept, and the break is one more issue. |
| Jpeg.TooManySegments | crates/guiying-metadata/src/jpeg.rs:58-70 | A file with one marker more than the segments allowed fails the whole extraction at that marker. |
| Jpeg.UnreadableKeepsNothing | crates/guiying-metadata/src/jpeg.rs:10-130 | A read that fails after some complete segments fails the whole extraction, and nothing is kept. |
| Jpeg.RangesOrdered | crates/guiying-metadata/src/jpeg.rs:44-124 | On every byte string the ranges handed to TIFF are in bounds and their marker offsets strictly increase. |
| Jpeg.ScanPieces | crates/guiying-metadata/src/jpeg.rs:35-128 | Complete segments are scanned first and contribute first, whatever follows them. |
| Jpeg.ScanPiece | crates/guiying-metadata/src/jpeg.rs:44-124 | One complete marker or segment is crossed exactly, and contributes exactly its own Exif payload. |
| Jpeg.FinishedIsStream | crates/guiying-metadata/src/jpeg.rs:35-128 | A scan that finishes has crossed a well-formed stream: the pieces are produced from the bytes. |
| Jpeg.Scanner.FindCode | crates/guiying-metadata/src/jpeg.rs:40-57 | The inner loop skips fill bytes to the marker code, or reports where the stream breaks. |
| Jpeg.Scanner.VisitSegment | crates/guiying-metadata/src/jpeg.rs:92-121 | A malformed embedded TIFF is kept to its own segment; other TIFF failures end the extraction. |
| Jpeg.Scanner.ScanMarker | crates/guiying-metadata/src/jpeg.rs:36-126 | One turn of the scan advances past one marker and keeps the meaning of the rest. |
| Jpeg.Scanner.ScanSegments | crates/guiying-metadata/src/jpeg.rs:24-130 | The nested loops terminate on every byte string and compute the specified report. |
| Jpeg.Parse | crates/guiying-metadata/src/jpeg.rs:10-22 | A structural end keeps everything found before it plus its own issue; any other failure keeps nothing. |
| ExportPublication.Export.WriteHistoryExport | src-tauri/src/export_target.rs:1089-1197 | Undisturbed, the answer is exact: it succeeds, committed, if and only if the target name and one of eight temporary names are vacant, the temporary name is not the target's, and the snapshot can be exported; otherwise it fails for the first of these reasons; and the directory gains the target name, leading to the new file, or nothing. Under any disturbance: success exactly if the gate was committed; then exactly one link was made, of the temporary name to a vacant target name, nobody had cancelled, the file holds the whole export within the limits, the artifact reports its bytes, its records and the digest of its stream, and unless the outcome is uncertain the target name was seen to lead to that file. Failure: no link was made, and an owned temporary name no longer leads to our file unless the kernel refused. An export cancelled beforehand is refused as cancelled. A file created but never owned is removed by nobody; undisturbed, it and a file whose removal failed are still there. |
| ExportPublication.ExportFailsExactly | src-tauri/src/export_target.rs:1110-1178 | A snapshot can be exported if and only if it delivers as many records as announced, no more than allowed, and the whole export keeps the byte limit. |
| ExportPublication.Export.ExportThrough | src-tauri/src/export_target.rs:1109-1197 | Writing, publishing and dropping an owned temporary file: undisturbed it publishes if and only if the snapshot can be exported and the target is vacant, and otherwise leaves the directory without the temporary name. |
| ExportPublication.Export.WriteRecords | src-tauri/src/export_target.rs:1110-1178 | Success means the temporary file holds the whole export of every batch in order, as many records as announced, within the record and byte limits, and the result describes it with its digest. Undisturbed it succeeds if and only if the snapshot can be exported, and otherwise fails for the first reason. |
| ExportPublication.LeavesFileBehind | src-tauri/src/export_target.rs:237-267 | A run in which the new temporary file cannot be secured: the export fails and the file stays under its name. |
| ExportPublication.GateAnswersOnce | src-tauri/src/export_target.rs:136-168 | Over every interleaving of cancels and commits at most one call gets a positive answer: one commit at most, one successful cancel at most, never both. |
| ExportPublication.GateRemembers | src-tauri/src/export_target.rs:136-168 | After a positive answer the gate stays cancelled or committed, whichever it was. |
| ExportPublication.ExportCancellation.Cancel | src-tauri/src/export_target.rs:136-145 | Answers true exactly for the first cancel before any commit. |
| ExportPublication.Export.CommitLink | src-tauri/src/export_target.rs:151-168 | Answers as the gate specifies for a commit request; commits exactly if the link was made under the lock with the gate open; otherwise the gate and the directory are unchanged. |
| ExportPublication.Export.LinkTarget | src-tauri/src/export_target.rs:269-287 | Links only a vacant target name, to the verified temporary name, or does nothing; undisturbed, it links exactly a vacant target. |
| ExportPublication.Export.CreateTemp | src-tauri/src/export_target.rs:237-267 | An owned temporary file was created by this call under its own name; undisturbed, under the first vacant of eight candidate names, and refused exactly if the target or all candidates are taken. A refusal tells whether it leaves a created file behind, which happens whenever the first creation succeeds and securing it fails. |
| ExportPublication.Export.DropTemp | src-tauri/src/export_target.rs:469-480 | After the drop the temporary name does not lead to our file, unless the kernel refused. |
| ExportPublication.Export.FinishCommitted | src-tauri/src/export_target.rs:289-310 | A clean commit or a warning is reported only if the link was verified and the target name leads to this file at the end; a clean commit only if the temporary name was removed. Touches nothing but that name. |
| ExportPublication.Export.Publish | src-tauri/src/export_target.rs:1181-1197 | The commit and its aftermath leave exactly one link, or nothing; undisturbed and not cancelled, they end committed exactly if the target is vacant. |
| ExportPublication.TargetDirectory.Link | src-tauri/src/export_target.rs:683-704 | Never replaces an existing name. |
| ExportPublication.PublicationOutcome | src-tauri/src/export_target.rs:314-335 | Committed exactly if everything checked out; uncertain exactly if either identity check failed. |
| ExportPublication.LinkKept | src-tauri/src/export_target.rs:458-480 | Removing the temporary name afterwards leaves the one link the one link. |
| Csv.RowsReadBack | src-tauri/src/export_target.rs:989-1015 | Reading any printed non-empty rows back by section 2 of RFC 4180 gives exactly those rows, for arbitrary bytes in every field. |
| Csv.RowReadsBack | src-tauri/src/export_target.rs:989-997 | One printed row reads back as its fields whatever follows it. |
| Csv.FieldReadsBack | src-tauri/src/export_target.rs:999-1015 | One printed field up to a separator reads back as the field, quotes, commas and line breaks included. |
| Csv.ReadsBackExactly | src-tauri/src/export_target.rs:989-997 | Printed rows read back as themselves if and only if every row has a field. |
| ExportDigest.DigestStreamInjective | src-tauri/src/export_target.rs:829-836 | Two finished exports feed the hasher the same bytes only if they agree on scope, projection and every record, in order. |
| ExportDigest.PrefixedSplits | src-tauri/src/export_target.rs:1047-1050 | Length-prefixed values can be told apart whatever follows. |
| ExportDigest.RecordStreamSplits | src-tauri/src/export_target.rs:885-892 | The stream of a known number of records determines each record. |
| ExportDigest.LittleEndianInjective | src-tauri/src/export_target.rs:1047-1050 | Little-endian numbers of a fixed width are told apart. |
| ExportEncoder.Encoder.WriteManifest | src-tauri/src/export_target.rs:847-883 | Starts the file with the manifest in either format; with a working file exactly if it fits the limit. |
| ExportEncoder.Encoder.WriteRecord | src-tauri/src/export_target.rs:885-921 | Appends exactly this record to the file and to the digest stream, refuses exactly when all expected records are written, and with a working file fails otherwise exactly when the record does not fit the limit. |
| ExportEncoder.Encoder.Finish | src-tauri/src/export_target.rs:923-964 | Only with every expected record, and with a working file exactly if the whole export fits: the file holds the whole export with the records in order, the reported bytes are exactly those the file took and within the limit, and the digest is that of the format-independent stream. |
| ExportEncoder.RecordsReadBack | src-tauri/src/export_target.rs:885-964 | Reading a finished CSV export back gives the header, the manifest, one row for each record, in order, with its exact bytes and its own number, and the integrity row. |
| ExportEncoder.JsonIsDocument | src-tauri/src/export_target.rs:847-964 | A finished JSON export is one object of the manifest, the array of the records in order, and the integrity object, as RFC 8259 writes them. |
| ExportEncoder.CountingWriter.Write | src-tauri/src/export_target.rs:754-776 | The count is what the file took and never over the limit; a write that would exceed it is refused and remembered. |
| ExportEncoder.CountingWriter.WriteAll | src-tauri/src/export_target.rs:970-981 | Through any short and interrupted writes all bytes arrive or a prefix of them; with a working file, exactly if they fit the limit. |
| ExportEncoder.WriteCsvField | src-tauri/src/export_target.rs:999-1015 | Writes exactly the printed form of the field; with a working file exactly if it fits the limit. |
| ExportEncoder.WriteCsvRow | src-tauri/src/export_target.rs:989-997 | Writes exactly the printed form of the row; with a working file exactly if it fits the limit. |
| ExportEncoder.NextRecord | src-tauri/src/export_target.rs:885-921 | One more record adds exactly a separator and the record, or one more row. |
| JobControl.ReachableStatesAgree | src-tauri/src/scan_service.rs:2589-2718 | In every reachable interleaving: with the registry lock free, cancelling is shown exactly if the worker has been told to cancel, paused implies a pause directive, pausing a pause directive or finished enumeration; later stages show running or cancelling only; a sleeping worker has a pause directive; a cancelled enumeration has a cancel directive. |
| JobControl.RunsKeepInvariant | src-tauri/src/scan_service.rs:1199-1273 | The inductive invariant behind it holds along every run. |
| JobControl.BlockedWorkerCanGoOn | src-tauri/src/scan_service.rs:1259-1273 | Whenever the worker is blocked and no command is under way, resume and cancel are both accepted and each ends its sleep and leads it to the right place. |
| JobControl.NeverStuck | src-tauri/src/scan_service.rs:3511-3560 | While a job is active something can happen without a user, or the worker is blocked in a pause that is shown as paused. |
| JobControl.CancelledJobEnds | src-tauri/src/scan_service.rs:3511-3592 | From wherever it is, a cancelled worker reaches the end of the job by at most seven steps of its own. |
| JobControl.CancellationSticks | src-tauri/src/scan_service.rs:2851-2862 | Nothing takes a cancellation back, neither the directive nor the phase shown. |
| JobFlows.PauseLeadsToSleep | src-tauri/src/scan_service.rs:2615-2668 | In every reachable state that shows a running enumeration which can still be paused, with no command under way, a pause is accepted and shown; and from the traversal the worker then reaches its sleep, shown as paused, by its own steps. |
| JobFlows.ResumeLeadsToWork | src-tauri/src/scan_service.rs:2670-2718 | In every reachable state with a sleeping worker and no command under way, a resume is accepted, and the worker gets back to the traversal, shown as running, by its own steps. |
| JobFlows.CancelLeadsToTheEnd | src-tauri/src/scan_service.rs:2589-2613 | In every reachable state of an active job with no command under way, a cancel is accepted and shown, and from there the worker ends the job by its own steps. |
| JobFlows.UndisturbedScanFinishes | src-tauri/src/scan_service.rs:3511-3592 | An undisturbed scan enumerates everything, closes the enumeration, shows its stages in order and ends. |
| JobFlows.StagesStayInOrder | src-tauri/src/scan_service.rs:2864-2871 | In every reachable state the stage shown is the one before the next the worker will report: no report goes back or leaves one out. |
| JobFlows.LatePauseIsLifted | src-tauri/src/scan_service.rs:1223-1231 | A pause that comes after the traversal ended and before the enumeration was closed is lifted, and the job goes on to its next stage, shown as running. |
| JobFlows.FailedWorkerEnds | src-tauri/src/scan_service.rs:3511-3592 | A worker that fails by itself ends the job as well. |
| JobControl.ScanWorkerControl.RequestPause | src-tauri/src/scan_service.rs:1212-1221 | Accepts a pause exactly while enumeration is active and nothing was cancelled. |
| JobControl.ScanWorkerControl.FinishEnumeration | src-tauri/src/scan_service.rs:1223-1231 | Ends the possibility of pausing and lifts a pending pause. |
| JobControl.ScanWorkerControl.RequestResume | src-tauri/src/scan_service.rs:1233-1240 | Lifts a pause and wakes the worker. |
| JobControl.ScanWorkerControl.RequestCancel | src-tauri/src/scan_service.rs:1242-1249 | Cancels, wakes the worker, and tells whether this was new. |
| JobControl.ScanJobs.PauseForOwner | src-tauri/src/scan_service.rs:2615-2668 | A new pause is accepted exactly for the owner of the running job in its enumeration while that can still be paused and nothing was cancelled; pausing again is accepted without effect; everything else is refused for the reason it fails, without effect. An accepted pause shows pausing with the worker told to pause, and equals its two critical sections in a row. |
| JobControl.ScanJobs.ResumeForOwner | src-tauri/src/scan_service.rs:2670-2718 | A resume takes effect exactly for the owner of a job shown as paused; resuming a running or resuming job is accepted without effect; everything else is refused for the reason it fails. It shows resuming, lifts the pause and wakes the worker, and equals its two critical sections in a row. |
| JobControl.ScanJobs.CancelJob | src-tauri/src/scan_service.rs:2589-2613 | An active job is cancelled whatever its phase: shown as cancelling, the worker told and woken; the answer tells whether this was new. A finished or unknown job is left alone. |
| JobControl.ScanJobs.RecordWorkerPhase | src-tauri/src/scan_service.rs:2851-2862 | A worker report never overwrites cancelling. |
| ResultReads.RegistryStaysSound | src-tauri/src/scan_service.rs:1414-1687 | In every reachable state at most 32 grants, 8 an owner, one for each owner and run, all with different generations; and a grant is in flight exactly if one undischarged lease obligation, a live lease or a deferred release, is for it. |
| ResultReads.FinishedReadWasCurrent | src-tauri/src/scan_service.rs:1805-1869 | A read that finishes successfully had its grant in place at every moment since it began and its window open: no close, reopen, expiry or clean-up in between. |
| ResultReads.GoneForGood | src-tauri/src/scan_service.rs:1639-1687 | A generation that is gone never comes back, even under the same random token. |
| ResultReads.ClosedWindowGetsNothing | src-tauri/src/scan_service.rs:1404-1412 | Once a window is closed nothing is opened, issued, read, snapshotted or finished for it. |
| ResultAnswers.LeaseIsOfItsWindow | src-tauri/src/scan_service.rs:1743-1799 | Whose a lease is, in every reachable state: it was begun by the very window its grant had been issued to, before that grant expired, and describes that grant. |
| ResultAnswers.EverythingHasOrigin | src-tauri/src/scan_service.rs:1551-1799 | Every grant of a reachable registry was issued to its window by a step of the run, and every lease was begun by its own window. |
| ResultAnswers.BeginReadExactly | src-tauri/src/scan_service.rs:1743-1799 | A lease is taken if and only if the token is granted to this very window, the window is open in the grant's epoch, the grant has not expired and is not in flight; it describes the grant, which alone changes. Another window's attempt changes nothing; a token found expired by its own window is gone. |
| ResultAnswers.FinishReadExactly | src-tauri/src/scan_service.rs:1805-1869 | A lease is finished if and only if its grant is still there, unexpired, the same in every respect, in flight, and its window open; then it is free again. |
| ResultAnswers.BeginOpenExactly | src-tauri/src/scan_service.rs:1414-1494 | An open is admitted if and only if the window is open, the run real, no open of that run pending for the window, and there is room in the registry and in the window's share, unexpired grants and all pending opens counted and the window's grants of this run not. |
| ResultAnswers.IssueExactly | src-tauri/src/scan_service.rs:1551-1687 | A token is issued if and only if the open is pending for an open window, there is room, and a fresh token is drawn; it replaces the window's unexpired grants of that run, uses up the open, and has a new number and thirty minutes. |
| ResultAnswers.SnapshotExactly | src-tauri/src/scan_service.rs:1939-1977 | An export binding is handed out under the conditions of a lease, but whether or not a read is going on, and takes nothing. |
| ResultAnswers.CloseReadExactly | src-tauri/src/scan_service.rs:1871-1891 | Closing is refused exactly for another window's token; otherwise the token is gone, and the answer tells whether it was there. |
| ResultAnswers.ReleaseExactly | src-tauri/src/scan_service.rs:1064-1075 | Dropping a lease frees exactly the grant under its token with its generation and epoch. |
| ResultAnswers.AdmittedAndDropped | src-tauri/src/scan_service.rs:988-1002 | An open that was admitted and then dropped leaves the pending opens as they were, so that the run can be opened again. |
| ResultAnswers.RevokeLeaseExactly | src-tauri/src/scan_service.rs:1893-1904 | A lease's grant is revoked exactly if it is still the one the lease was for. |
| ResultAnswers.WindowCloses | src-tauri/src/scan_service.rs:1404-1412 | A closed window is closed for good, in an epoch that none of its earlier grants and opens belongs to while epochs last; removing its reads leaves it none and the others theirs. |
| ResultAdmission.AdmittedIsIssued | src-tauri/src/scan_service.rs:1414-1687 | The promise of admission: whatever happens between admission and issue, an open is never refused for lack of room as long as no reopen of a granted run is admitted in between. |
| ResultAdmission.RefusedWithoutPlace | src-tauri/src/scan_service.rs:1602-1637 | A live pending open is refused for lack of room if and only if the other grants and opens, its own replaced grants not counted, fill the registry or its owner's share. |
| ResultAdmission.AdmissionGivesPlace | src-tauri/src/scan_service.rs:1431-1485 | Admission reserves a place in the registry and in the owner's share. |
| ResultAdmission.StepKeepsPlace | src-tauri/src/scan_service.rs:1414-1687 | Every critical section but the admitted reopen of a granted run leaves the place of a pending open alone. |
| ResultAdmission.AdmissionIsNoPromise | src-tauri/src/scan_service.rs:1449-1480 | The failing input, reached from the empty registry: after 31 grants a new open is admitted, then a reopen of a granted run, and then the first cannot be issued. |
| ResultAdmission.FillRun | src-tauri/src/scan_service.rs:1414-1687 | The run that reaches it: up to 31 opens by four windows are all admitted and issued. |
| ResultReads.StepFlies | src-tauri/src/scan_service.rs:1031-1075 | Every critical section keeps single flight: a stale lease never clears a newer grant. |
| ResultReads.ReleaseFlies | src-tauri/src/scan_service.rs:1031-1075 | Releasing a dropped lease and forgetting its obligation keeps single flight. |
| ResultReads.FinishFlies | src-tauri/src/scan_service.rs:1805-1869 | Finishing a lease and forgetting its obligation keeps single flight, on every error path too. |
| ResultReads.BegunFlies | src-tauri/src/scan_service.rs:1743-1799 | Taking a free grant and adding its obligation keeps single flight. |
| ResultReads.IssueSound | src-tauri/src/scan_service.rs:1551-1687 | Issuing keeps the capacity and numbering rules on every path. |
| ResultReads.IssueCounts | src-tauri/src/scan_service.rs:1599-1660 | The effect of issuing on the totals: the replaced grants go, one comes, no other owner is affected. |
| ResultReads.OpenSound | src-tauri/src/scan_service.rs:1414-1494 | Admitting an open keeps the capacity and numbering rules. |
| ResultReads.StepsAge | src-tauri/src/scan_service.rs:1404-1412 | Generations only grow and tombstones only accumulate. |
| ResultReadService.ResultReadRegistry.BeginResultOpen | src-tauri/src/scan_service.rs:1414-1494 | Equals the specified critical section, result and new registry. |
| ResultReadService.ResultReadRegistry.IssueResultRead | src-tauri/src/scan_service.rs:1551-1687 | Equals the specified critical section, drawing tokens until one is free. |
| ResultReadService.ResultReadRegistry.BeginResultRead | src-tauri/src/scan_service.rs:1743-1799 | Equals the specified critical section. |
| ResultReadService.ResultReadRegistry.FinishResultRead | src-tauri/src/scan_service.rs:1805-1869 | Equals the specified critical section on every path. |
| ResultReadService.ResultReadRegistry.ReleaseInFlight | src-tauri/src/scan_service.rs:1064-1075 | Clears the flag of exactly the generation released. |
| ResultReadService.ResultReadRegistry.CloseResultRead | src-tauri/src/scan_service.rs:1871-1891 | Equals the specified critical section. |
| ResultReadService.ResultReadRegistry.MarkOwnerClosed | src-tauri/src/scan_service.rs:1404-1412 | Equals the specified critical section. |
| ResultReadService.ResultReadRegistry.RemoveForOwner | src-tauri/src/scan_service.rs:1911-1919 | Equals the specified critical section. |
| ResultReadService.ResultReadRegistry.DropOpenPermit | src-tauri/src/scan_service.rs:988-1002 | Equals the specified critical section. |
| ResultReadService.ResultReadRegistry.RevokeReadLease | src-tauri/src/scan_service.rs:1893-1904 | Equals the specified critical section. |
| ResultReadService.ResultReadRegistry.SnapshotExportBinding | src-tauri/src/scan_service.rs:1939-1977 | Equals the specified critical section. |
| Activities.WindowCloseIsFinal | src-tauri/src/scan_service.rs:3724-3743 | Whatever was half finished, and whatever happens between the two short locks of a window close and afterwards: no target is linked for it any more, it keeps no export grant, every export it still runs is cancelled or was already committed, and no result token is opened, issued, read or snapshotted for it. |
| ActivityFlows.CancelIsFinal | src-tauri/src/scan_service.rs:2246-2287 | After an accepted cancel of a granted or a running export, in any reachable state, no target is linked for that export in any later state, whatever happens in between. |
| ActivityFlows.RunStaysStopped | src-tauri/src/export_target.rs:136-168 | An export whose gate was cancelled or committed stays so over every run. |
| ActivityFlows.CancelExactly | src-tauri/src/scan_service.rs:2246-2287 | A window cancels its own granted export, and its own running export while it is open, and no other; the grant is gone, and exactly that export's gate, unless committed, is cancelled. |
| ActivityFlows.RevokeExactly | src-tauri/src/scan_service.rs:2289-2331 | Revoking by window or by result token stops every export it covers, granted or running, removes its grants and pending selections, and leaves all others alone. |
| ActivityFlows.ExportStartsExactly | src-tauri/src/scan_service.rs:2152-2244 | A granted export starts if and only if neither scan nor mutation is going on, the grant is this window's, unexpired and not cancelled, and the result token it is bound to is current; then it runs, holds the lease, and nothing else changes. |
| ActivityFlows.TargetIsGranted | src-tauri/src/scan_service.rs:1993-2150 | A window that shows a result, while nothing excludes exports and a slot is free for it, gets its target granted: bound to that result, with a new generation and five minutes. |
| ActivityFlows.InsertExactly | src-tauri/src/scan_service.rs:2017-2040 | A selection takes a slot if and only if fewer than four exports are selected, granted or running, expired grants not counted, and none of its window; otherwise it is gone. |
| ActivityFlows.ValidateExactly | src-tauri/src/scan_service.rs:1979-1991 | A pending selection is validated if and only if its result token is still bound as it was when the selection began. |
| ActivityFlows.CheckExactly | src-tauri/src/scan_service.rs:2073-2081 | A validated selection is checked if and only if no scan and no mutation is going on. |
| ActivityFlows.GrantExactly | src-tauri/src/scan_service.rs:2095-2145 | A checked selection is granted if and only if its pending entry is still its own and a free token is drawn; the grant is bound to what was shown, with a new number and an open gate. |
| ActivityFlows.LinkExactly | src-tauri/src/scan_service.rs:2188-2224 | A target is linked only for a running export that is neither cancelled nor committed, which is then committed. |
| ActivityFlows.ScanStartsExactly | src-tauri/src/scan_service.rs:2565-2587 | A scan starts if and only if no scan, no export and no mutation is going on, and that is all that changes. |
| ActivityFlows.MutationStartsExactly | src-tauri/src/scan_service.rs:2363-2402 | A mutation is permitted if and only if no scan, no export and no mutation is going on; dropping the permit undoes it. |
| Activities.ActivitiesExclude | src-tauri/src/scan_service.rs:2152-2244 | In every reachable state at most one of scan, running exports and mutation is going on, and at most one mutation permit is out, although ends happen without the registry lock. |
| Activities.ExportsWithinCapacity | src-tauri/src/scan_service.rs:1993-2048 | In every reachable state at most four exports are selected, granted or running, no two of one window. |
| Activities.RunsKeepOrder | src-tauri/src/scan_service.rs:1993-2402 | Both inductive invariants hold along every run. |
| Activities.StepExclusive | src-tauri/src/scan_service.rs:2333-2402 | Every critical section keeps mutual exclusion and what the lock holder has already checked. |
| Activities.MutationExclusive | src-tauri/src/scan_service.rs:747-757 | Beginning and dropping a mutation permit keep the gate and the permits in step. |
| Activities.StepOrderly | src-tauri/src/scan_service.rs:1993-2331 | Every critical section keeps exports apart, within capacity, and closed windows closed. |
| Activities.ClosedWindowNeverLinks | src-tauri/src/export_target.rs:136-168 | After a window's exports have been revoked behind its tombstone, no run links a target for it. |
| Activities.WindowRevoked | src-tauri/src/scan_service.rs:2289-2309 | Revoking behind the tombstone stops every run, removes every grant, and strands every selection already validated. |
| Activities.RevokeStepOrderly | src-tauri/src/scan_service.rs:2246-2331 | Cancelling and revoking keep every invariant. |
| Activities.SelectOrderly | src-tauri/src/scan_service.rs:1993-2150 | Every stage of a target selection keeps every invariant; a validation cannot pass for a closed window. |
| Activities.PromotedOrderly | src-tauri/src/scan_service.rs:2188-2224 | Turning a grant into a running export under the held lock keeps every invariant. |
| Activities.GrantedOrderly | src-tauri/src/scan_service.rs:2095-2145 | Turning a pending selection into a grant keeps every invariant. |
| Activities.InsertOrderly | src-tauri/src/scan_service.rs:2017-2040 | Admitting a selection keeps the capacity of four and one for each window. |
| Admission.ScanRootTokens.BeginSelection | src-tauri/src/scan_service.rs:2426-2459 | Admits a selection exactly if the window has none open and tokens and selections together are below sixteen, expired tokens not counted; a refusal says which, and opens nothing. |
| Admission.ScanRootTokens.FinishSelection | src-tauri/src/scan_service.rs:2461-2479 | Uses up exactly the current selection; with a chosen absolute root it issues the first free candidate token, and fails only if all candidates are taken; a stale selection changes nothing. |
| Admission.ScanRootTokens.AbandonSelection | src-tauri/src/scan_service.rs:2481-2493 | Clears the selection if it is still the current one and leaves any other alone. |
| Admission.ScanRootTokens.Consume | src-tauri/src/scan_service.rs:2503-2533 | Redeems a token exactly once, for its window, before it expires; another window's attempt leaves it in place, one that comes too late removes it. |
| Admission.ScanRootTokens.ClearOwner | src-tauri/src/scan_service.rs:2535-2547 | Removes exactly the tokens and the selection of the window. |
| Admission.HistoryReadGate.Begin | src-tauri/src/scan_service.rs:1360-1382 | Admits exactly while fewer than four reads are out and none of this window. |
| Admission.HistoryReadGate.End | src-tauri/src/scan_service.rs:770-783 | Dropping a permit keeps the gate's counts equal to the permits out. |
| Admission.PermitAdded | src-tauri/src/scan_service.rs:1360-1382 | One more admitted read keeps the counts exact. |
| Admission.PermitRemoved | src-tauri/src/scan_service.rs:770-783 | One read less keeps the counts exact. |

## Left out

- Durability below the file system: `fsync` and directory syncs appear only as calls that may fail; program order is
  durability order, and a manifest replacement is one step that happened or did not.
- Interference is placed just before each rename and at the hook after it; the checks of one preparation or one
  verification read one state, although the code makes them one call after another.
- Deletion by other processes: they rename, create, write, link and make directories, but never remove the last name
  of an object. Hard-link counts are metadata that other processes set; they are not computed from the entries.
- Sessions.SessionProgress: manifests are kept by directory, outside the entries other processes can rename, so nobody
  but the service replaces or removes a manifest; a directory that holds one can still be moved away or replaced.
- Permission bits, private-mode checks, mount and device sessions, errno values and message texts.
- JSON, base64 and the manifest's size limit: a manifest is a value whose numbers, keys and digests are text.
- BLAKE3, random tokens and the clock: arbitrary functions, arbitrary candidates and arbitrary readings.
- The plan and restore-root tokens of the quarantine manager; they are a smaller instance of the registries in
  `ResultReads` and `Admission`.
- The TIFF and BMFF parsers, the read budget as a counter, and offsets near 2^64: the scanner's reads fail by offset,
  which covers every way a budget can run out, and its offsets are unbounded integers.
- The directory chain of a bound directory's audit and enumeration (`revalidate`, `next_name`).
- JSON rendering of the export's manifest, integrity object and records: arbitrary byte strings, so the JSON document
  is proved to be one object with the records in an array, in order, but its values are not parsed.
- Export format, scope and projection inside selections and grants: fixed when the selection starts and carried along.
- Cancellation of asynchronous calls: an abandoned call is a lease, permit or selection dropped at that point.
- Scan progress, status events, history listing and the user interface.
- Compare.CompareFilesExact: the clause about unchanging worlds is stated with every system call succeeding; a call
  that fails always ends in an error, whose kind is not specified further.
- ExportPublication.Export.WriteHistoryExport: the bytes of the temporary file are those the encoder wrote; no other
  process writes into the private file.
- ExportPublication.Export.CreateTemp: says nothing about whether a file left behind has private permissions, because
  permissions are not modelled.
- Manifest.LoadEvidence: a store that fails while a page is read, and the store's own checks of its pages.
