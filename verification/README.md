# Patcher and updater daemon: a verified model

This project models the parts of a macOS app patcher and updater daemon whose correctness does not show in any
single function, and proves what they promise for all inputs, all fault schedules and all interleavings.

* **Daemon runs** (`Executor`, `RunProtocol`, `RunHistory`, `RunGuarantees`, `RunCancellation`). The executor is a class
  over its map of runs. The whole protocol is a state machine: jobs, one condition-variable broadcaster per run, subscribers, and
  subscribers behind one sender. One step is one section under a mutex or one action outside it; subscribers hold the mutex
  from an empty check to going to sleep, as `cond.Wait` requires.
* **Sessions and replay** (`Session`, `SessionReplay`). What the daemon's session emits, what the client's replay of
  it emits, and what the updater's tick reads from it.
* **Bundle swap and staged upgrade** (`FileWorld`, `StateStore`, `BundleSwap`, `SwapSafety`, `SwapReports`,
  `SwapAttempts`, `StagedUpgrade`, `UpgradeAtomicity`, `UpgradeReports`). The file system is a value with a trace of every state it went through. Which
  operations fail is given by an arbitrary schedule, so "in every intermediate state" is a statement about the trace.
  The code is methods on a file-system object, each proved to compute a function from world to world; the theorems
  are about these functions.
* **Team IDs and Mach-O** (`TeamToken`, `TokenAlgebra`, `MachO`, `MachOImage`, `TrustedTokens`). The rewrite works in place on an
  array; its meaning is a set of positions. The reader adds in wrapping uint64; its meaning is stated in unbounded
  numbers over the layout of Apple's `<mach-o/fat.h>` and `<mach-o/loader.h>`.
* **Launch policy** (`InjectorPolicy`, `PolicyRoundTrip`, `PolicyEffects`, `PolicyArrival`). A printer in Go and an
  interpreter in C.
* **Manifest, build identity, cache, version order** (`Manifest`, `ManifestLaws`, `VersionStamp`, `BuildIdentity`,
  `CachePrune`, `VersionOrder`).

`Text`, `StringOrder` and `Numbers` hold the string and number operations these share. Check everything with
`dafny verify dfyconfig.toml`.

## Findings

Where a claim turned out not to hold of the code, the code is modelled as it is, a lemma gives the input, and another
says exactly when the claim holds.

* *A bundle is always at the live path or at `.dvc-old`, over any attempts.* Something always is
  (`AttemptsKeepNode`), but not always an intact bundle: `prepareOldPath` asks only whether something is at the live
  path, so beside a half-removed bundle it removes the intact backup. A commit keeps an intact bundle under every
  schedule of faults if and only if it does not start with debris at the live path (`BundleKeptExactly`), and two
  attempts do reach such a start (`RetryLosesTheBundle`). Only an attempt that reports that it could not rename the
  failed bundle back to the staging area leaves such debris; without one any attempts, cut off anywhere, keep an intact
  bundle (`AttemptsStaySound`).
* *A nil return from `streamActiveRuns` means that every send succeeded.* Not when `select` finds both channels ready
  (`NilReturnMayHideFailure`). To a caller who is still connected a nil return can hide an incomplete delivery exactly
  when several runs share the sender (`NilHidesIffShared`): with one run it cannot (`LoneNilIsWhole`), and with several
  the group can close with nil or with the error whenever it can close after a failed send (`FailedGroupCloses`). What
  a close of several means is `MergedDelivery`.
* *The client ends with the daemon's terminal outcome.* For a whole stream always in status, and in detail except
  when an operation records the outcome failed without an error and with white space around the detail
  (`ReplayPreservesTerminal`). When the stream ends cleanly before its terminal event the client reports ok, and when
  receiving breaks it reports the receive error as a failure; `CutStreamTerminal` says for both when it is right.
* *Numeric version components compare numerically.* `parseUint` wraps, so it is exact if and only if an int can hold
  the number (`ParseIsExact`), and a component compares numerically with all that fit an int if and only if it fits one
  itself (`ComparesNumericallyIff`); 2^64 + n is the same version as n (`HugeVersionIsSmall`).
* *Printing a launch policy and interpreting it carries out its actions.* The encoder accepts NUL characters, which the
  C reader takes for the ends of fields. The records read back are the records printed if and only if no key and no
  written value holds a NUL (`PrintedRecordsIff`, and `EncodedPolicyRuns` for policies). A truncation of any text carries
  out a prefix of what the whole does, NUL characters or not (`RecordsOfPrefix`).
* *The redirect port reaches the injector.* Setting a variable to x, NUL, y stops the reader before the port's record
  (`NulHidesRedirectPort`). For every encodable policy without an action on the redirect variable, all ports arrive if
  and only if the records found in the printed environment print all of it and no record found in the printed arguments
  touches the variable; otherwise the port read back does not depend on the port given (`RedirectPortArrivesIff`). The
  values of environment actions (`ActionArrivesIff`) and the arguments (`ArgumentsArriveIff`) have conditions of the same
  kind, and policies without NUL meet them all.
* *A validated package version is a semantic version.* The validator accepts exactly what can be printed from
  well-formed parts (`ValidIffPrinted`), and that is a semantic version if and only if the base has no leading zeros, the
  parts are ASCII, and the head is not digits alone that start with a zero (`AcceptedIsSemVerIff`), as 012345678901 is
  (`NumericHeadIsAccepted`).

## Model

| member | source | states |
|---|---|---|
| Executor.DecideKeepsExclusion | internal/daemon/executor.go:93-123 | a request starts a run exactly when no run is on its target, attaches exactly to its own key with the same cancellation mode, and conflicts exactly when starting would put two runs on one target |
| Executor.Executor.StartOrAttachWithCancellation | internal/daemon/executor.go:93-144 | the executor does what `Decide` says, with the whole new map and every field of both conflict errors, and keeps exclusion |
| Executor.Executor.CompleteRun | internal/daemon/executor.go:170-179 | deleting and then finishing a run removes its own key only and leaves no finished run reachable |
| Executor.Executor.ActiveMatching | internal/daemon/executor.go:148-163 | exactly the in-flight runs that pass both filters, each once, all on different targets, in the listing order |
| Executor.SortActiveRuns | internal/daemon/executor.go:191-198 | the runs given, by target and then operation |
| RunProtocol.StepKeepsInv | internal/daemon/broadcaster.go:32-87 | every step of jobs, broadcaster, subscribers, context callbacks and groups keeps the protocol's invariant |
| RunHistory.RunIsTold | internal/daemon/broadcaster.go:32-46 | in every reachable state a run's history is exactly what its job has emitted, in order, and it is returned, deleted and done exactly when that has happened to it |
| RunHistory.RequestServed | internal/daemon/executor.go:93-144 | in every behaviour a request starts a run with its key and mode exactly when no run of its target is left, and else changes nothing |
| RunHistory.SubIsTold | internal/daemon/updater_rpc.go:63-70 | each subscriber joined by one action that decides its run and whom it shares a sender with, and a lone one is cancelled exactly if it joined so or its context was cancelled since |
| RunHistory.GroupIsTold | internal/daemon/updater_rpc.go:72-126 | a group has returned what it closed with, once and for all, and a cancelled caller stays cancelled |
| RunGuarantees.OneRunPerTarget | internal/daemon/executor.go:93-179 | in every reachable state at most one undeleted run per target, and no finished broadcaster in the map |
| RunGuarantees.DeleteRemovesOwnRun | internal/daemon/executor.go:170-179 | in every behaviour the deferred delete removes its own run, never a successor's; every other undeleted run stays reachable |
| RunGuarantees.DeliveryAndWakeUp | internal/daemon/broadcaster.go:51-87 | in every reachable state each subscriber was sent a prefix of what the job has emitted, all of it if its stream ended because the run finished, and a sleeper has nothing undelivered and a wake-up coming |
| RunGuarantees.FinishedRunDrains | internal/daemon/broadcaster.go:41-87 | once a run has finished every open stream gets nearer to its end by each own step, never further, and somebody can always move |
| RunGuarantees.CancelledSubscriberDetaches | internal/daemon/broadcaster.go:66-84 | a subscriber whose context is cancelled is sent at most one more event, ever |
| RunCancellation.CancelledStreamEnds | internal/daemon/broadcaster.go:51-87 | and its stream ends: its own steps and its wake-up bring it nearer to its end, nothing moves it back, and somebody can always step for it |
| RunCancellation.FailedGroupCloses | internal/daemon/updater_rpc.go:92-126 | after a failed send every member's context is cancelled, and the group can close as soon as no member is left to wait for |
| RunGuarantees.MergedDelivery | internal/daemon/updater_rpc.go:63-126 | the merged output restricted to one member is a prefix of its run; when the group closes uncancelled it is complete for all members if and only if no send failed; an error return means it is not |
| RunGuarantees.NilReturnMayHideFailure | internal/daemon/updater_rpc.go:119-125 | a behaviour in which a send has failed, the caller is connected, and the return is nil |
| RunGuarantees.LoneNilIsWhole | internal/daemon/updater_rpc.go:68-70 | with one run, a nil return that is not a cancellation means that the whole history was sent |
| RunGuarantees.NilHidesIffShared | internal/daemon/updater_rpc.go:63-126 | some behaviour returns nil to a connected caller with part of a run unsent if and only if the sender is shared |
| RunGuarantees.ReadersAgree | internal/daemon/tick.go:448-495 | any two readers of a run whose streams ended uncancelled, whenever they attached, were sent the same events and compute the same deferred and completed verdicts |
| Session.Session.Progress | internal/clioutput/session.go:244-284 | the events and the recorded outcome of each progress call |
| Session.Session.FinishRun | internal/daemon/operationjob.go:122-137 | failure marker, terminal event from error or recorded outcome, run end, in this order |
| Session.OperationJob | internal/daemon/operationjob.go:22-69 | a job's session emits exactly the stream that its calls and its error determine |
| Session.ApplyProgressEvent | internal/daemon/client.go:173-195 | the sink call and the failure that one streamed event turns into |
| Session.RunOperation | internal/clispec/render.go:405-430 | the client's session emits exactly what the replayed calls and the failure determine, a receive error being the failure if there is one |
| Session.ReadDeferred | internal/daemon/tick.go:448-472 | deferred exactly when some terminal event of the target is a skip marked deferred |
| Session.ReadCompleted | internal/daemon/tick.go:475-495 | completed exactly when the last terminal event of the target is not failed |
| SessionReplay.ReplayPreservesTerminal | internal/daemon/client.go:145-195 | for any calls and any error the client ends with the daemon's status, and with its detail if and only if the one exception does not apply |
| SessionReplay.ReplayPreservesRunStatus | internal/clispec/render.go:420-430 | the run-level status agrees exactly when a failed outcome comes with an error |
| SessionReplay.SuccessfulReplayIsExact | internal/daemon/client.go:145-195 | replaying a successful run emits exactly the daemon's own events in order |
| SessionReplay.FailedReplaySteps | internal/daemon/client.go:173-195 | replaying a failed run emits the daemon's steps, an echo of its failure, and its own failure marker |
| SessionReplay.CutStreamTerminal | internal/daemon/client.go:145-170 | for every prefix of a stream and either way of ending, what the client concludes and exactly when it is right |
| SessionReplay.VerdictsOfJob | internal/daemon/tick.go:448-495 | what the tick concludes from a job's stream in terms of the operation's error and recorded outcome |
| StateStore.Update | internal/state/state.go:55-74 | the code takes the steps of `UpdateStep` under every schedule of faults: validation before any write, the file replaced last |
| StateStore.UpdateIsAtomic | internal/state/state.go:55-157 | a success puts or drops the target's record, a failure leaves the file as it was, nothing in between is ever visible, and other targets' records never change |
| StateStore.UpdateSucceedsIff | internal/state/state.go:55-157 | it succeeds exactly when no step fails and the records left are none, or no team is set up, or none of them names the local team |
| BundleSwap.Swapper.PrepareOld | internal/bundlemutate/bundlemutate.go:234-257 | a stale backup is removed only beside something live and refused without it; a failed look stops; step for step under every schedule of faults |
| BundleSwap.Swapper.RenameIfExists | internal/bundlemutate/bundlemutate.go:261-277 | the live bundle, if there is one, ends at the backup path, or an error says why not; step for step under every schedule of faults |
| BundleSwap.Swapper.RestoreInstall | internal/bundlemutate/bundlemutate.go:327-348 | the install error, and the rename that puts the old bundle back if there was one, with its own error joined |
| BundleSwap.Swapper.RestoreRollback | internal/bundlemutate/bundlemutate.go:350-363 | removal of a failed bundle in the way goes before the restoring rename, which is tried whatever failed before; the errors in order |
| BundleSwap.Swapper.Rollback | internal/bundlemutate/bundlemutate.go:216-232 | the verify error comes first; the failed bundle goes back to staging, the old one back to the live path; the errors in order |
| BundleSwap.Swapper.Commit | internal/bundlemutate/bundlemutate.go:170-214 | the code takes the steps of `CommitSwap`, of which the theorems below speak, under every schedule of faults, and returns its problems |
| SwapSafety.LiveBundleSurvives | internal/bundlemutate/bundlemutate.go:170-202 | under any faults, in every state from entry until the new bundle is verified or the error return, the bundle live at entry is intact at the live path or at the backup path; and where it is in the end |
| SwapSafety.NoLiveBundle | internal/bundlemutate/bundlemutate.go:234-257 | without a live bundle a stale backup is refused and nothing changes; else an error leaves the live path empty |
| SwapSafety.CommitOutcome | internal/bundlemutate/bundlemutate.go:170-257 | nil: the staged bundle is live and no backup is left; a reported failure to clean up: the same but for a backup that is still there; any other error with the restoring rename done: the live path is as at entry, absent included; a dry run changes nothing |
| SwapReports.CommitReports | internal/bundlemutate/bundlemutate.go:170-214 | a commit reports no problem exactly when no step of it failed, there was no backup without a live bundle, and the record could go on file |
| SwapReports.QuietCommitSucceedsIff | internal/bundlemutate/bundlemutate.go:170-214 | if no step fails by itself it reports none exactly when there is something staged, no backup without a live bundle, and an acceptable record |
| SwapReports.RollbackProblems | internal/bundlemutate/bundlemutate.go:216-232 | a failed verification is reported first, then exactly the restoring steps that failed, each by its own problem |
| SwapAttempts.AttemptsKeepNode | internal/bundlemutate/bundlemutate.go:170-363 | over any attempts, each cut off anywhere, the two paths are never both empty |
| SwapAttempts.BundleKeptExactly | internal/bundlemutate/bundlemutate.go:234-257 | a commit keeps an intact bundle at one of them under every schedule of faults if and only if it does not start with debris at the live path |
| SwapAttempts.AttemptsKeepBundle | internal/bundlemutate/bundlemutate.go:170-363 | over any attempts none of which starts so, an intact bundle stays |
| SwapAttempts.CommitStaysSound | internal/bundlemutate/bundlemutate.go:216-232 | from a start without it, no state of a commit has debris at the live path unless the commit reports that the failed bundle was not renamed back to staging |
| SwapAttempts.AttemptsStaySound | internal/bundlemutate/bundlemutate.go:170-363 | so over any attempts none of which reports that, each cut off anywhere, an intact bundle stays and no debris is at the live path |
| SwapAttempts.RetryLosesTheBundle | internal/bundlemutate/bundlemutate.go:216-257 | two attempts from an intact live bundle after which neither path holds an intact one |
| StagedUpgrade.Upgrader.Mutate | internal/bundlemutate/bundlemutate.go:76-105 | an unknown policy is refused, a dry run is not checked, and a failed check gives the error of its policy |
| StagedUpgrade.Upgrader.Swap | internal/bundlemutate/bundlemutate.go:127-158 | the code takes the steps of `StagedSwap`: nothing staged without a path and a device check, the staging area removed on every return |
| StagedUpgrade.Upgrader.Run | internal/upgrade/upgrade.go:274-328 | the code takes the steps of `RunStagedUpgrade`, of which the theorems below speak, under every schedule of faults |
| UpgradeAtomicity.UpgradeIsAtomic | internal/patch/patch_staged.go:102-138 | live bundle and patch record are both new or, when the restoring renames succeed, both old; other targets' records never change |
| UpgradeAtomicity.UpgradeTrace | internal/upgrade/upgrade.go:274-328 | in every state the new record is on file only with the new bundle live, and every commit rename comes after a policy check that passed when staging and preparing were over and no step had failed |
| UpgradeReports.UpgradeIsTruthful | internal/upgrade/upgrade.go:274-328 | a reported success found all it needs, had no failing step but perhaps the last removal of the staging area, and leaves both stores new; with all it needs and no failing step, or no fault at all, it is reported |
| UpgradeReports.AdoptedIsLive | internal/bundlemutate/bundlemutate.go:127-158 | without edits the bundle that a success leaves live is the adopted one |
| UpgradeReports.DryRunReports | internal/upgrade/upgrade.go:321-327 | when a dry run reports success |
| UpgradeAtomicity.DryRunChangesNothing | internal/bundlemutate/bundlemutate.go:170-177 | a dry run changes neither store |
| TeamToken.TokenBytesAre | internal/computeruseext/computer_use.go:876-881 | which bytes may stand in a team ID and which make a longer token of it, written out |
| TeamToken.TeamIDIs | internal/computeruseext/computer_use.go:662-674 | a team ID is ten of the written-out letters and digits |
| TeamToken.StandaloneIsMaximalRun | internal/computeruseext/computer_use.go:866-881 | an ID stands alone exactly where a maximal run of token bytes of its length spells it |
| TeamToken.ScanMissesNothing | internal/computeruseext/computer_use.go:849-864 | the greedy scan, which skips past every match, finds each standalone position once |
| TeamToken.CountStandaloneToken | internal/computeruseext/computer_use.go:849-864 | for a team ID the count is the number of standalone positions |
| TeamToken.RewriteInPlace | internal/computeruseext/computer_use.go:684-701 | the loop over the buffer it mutates makes exactly the declared rewrite and counts the standalone positions of the original |
| TeamToken.ReplaceStandaloneTeamID | internal/computeruseext/computer_use.go:675-704 | same length, the new ID at every standalone old ID and no other byte changed; the number of replacements; when it reports already patched; when it refuses |
| TokenAlgebra.RewriteKeepsMask | internal/computeruseext/computer_use.go:675-704 | a rewrite keeps token bytes where they were, so it keeps maximal runs |
| TokenAlgebra.RewriteMovesPositions | internal/computeruseext/computer_use.go:675-704 | afterwards no old ID stands alone, and the new positions are the old and the new ones, disjoint, so the counts add |
| TokenAlgebra.RewriteUnique | internal/computeruseext/computer_use.go:675-704 | the declared rewrite determines every byte |
| TokenAlgebra.RewriteAgain | internal/computeruseext/computer_use.go:675-704 | a second rewrite changes nothing |
| TokenAlgebra.RewriteBack | internal/computeruseext/computer_use.go:675-704 | rewriting back restores the input if and only if no new ID stood alone in it |
| TokenAlgebra.PatchTwice | internal/computeruseext/computer_use.go:675-704 | the second call makes no replacement and reports already patched exactly when some new ID is present |
| MachO.ReadCommands | internal/computeruseext/macho_trust.go:126-163 | the load-command loop, in wrapping arithmetic, returns what a walk of the commands gives, or the first fault of it |
| MachO.ReadThin | internal/computeruseext/macho_trust.go:105-163 | a thin image reads as its layout says, for every byte string |
| MachO.ReadFat | internal/computeruseext/macho_trust.go:63-103 | a universal file reads as its architecture table says, for every byte string, both widths and both byte orders |
| MachO.ReadCodeSignatureRanges | internal/computeruseext/macho_trust.go:44-61 | for every byte string it terminates, without an index out of bounds, with what the layout says |
| MachOImage.ImageReads | internal/computeruseext/macho_trust.go:105-163 | what is written from a header and a list of commands, in either width and byte order, is read back: exactly the code signatures the commands declare, in order |
| MachOImage.FatFileReads | internal/computeruseext/macho_trust.go:63-103 | a universal file with a written table is read back as the ranges of its slices, slice after slice |
| TrustedTokens.FileReadsOneWay | internal/computeruseext/macho_trust.go:44-163 | the layout of a file determines the ranges or the error |
| TrustedTokens.PartWithinSlice | internal/computeruseext/macho_trust.go:88-100 | every range of an architecture lies in its own slice, which lies in the file |
| TrustedTokens.FileRangesWithin | internal/computeruseext/macho_trust.go:44-163 | every range lies in the file |
| TrustedTokens.TrustedIsClear | internal/computeruseext/macho_trust.go:189-196 | an ID counts as outside the ranges exactly when no byte of it is in one of them and no empty one lies inside it |
| TrustedTokens.CountTrustedTeamTokens | internal/computeruseext/macho_trust.go:23-42 | fails exactly when the file cannot be read; at most the plain count; for a team ID the number of standalone positions outside all ranges |
| TrustedTokens.VerifyTrustedTeam | internal/computeruseext/verification.go:94-109 | what verification concludes from where the two IDs stand with no byte in a range |
| TrustedTokens.PatchThenVerify | internal/computeruseext/verification.go:94-109 | a rewritten binary is never found to trust the upstream team, and if it can be read it passes exactly when an ID, old or new, stood with no byte in a range |
| InjectorPolicy.Encode | internal/devsign/devsign.go:433-473 | the loops print the records of the policy, or return the first error |
| PolicyEffects.EncodableIff | internal/devsign/devsign.go:433-471 | a policy is encoded exactly when every action spells its word, in letters of either case and white space around it, and has the key or value it needs |
| PolicyEffects.RefusedForFirst | internal/devsign/devsign.go:433-473 | a policy that is not encoded is refused for its first bad action, the environment before the arguments, with the error that action calls for |
| InjectorPolicy.TokenReader.NextToken | injector/clyde_inject.c:24-37 | the next NUL-terminated token and the rest, or none and the end |
| InjectorPolicy.Process.ApplyRecord | injector/clyde_inject.c:164-207 | one record carried out, or the reader stops with nothing changed |
| InjectorPolicy.Process.ApplyPolicy | injector/clyde_inject.c:146-209 | the loop over an offset does to the process what `Interpret` says, of which the theorems below speak |
| PolicyRoundTrip.RecordTexts | internal/devsign/devsign.go:475-480 | the wire format of each of the three records, written out |
| PolicyRoundTrip.RecordReadIff | internal/devsign/devsign.go:475-480 | a record with anything behind it is read back if and only if no field of it holds a NUL |
| PolicyRoundTrip.TruncatedRecordsIff | injector/clyde_inject.c:146-209 | in all truncations of printed records exactly those that are whole are found, in order, if and only if no field holds a NUL |
| PolicyRoundTrip.RecordsOfPrefix | injector/clyde_inject.c:146-209 | a truncation of any text at all holds a prefix of the records of the whole |
| PolicyRoundTrip.PrintedRecordsIff | internal/devsign/devsign.go:475-480 | the records read back are those printed if and only if no field holds a NUL |
| PolicyRoundTrip.NulCutsValue | injector/clyde_inject.c:173-182 | a value with a NUL is cut there, and what follows is taken for a record |
| PolicyRoundTrip.WholeIsLargest | injector/clyde_inject.c:146-209 | which are as many as fit |
| PolicyEffects.EncodedPolicyRuns | internal/devsign/devsign.go:433-473 | for every policy that is encoded and every truncation: a prefix of the records found is carried out; they are the policy's own if and only if it holds no NUL; and then the prefix is the records that are whole |
| PolicyArrival.PolicyTakesEffect | injector/clyde_inject.c:173-190 | from the fields of a policy, with NUL elsewhere or not: an action that is reached decides its variable |
| PolicyArrival.ActionArrivesIff | internal/devsign/devsign.go:434-455 | for every encodable policy all values of a set action arrive in its variable if and only if it is reached: what is printed before it is read whole, and no record found in what is printed behind it touches the variable |
| PolicyArrival.CleanActionReached | internal/devsign/devsign.go:433-473 | in a policy without NUL the last action on each variable is |
| PolicyArrival.ArgumentsArriveIff | injector/clyde_inject.c:192-202 | for every environment and port all argument lists without NUL are appended, in order, and nothing else, if and only if what is printed before them is read whole and no record found in it appends |
| PolicyArrival.CleanFrontRead | internal/devsign/devsign.go:433-473 | before the arguments of a policy without NUL it is |
| PolicyArrival.ArgumentsStay | injector/clyde_inject.c:192-202 | where appending is not allowed, no policy changes the arguments |
| PolicyEffects.PortOfSpelling | injector/clyde_inject.c:249-263 | the reader accepts every spelling of 1 to 65535 and nothing above |
| PolicyEffects.PortOnlyOfSpelling | injector/clyde_inject.c:249-263 | and nothing else |
| PolicyArrival.RedirectPortArrivesIff | internal/devsign/devsign.go:456-458 | for every encodable policy without an action on the redirect variable all ports read back as they were given if and only if the port's record is reached; otherwise all ports read back alike |
| PolicyArrival.RedirectPortArrives | injector/clyde_inject.c:249-263 | and what is read back when it is: the proxy port if it is one, 0 if it is too large, the old one if there is none and nothing found before touches the variable |
| PolicyArrival.CleanPortReached | internal/devsign/devsign.go:433-473 | in a policy without NUL it is, and nothing does |
| PolicyEffects.NulHidesRedirectPort | injector/clyde_inject.c:203-206 | a policy with a NUL, for every proxy port, after which the port read back is the old one |
| Manifest.StampPackageVersionInTable | internal/codexcli/build_identity.go:322-358 | the loop stamps the first version of the first such table, or returns the error that there is no table or no version |
| Manifest.ReadTomlPackageVersion | internal/codexcli/build_identity.go:385-410 | the loop returns the first quoted version of such tables |
| ManifestLaws.TargetIff | internal/codexcli/build_identity.go:322-352 | the stamped line is the first version assignment after the first header of the table, if no other header comes between; the table is missing exactly when no line is its header |
| ManifestLaws.OnlyOneLineChanges | internal/codexcli/build_identity.go:322-425 | every other line is byte for byte as it was, and the stamped one is its old indentation, the new assignment and its old ending |
| ManifestLaws.RestOfTextStays | internal/codexcli/build_identity.go:322-358 | so is the text of the file before and after that line |
| ManifestLaws.StampedTextReads | internal/codexcli/build_identity.go:385-425 | what is stamped is what is read |
| ManifestLaws.LaterStampAbsorbs | internal/codexcli/build_identity.go:322-425 | stamping one version and then another is stamping the other; stamping again changes nothing |
| ManifestLaws.StampAndRead | internal/codexcli/build_identity.go:307-410 | stamping a file and reading it returns what unquoting makes of the quoted version |
| VersionStamp.StampVersionAndRead | internal/codexcli/build_identity.go:385-425 | for versions of printable ASCII without quotes and backslashes it returns the version |
| BuildIdentity.ShortTree | internal/codexcli/build_identity.go:468-473 | the tree stamp is the beginning of the tree, twelve characters of it or all |
| BuildIdentity.CutsRecover | internal/codexcli/build_identity.go:427-453 | the validator's cuts recover base, head, tree stamp and build hash |
| BuildIdentity.HexIs | internal/codexcli/build_identity.go:475-489 | an identifier is twelve bytes of written-out lower-case hex digits, or of decimal digits beyond ASCII |
| BuildIdentity.ValidIffPrinted | internal/codexcli/build_identity.go:427-489 | the validator accepts exactly what can be printed from well-formed parts, whatever decimal digits there are beyond ASCII |
| BuildIdentity.AcceptedIsSemVerIff | internal/codexcli/build_identity.go:427-489 | and what it accepts is a semantic version exactly when the base has no leading zeros, all is ASCII, and the head is not digits starting with a zero |
| BuildIdentity.NumericHeadIsAccepted | internal/codexcli/build_identity.go:439-441 | a head that is accepted and makes no semantic version |
| BuildIdentity.PrintIsInjective | internal/codexcli/build_identity.go:53-59 | and from one choice of parts only |
| BuildIdentity.PackageVersionIsKey | internal/codexcli/releases.go:84-87 | every sound identity prints to an accepted version, and equal versions mean equal base, head, tree stamp and build hash |
| BuildIdentity.RustVersionIsCore | internal/codexcli/build_identity.go:100-102 | every release version is a base, and its three numbers come back |
| CachePrune.ParseIsLongestSplit | internal/codexcli/build_identity.go:500-500 | a name that splits as the pattern says parses, with the longest base |
| CachePrune.ParsedSplits | internal/codexcli/build_identity.go:642-648 | and only such a name parses |
| CachePrune.GroupedIs | internal/codexcli/build_identity.go:580-604 | the groups hold each hash variant with its files and their newest time |
| CachePrune.NewestIs | internal/codexcli/build_identity.go:601-603 | which is the time of one of them and no less than any |
| CachePrune.Directory.RemoveStaleVariants | internal/codexcli/build_identity.go:617-640 | keeps the newest variants, removes every removable file of the others, and returns how many hashes are not kept and have no file that could not be removed |
| CachePrune.PruneDirectory | internal/codexcli/build_identity.go:575-613 | each crate keeps min(keep, n) variants with all their files, none older than one that went; exactly the removable files of the others are gone, and nothing else; the count returned is of the variants that went entirely |
| VersionOrder.ParseUint | internal/claudetee/claudetee.go:241-253 | accepts exactly digits, with the number they spell wrapped to an int |
| VersionOrder.ParseIsExact | internal/claudetee/claudetee.go:241-253 | which is that number if and only if an int can hold it |
| VersionOrder.SplitVersion | internal/claudetee/claudetee.go:215-239 | the loop with its builder finds the non-empty segments between separators, numbers told from text |
| VersionOrder.PartsConcat | internal/claudetee/claudetee.go:215-239 | the parts of two texts with a separator between them are the parts of the one and then of the other |
| VersionOrder.SegmentIsOnePart | internal/claudetee/claudetee.go:229-237 | and a non-empty text without separators is one part |
| VersionOrder.CompareVersions | internal/claudetee/claudetee.go:181-213 | the early returns decide as the lexicographic order of parts does |
| VersionOrder.FirstDifferenceDecides | internal/claudetee/claudetee.go:181-213 | the first part in which two versions differ decides: the lesser number, a number against a text, the lesser text; and a version that runs on after the parts of another is the greater |
| VersionOrder.VersionsPreordered | internal/claudetee/claudetee.go:181-213 | antisymmetric in sign, transitive, and 0 exactly for the same parts |
| VersionOrder.CollectCandidates | internal/claudetee/claudetee.go:160-170 | exactly the directories that are not dot files |
| VersionOrder.ChosenIsGreatest | internal/claudetee/claudetee.go:136-145 | however the listing is sorted, the directory chosen is a candidate and no candidate is greater |
| VersionOrder.ComparesNumericallyIff | internal/claudetee/claudetee.go:177-192 | a numeric component compares numerically with all that fit an int if and only if it fits one itself |
| VersionOrder.HugeVersionIsSmall | internal/claudetee/claudetee.go:241-253 | a family of versions that do not |

## Left out

- BuildIdentity.ShortTree: counts characters, not bytes; trees are ASCII.
- ManifestLaws.StampAndRead: takes the quoted version and the unquoting as given. `VersionStamp.StampVersionAndRead` has the versions in use; escapes are the Go library's.
- TeamToken.CountStandaloneToken: excludes an empty token, on which the loop never ends; its callers pass validated team IDs.
- TrustedTokens.CountTrustedTeamTokens: the same; the upstream team ID is required to be non-empty when policies are read.
- InjectorPolicy.Encode: lower-cases ASCII letters only, because no other character lower-cases to a letter of the action words; strings are sequences of characters, not of UTF-8 bytes.
- Panics in jobs and streams, which the daemon recovers, and log or emit failures of sessions.
- The context a job runs with: whether a job reacts to cancellation is up to the job.
- Scheduling fairness: `FinishedRunDrains` shows progress for whoever is scheduled.
- Event fields that no reader consults: times, log paths, counters. Report capabilities and batch runs of the client, which do not replay a stream.
- Patching in place, without a staged bundle, and the codesign, entitlement, keychain and quarantine steps: in the staged path they are edits of the bundle that may fail.
- Device comparison and closing the running app: steps that may fail. Modes, owners and times of files, and directories above the bundles.
- The decoding of the state file: it is a map, its load a step that may fail. Several processes updating it at once.
- How the injector decides whether it may append arguments, memory exhaustion in it, and address redirection after the port is read.
- The build hash: an input, of twelve hexadecimal digits. The choice of the latest release tag.
- The walk over profile directories of the build cache, its dry run and its floor of one kept variant; `CachePrune.PruneDirectory` holds for every number to keep.
- Reading and writing of manifest files, their modes and times.
- Library sorting: its result is any order that sorts. Invalid UTF-8 in version strings.
- Network, gRPC transport, HTTP manifests, cryptography, command line, table output and configuration.
