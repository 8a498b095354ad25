# Verified models of the release and runtime core

Dafny models of the parts of this repository whose correctness rests on a protocol, on
hidden state, or on two implementations that have to agree. `dafny verify dfyconfig.toml`
checks the whole project. A source that changes state step by step is modelled by
methods and classes, or, where several processes or threads interleave, by a state machine
with one transition per call. Every such method is proved against a specification
function, and the properties are lemmas about that function.

| area | files | source |
|---|---|---|
| Cargo-baseline publication: locks, journal, directories, admissions | `PublicationLock`, `LockRuns`, `LockLimits`, `BaselineStore`, `BaselineFiles`, `BaselineRuns`, `BaselineMoves`, `Publication`, `PublicationLimits` | `scripts/ci/fresh-cargo-resolution.js` |
| Dependency-graph differ and classification | `PackageDiff`, `DriftClassifier`, `DriftReport`, `DriftEntries` | `scripts/ci/fresh-cargo-resolution.js` |
| Closure-scoped lock helpers | `LockCallbacks` (threads), `LockOrder` (a deadlock), `LockCompletion` (every run ends), `LockHelpers` (one thread, in place), `LockAlone` (both agree) | `runtime/hxrt/src/concurrent.rs` |
| Haxe exceptions over Rust panics | `HaxeExceptions` | `runtime/hxrt/src/exception.rs` |
| Canonical ZIP writer and independent reader | `Crc32`, `ZipFormat`, `ZipArchive`, `ZipRoundTrip`, `ZipLayout`, `ZipPrograms`, `ZipFiles` | `scripts/release/deterministic-zip.js`, `scripts/release/verify-release-artifact.js` |
| JSON fast paths and their tree-building twins | `JsonDynamic` | `runtime/hxrt/src/json.rs` |
| Git blob listing, batches and decoding | `GitBlobs`, `GitCommit` | `scripts/release/exact-git-source.js` |
| Type-graph closures | `TypeClosure` | `scripts/ci/public-compatibility-manifest-check.js`, `scripts/ci/haxe-public-surface.js` |
| Advisory walk | `NpmAudit` | `scripts/ci/npm-audit-policy.js` |
| Comment and string masker | `MaskNonCode` | `scripts/ci/rust-raw-authority-policy.js` |

## Where the code does less than one would expect

Each of these is proved, with the exact condition where there is one to state.

* **The publication lock is mutually exclusive for two processes, and not for three.** Under the
  reclaim lock, `acquirePublicationLock` reads the owner again (line 571) and then asks whether
  that owner runs (line 576). These are two separate calls. If the owner that was read is still
  alive, it can release the lock and end in between, and a third process can create the lock.
  The probe then says "dead", and line 577 deletes the third process's lock. Every run of every
  start excludes if and only if at most two processes take part
  (`LockLimits.ExclusionHoldsIffAtMostTwo`). For any number of processes,
  `LockLimits.RereadBreaksIff` says which re-read is dangerous: one that finds a running owner
  while a third process may still create the lock. `LockLimits.ProbeBreaksIff` says which probe
  breaks the lock: one that answers "dead" when the lock file at the path is by then a running
  process's, or is gone while another may create one. "Careful" runs, in the theorems below, are
  the runs without such a probe. `docs/rust-toolchain-policy.md` lines 128-129 say that the
  reclaim lock keeps processes that saw the same dead owner from deleting each other's new live
  lock; with a third process it does not keep a new live lock safe.
* **With three processes the committed baseline can be lost.** Two processes that are both past
  the lock work on the same directories. One stages its candidate and writes the journal. The
  other finds that journal in its recovery and drops the candidate; the first then renames the
  old root away, and the other removes the journal. Root is gone, and without a journal recovery
  returns at once (line 601), so no later run restores it: `PublicationLimits.LastCommitCanBeLost`,
  `LossCanBeForGood` and `LostStaysLost`. Crash atomicity, the outcome of recovery and what
  readers see hold in every run if and only if at most two processes take part
  (`PublicationLimits.CrashAtomicIffAtMostTwo`). `RereadLosesCommitIff` says when, for any number.
* **With three processes an update can be lost.** Both pass the check of the base manifest, and
  the second overwrites what the first has just published: `PublicationLimits.LostUpdateCanHappen`.
  No update is lost in any run if and only if at most two processes take part
  (`PublicationLimits.NoLostUpdateIffAtMostTwo`). `RereadLosesUpdateIff` says when, for any number.
* **The suppression depth saturates.** It returns to its entry value exactly when the nesting
  still fits a `u32` (`HaxeExceptions.DepthReturnsIff`). Caught throws are silent exactly as long
  as none of them sees a counter that saturation has drained to zero
  (`HaxeExceptions.OnlyCaughtThrowsAreSilentIff`). One catch beyond the bound, and a throw that is
  caught is printed (`HaxeExceptions.SaturatedDepthPrintsCaughtThrow`). That program nests 2^32
  catches, more than a real stack holds, so the bound is one of the counter and not of practice.
* **A torn journal is never repaired.** It leaves the old root whole, but every later check and
  admission stops, in every run (`Publication.TornJournalFreezesDisk`).
* **A recovery that finds no journal leaves a staged tree behind**
  (`PublicationLimits.StagedCanOutliveRecovery` is such a run), and only such a recovery does
  (`PublicationLimits.StagedOutlivesOnlyWithoutJournal`). The next publication removes it.
* **The differ does not see a node that only one of two files has.** The comparison skips it
  (line 1192), so its loss is seen only as a change of bytes, which blocks admission without
  naming the node (`DriftClassifier.LostNodeIsNotSeen`, `DriftReport.SamePackagesOnlyBytesIff`).
* **A whole number beyond `i32` does not survive parse and print as a whole number**
  (`JsonDynamic.TreeSurvivesIff`).
* **Printing with a replacer need not end.** The replacer is called again on every part of its own
  answers (lines 615-651 of `json.rs`), so it ends exactly when there is no endless chain of parts
  (`JsonDynamic.EndsIffNoChain`). One that wraps each value in an array never ends, on any value
  (`JsonDynamic.WrappingNeverEnds`).
* **Nesting the same mutexes in opposite orders deadlocks** without any reentry error, since
  reentry is per thread (`LockOrder.OppositeOrdersDeadlock`).

## Model

| member | source | states |
|---|---|---|
| PublicationLock.CarefulRunsAreSafe | scripts/ci/fresh-cargo-resolution.js:479-597 | In every careful run of any number of processes, with a crash possible before any call, at most one live process is between acquire and release, and a reclaimer about to delete never faces a running process's file |
| LockLimits.ExclusionHoldsIffAtMostTwo | scripts/ci/fresh-cargo-resolution.js:549-593 | Every run of every initial state of a set of processes excludes, with no assumption about timing, if and only if they are at most two |
| LockLimits.ExclusionCanFail | scripts/ci/fresh-cargo-resolution.js:549-593 | For any three or more processes, a run from one stale lock after which two of them hold the lock |
| LockLimits.RereadBreaksIff | scripts/ci/fresh-cargo-resolution.js:564-577 | While a reclaimer waits for its answer, the others can bring about that "dead" lets two processes in if and only if the owner it re-read was running and a third process may still create the lock |
| LockLimits.ProbeBreaksIff | scripts/ci/fresh-cargo-resolution.js:576-577 | The answer "dead" can be followed by two processes inside if and only if the lock at the path is by then a running process's, or gone while another may create one |
| PublicationLock.TwoAreCareful | scripts/ci/fresh-cargo-resolution.js:549-593 | With at most two processes every run is careful |
| PublicationLock.StepKeepsInv | scripts/ci/fresh-cargo-resolution.js:479-597 | Every lock call, failed write, crash and careful probe keeps: a live owner's file is at its path, a file naming a live process is that process's own, only the owner takes away a lock that was re-read, and a lock about to be deleted is no running process's |
| LockRuns.FreeLockIsAcquired | scripts/ci/fresh-cargo-resolution.js:549-553 | Without interference a free lock is acquired in two calls, and holds the owner's record |
| LockRuns.LiveOwnerIsRespected | scripts/ci/fresh-cargo-resolution.js:554-592 | A lock whose owner runs is only read and asked about, and no probe may call the owner dead |
| LockRuns.StaleLockIsReclaimed | scripts/ci/fresh-cargo-resolution.js:525-592 | Without interference a dead owner's lock is replaced by the process's own, and the reclaim lock is gone |
| LockRuns.HeldLockIsReleased | scripts/ci/fresh-cargo-resolution.js:509-523 | The release by the owner leaves no lock |
| LockRuns.ForeignLockIsLeft | scripts/ci/fresh-cargo-resolution.js:509-523 | A release that finds another record, or no whole record, at the path of its lock fails and leaves the file |
| LockRuns.ForeignReclaimIsLeft | scripts/ci/fresh-cargo-resolution.js:509-523 | So does the release of the reclaim lock, whatever has come of the publication lock |
| LockRuns.HeldReclaimIsAwaited | scripts/ci/fresh-cargo-resolution.js:525-547 | While another process holds the reclaim lock, one that wants it changes nothing and tries again |
| LockRuns.ReclaimerTurnsBack | scripts/ci/fresh-cargo-resolution.js:568-590 | Where a reclaimer leaves the lock alone it gives the reclaim lock back; it then starts again if the lock was gone, its owner runs or another has created it, and fails if the lock is there and cannot be read, or gone where it is to be removed |
| LockRuns.FailedWriteLeavesNoFile | scripts/ci/fresh-cargo-resolution.js:479-507 | A write of a fresh record that fails takes its file away again and changes nothing else; the process stops, or first releases the reclaim lock it holds |
| BaselineStore.StepKeepsInv | scripts/ci/fresh-cargo-resolution.js:599-615 | Every file-system call of recovery, check and publication, also in the middle of a recursive delete, of a copy and of the journal write, keeps the last committed tree whole at root or previous |
| BaselineStore.StepCommits | scripts/ci/fresh-cargo-resolution.js:1765 | Only the second rename commits, and it commits the whole target |
| BaselineStore.CommitKeepsChain | scripts/ci/fresh-cargo-resolution.js:1744-1765 | A commit whose base had the current manifest and whose target carries the current README extends the chain |
| BaselineStore.BaseByName | scripts/ci/fresh-cargo-resolution.js:1744-1747 | The check of the base goes on exactly where the "manifest.json" at root is that of the base |
| BaselineStore.TargetByName | scripts/ci/fresh-cargo-resolution.js:1749-1760 | The staged tree is the candidate with the "README.md" at root, and staging fails without one |
| BaselineStore.ThrowingCalls | scripts/ci/fresh-cargo-resolution.js:1738-1772 | A call that throws leaves everything as it was and ends the round, and no other call ends it early |
| PublicationLimits.CrashAtomicIffAtMostTwo | scripts/ci/fresh-cargo-resolution.js:599-615 | In every run of every start the last commit is kept, one process works, recoveries end right and readers see the last commit, with no assumption about timing, if and only if at most two processes take part |
| PublicationLimits.NoLostUpdateIffAtMostTwo | scripts/ci/fresh-cargo-resolution.js:1744-1765 | In every run of every start each commit was classified against the manifest it replaces, with no assumption about timing, if and only if at most two processes take part |
| PublicationLimits.RereadLosesCommitIff | scripts/ci/fresh-cargo-resolution.js:564-615 | While another process comes that can publish, the re-read of a lock can lead to the loss of the last commit if and only if its owner is still running when it is read, whatever the reclaimer's own round |
| PublicationLimits.RereadLosesUpdateIff | scripts/ci/fresh-cargo-resolution.js:1744-1765 | The re-read can lead to an overwritten commit, between two processes that can publish and one of which changes the manifest, if and only if the owner is still running when it is read |
| PublicationLimits.LastCommitCanBeLost | scripts/ci/fresh-cargo-resolution.js:599-615 | For any three or more processes, a run that ends with no root and no journal, two workers at once, a recovery with the wrong outcome and a reader that misses the last commit |
| PublicationLimits.LostUpdateCanHappen | scripts/ci/fresh-cargo-resolution.js:1744-1765 | For any three or more processes, a run with a commit that was not classified against the manifest it replaces |
| PublicationLimits.LossCanBeForGood | scripts/ci/fresh-cargo-resolution.js:599-601 | That loss can be reached with no process left that has the lost tree in hand |
| PublicationLimits.LostStaysLost | scripts/ci/fresh-cargo-resolution.js:599-601 | From there no run changes the directories any more: recovery returns at once without a journal |
| PublicationLimits.StagedCanOutliveRecovery | scripts/ci/fresh-cargo-resolution.js:599-615 | A careful run in which a publisher fails while it stages, and the next reader's recovery ends, without a journal, with the staged files still there |
| PublicationLimits.StagedOutlivesOnlyWithoutJournal | scripts/ci/fresh-cargo-resolution.js:599-615 | In careful runs, where a recovery has ended and staged files are left, it found no journal |
| Publication.OneWorker | scripts/ci/fresh-cargo-resolution.js:764-816 | In careful runs at most one live process is at work on the directories |
| Publication.LastCommitSurvives | scripts/ci/fresh-cargo-resolution.js:1738-1772 | In careful runs, after any number of crashes in publish and recovery, the last committed tree is whole: at root, or at previous while root is missing and the journal is complete; a damaged previous exists only beside the complete new root, and a torn journal only with the old root untouched |
| Publication.RecoveryOutcome | scripts/ci/fresh-cargo-resolution.js:599-615 | In careful runs a completed recovery leaves exactly the last committed tree at root, no previous, no journal, and no staged tree if it found a journal; "both missing" is unreachable |
| Publication.CommitsFormChain | scripts/ci/fresh-cargo-resolution.js:1744-1747 | In careful runs no update is lost: each committed tree was classified against an earlier committed tree whose manifest is the one it replaces, although the lock is released in between |
| Publication.CommitsOnlyGrow | scripts/ci/fresh-cargo-resolution.js:1763-1767 | Commits are never taken back, and a step adds one exactly when it is the second rename |
| Publication.ReadersSeeLastCommit | scripts/ci/fresh-cargo-resolution.js:764-816 | In careful runs a check that completes hands out exactly the last committed tree |
| Publication.TornJournalFreezesDisk | scripts/ci/fresh-cargo-resolution.js:602-606 | With a torn journal and its writer gone, no run at all changes anything on the disk, and root is the last commit |
| BaselineRuns.RecoveryIsSettled | scripts/ci/fresh-cargo-resolution.js:599-615 | From the moment the journal is found, no step of a recovery, not even a partial delete or a failure, changes what recovery makes of the disk; when it ends it has made exactly that |
| BaselineRuns.StepKeepsDestiny | scripts/ci/fresh-cargo-resolution.js:1738-1772 | Every step that does not fail, in whatever order files are deleted or copied, keeps the end of the run |
| BaselineRuns.RunIsPublish | scripts/ci/fresh-cargo-resolution.js:1738-1772 | Every run of a publication that ends without a failing call leaves exactly the disk of the procedure in one piece, and one commit exactly if it published |
| BaselineRuns.RunIsRecovery | scripts/ci/fresh-cargo-resolution.js:599-615 | Every run of a check that ends without a failing call leaves exactly the recovered disk, or the torn disk untouched |
| BaselineRuns.RunPublishesByName | scripts/ci/fresh-cargo-resolution.js:1738-1772 | Every undisturbed run of a publication leaves the candidate with the reviewed "README.md" at root, and one commit, exactly where the reviewed "manifest.json" is that of its base, and otherwise leaves the reviewed tree |
| BaselineRuns.NeverStuck | scripts/ci/fresh-cargo-resolution.js:599-615 | A process that has not stopped always has a call that need not fail |
| BaselineRuns.StepsDescend | scripts/ci/fresh-cargo-resolution.js:1738-1772 | Such calls come nearer to the end by a well-founded measure, so every run ends |
| BaselineMoves.Recovers | scripts/ci/fresh-cargo-resolution.js:599-615 | From every disk the protocol can leave, unless the journal is torn, there is a run through recovery to its end with the last commit at root, nothing at previous, no journal, and staged kept exactly if there was no journal |
| BaselineMoves.Publishes | scripts/ci/fresh-cargo-resolution.js:1748-1767 | From a clean disk there is a run through the whole publication that leaves exactly the target with the old README, and one commit |
| BaselineFiles.Files.Recover | scripts/ci/fresh-cargo-resolution.js:599-615 | In place: the directories become what Recovery says, or stay untouched when it refuses |
| BaselineFiles.Files.WriteAtomically | scripts/ci/fresh-cargo-resolution.js:1738-1772 | In place: the outcome and the whole disk of a publication, at its end and at each of its interruption points; PublicationByName and IncompleteRootFails say what they are |
| BaselineFiles.PublicationByName | scripts/ci/fresh-cargo-resolution.js:1744-1768 | A publication over a whole root puts the candidate with the reviewed "README.md" at root, and nothing beside it, if the reviewed "manifest.json" is the expected one; with any other it is refused as stale and the disk stays as it was |
| BaselineFiles.PublicationOverLast | scripts/ci/fresh-cargo-resolution.js:1738-1772 | The same over the last commit, from every disk that the protocol leaves |
| BaselineFiles.IncompleteRootFails | scripts/ci/fresh-cargo-resolution.js:1744-1750 | Without a "manifest.json", or with the expected one but without a "README.md", nothing is published |
| BaselineFiles.PublishThenRecover | scripts/ci/fresh-cargo-resolution.js:1738-1772 | From every disk the protocol can leave, the recovery after a publication finds exactly the old or exactly the new tree, the new one from the second rename on; and a publication gets under way exactly on a current manifest and a whole journal |
| BaselineFiles.RecoveryRestoresLastCommit | scripts/ci/fresh-cargo-resolution.js:599-615 | Recovery refuses exactly a torn journal, and otherwise restores the last commit |
| PackageDiff.LogicalPackagePairs | scripts/ci/fresh-cargo-resolution.js:1079-1108 | The two loops over the sets of remaining ids compute the pairs and leftovers of the specification; packages consumed earlier never affect a later candidate |
| PackageDiff.PairsMembers | scripts/ci/fresh-cargo-resolution.js:1079-1108 | A pair is found exactly when ids are equal, or when both are the only unmatched package of the name on their side |
| PackageDiff.PairsAndLeftoversPartition | scripts/ci/fresh-cargo-resolution.js:1103-1107 | Pairs plus leftovers are exactly both inputs, as multisets |
| PackageDiff.PairingIsInjective | scripts/ci/fresh-cargo-resolution.js:1079-1108 | Two pairs agree on one side exactly when they agree on the other |
| PackageDiff.PairingIsSymmetric | scripts/ci/fresh-cargo-resolution.js:1079-1108 | Swapping the inputs inverts the pairing |
| DriftClassifier.LockChanges | scripts/ci/fresh-cargo-resolution.js:1117-1161 | The reported set: format, checksum and dependency changes of shared packages, an upgrade exactly for a lone removed and a lone added package of one name and source, and the rest as removed or added |
| DriftClassifier.GuardIsUpgrade | scripts/ci/fresh-cargo-resolution.js:1137-1142 | The guard of the version pairing recognises exactly the upgrades, whatever the loop consumed before |
| DriftClassifier.MetadataChanges | scripts/ci/fresh-cargo-resolution.js:1162-1201 | The reported set: header fields, the renamed root, differences of paired packages and nodes with edges renamed to old ids, and unpaired packages with their nodes |
| DriftClassifier.NoLockChangeIff | scripts/ci/fresh-cargo-resolution.js:1117-1161 | Nothing is reported exactly when formats, identities, checksums and dependencies agree |
| DriftClassifier.NoMetadataChangeIff | scripts/ci/fresh-cargo-resolution.js:1162-1201 | Nothing is reported exactly when packages correspond one to one and agree up to order and renamed ids |
| DriftClassifier.MetadataAgreesWithItself | scripts/ci/fresh-cargo-resolution.js:1170-1201 | Equal metadata pairs every package with itself, renames nothing, and so agrees |
| DriftClassifier.SamePackagesAgreeIff | scripts/ci/fresh-cargo-resolution.js:1170-1195 | Of metadata with the same packages, nothing is reported exactly when the headers, the roots and the nodes that both files have for a package agree |
| DriftClassifier.LostNodeIsNotSeen | scripts/ci/fresh-cargo-resolution.js:1189-1195 | Metadata that has lost any one node, and nothing else, is reported as unchanged |
| DriftClassifier.RenamingFollowsPairs | scripts/ci/fresh-cargo-resolution.js:1170 | The renaming map takes each paired new id back to its old id, with no pair overwriting another |
| DriftClassifier.RenamedEdgesAgree | scripts/ci/fresh-cargo-resolution.js:1071-1115 | Edges that follow their packages to new ids compare as equal, so an upgrade does not disturb the topology |
| DriftReport.ClassifyCase | scripts/ci/fresh-cargo-resolution.js:1117-1204 | Fails exactly when a file does not parse; reports exactly the visible changes, or the byte change when there are none and the bytes differ |
| DriftReport.CaseSilentIff | scripts/ci/fresh-cargo-resolution.js:1202-1203 | A case is reported unchanged exactly when its lock and metadata bytes are identical |
| DriftReport.OnlyBytesReportedIff | scripts/ci/fresh-cargo-resolution.js:1202-1203 | The byte change is all that is reported exactly when the bytes differ although locks and metadata agree |
| DriftReport.SamePackagesOnlyBytesIff | scripts/ci/fresh-cargo-resolution.js:1170-1203 | Where locks agree and packages are the same, exactly the differences outside header, root and shared nodes - the text of the files, and nodes that only one file has - are seen only as a byte change |
| DriftReport.CaseBlocksIff | scripts/ci/fresh-cargo-resolution.js:1317-1326 | A case blocks admission exactly when a shared package changed its checksum, or when bytes differ although the parsed files agree |
| DriftReport.ClassifyWholeCase | scripts/ci/fresh-cargo-resolution.js:1206-1290 | A case on one side only: fails exactly without parsing artifacts, and reports every field, package and node |
| DriftReport.WholeCaseIsDrift | scripts/ci/fresh-cargo-resolution.js:1206-1290 | Such a case is always drift and never blocks admission |
| DriftReport.ClassifyArtifacts | scripts/ci/fresh-cargo-resolution.js:1292-1329 | "match" exactly when case ids, lock bytes, metadata bytes and authority digests are identical; admissible exactly when no shared case is blocked; fails exactly when some needed file is missing or does not parse |
| DriftEntries.LockReportsAreEntries | scripts/ci/fresh-cargo-resolution.js:1121-1161 | A change between two lock files is reported exactly when category, case, subject, field, old and new value are those of one difference: an upgrade has the old version and the new one, of the only removed and the only added package of a name and source |
| DriftEntries.MetadataReportsAreEntries | scripts/ci/fresh-cargo-resolution.js:1162-1201 | The same for metadata: which field of which package, pair or node, with the old and the new value, under which name |
| DriftEntries.WholeReportsAreEntries | scripts/ci/fresh-cargo-resolution.js:1206-1290 | The same for a case on one side only: every value is new for an added case and old for a removed one |
| DriftEntries.AuthorityReportsAreEntries | scripts/ci/fresh-cargo-resolution.js:1310-1319 | The same for the policy digest and the input digests of the cases |
| LockCallbacks.StepKeepsInv | runtime/hxrt/src/concurrent.rs:57-105 | Every step of every thread keeps: markers are exactly those of the open scopes without duplicates, guards exclude each other, captured values are current, cells equal their logs |
| LockCallbacks.MarkersCoverGuards | runtime/hxrt/src/concurrent.rs:32-105 | In every reachable state a thread's guards are on marked handles, no handle is marked twice, and no thread waits for a handle on which it holds a guard |
| LockCallbacks.ScopesRestoreMarkersAndGuards | runtime/hxrt/src/concurrent.rs:92-105 | Whenever control is back between the same scopes, by return, throw or catch, the marker stack and held guards are what they were |
| LockCallbacks.CellsAreSequential | runtime/hxrt/src/concurrent.rs:212-253 | Under any interleaving each cell is the sequential fold of its committed operations, and each value handed out is the fold of a prefix |
| LockCallbacks.HelpersSeeLatest | runtime/hxrt/src/concurrent.rs:292-339 | What a step hands out is the latest committed value, or for an update the one this step commits |
| LockCallbacks.CellChangesOnlyWhenFree | runtime/hxrt/src/concurrent.rs:236-281 | A cell changes only when no update is in progress on it afterwards, so a captured value stays current until its own commit |
| LockCallbacks.ThrownUpdateLeavesNoTrace | runtime/hxrt/src/concurrent.rs:236-253 | Under any interleaving, from the moment an update is entered until a throw has left it, its cell keeps its value and gets no log entry, from this update or from anybody else |
| LockCallbacks.ReturnedUpdateIsCommitted | runtime/hxrt/src/concurrent.rs:236-253 | Under any interleaving, an update whose callback returns leaves in the cell what its function makes of the value at which it was entered, and one log entry |
| LockCallbacks.CommitStores | runtime/hxrt/src/concurrent.rs:249-252 | The step that commits stores, logs and hands out the function of the captured value, and touches no other cell |
| LockCallbacks.PokeApplies | runtime/hxrt/src/concurrent.rs:270-281 | An in-place write, through any catches around it, applies its function to the value it finds |
| LockCallbacks.WaitsIff | runtime/hxrt/src/concurrent.rs:212-373 | A helper of an RwLock that only reads waits exactly while another thread has the handle for itself, or, if writers go first, waits to have it; every other helper waits exactly while anybody has it |
| LockCallbacks.AcquirerStores | runtime/hxrt/src/concurrent.rs:212-234 | set and write store their value and hand out nothing; replace stores it and hands out the old one; get and read hand out the value and store nothing |
| LockCallbacks.OrderedThreadsProgress | runtime/hxrt/src/concurrent.rs:57-105 | If all threads nest different handles in one global order, every reachable state with an unfinished thread has one that can step, even when a waiting writer keeps readers out |
| LockCompletion.StepsDescend | runtime/hxrt/src/concurrent.rs:57-105 | Each step of any thread, with any callbacks and from any state, lowers a bound on all steps that can still be taken |
| LockCompletion.RunsAreBounded | runtime/hxrt/src/concurrent.rs:57-105 | No run, in whatever order the threads move, is longer than that bound |
| LockCompletion.OrderedRunsComplete | runtime/hxrt/src/concurrent.rs:32-373 | If all threads nest handles in one global order, every run can be continued, within the bound, to a state in which every thread has finished, no guard is held, no handle is marked, and each cell holds the fold of its log |
| LockCompletion.StoppedIsSettled | runtime/hxrt/src/concurrent.rs:32-373 | And a run of such threads that cannot continue, even with new readers held back, has come to such a state |
| LockOrder.OppositeOrdersDeadlock | runtime/hxrt/src/concurrent.rs:78-80 | Without that order: a run after which two unfinished threads can never move, and no reentry was seen |
| LockOrder.NestedOrderedIff | runtime/hxrt/src/concurrent.rs:78-80 | Two nested updates keep the global order exactly when the inner handle comes after the outer or is the outer, which throws |
| LockHelpers.CallbackThread.Enter | runtime/hxrt/src/concurrent.rs:57-90 | Throws before the push exactly for a null or active handle, otherwise pushes the handle |
| LockHelpers.CallbackThread.Leave | runtime/hxrt/src/concurrent.rs:92-105 | Removes exactly the last occurrence of the handle, or nothing |
| LockHelpers.CallbackThread.RunOp | runtime/hxrt/src/concurrent.rs:212-373 | Every helper has its structured meaning, hands back the value it found or, for an update, the one it stored, and leaves the vector as it found it, however it exits; UpdateApplies and MutateApplies say what is stored |
| LockHelpers.ActiveValuesStay | runtime/hxrt/src/concurrent.rs:57-64 | No callback changes the value of an active handle unless it is that handle's mutator |
| LockHelpers.UpdateIsAtomic | runtime/hxrt/src/concurrent.rs:236-253 | An update stores and hands back the callback of the value it captured, or leaves the value alone if the callback throws, whatever else runs inside |
| LockHelpers.UpdateApplies | runtime/hxrt/src/concurrent.rs:236-253 | An update that returns has stored, and hands back, the value its callback gives for the one in the cell |
| LockHelpers.MutateApplies | runtime/hxrt/src/concurrent.rs:270-281 | with_mut and with_write change the value in place by the callback, also inside a catch |
| LockHelpers.BorrowChangesNothing | runtime/hxrt/src/concurrent.rs:255-268 | A callback with shared access leaves the value as it was, whatever else runs inside |
| LockAlone.OpsRun | runtime/hxrt/src/concurrent.rs:212-373 | In any reachable state in which nobody else holds a guard, the thread's steps take every list of nested operations to its structured meaning and back between the same scopes |
| LockAlone.AloneRunsToMeaning | runtime/hxrt/src/concurrent.rs:32-373 | A thread by itself ends with the values that the helpers mean, throws exactly if they do, and leaves no guard and no marker |
| HaxeExceptions.MachineRefinesExceptions | runtime/hxrt/src/exception.rs:17-112 | For every program of throws, catches, rethrows and foreign panics the thread-local machine gives the structured result, hands each handler the value its body threw, and leaves no id or payload; ids may wrap and the depth may saturate; the next rows say what the structured result is |
| HaxeExceptions.HandlerIsGivenTheThrown | runtime/hxrt/src/exception.rs:64-112 | Whatever the body of a catch throws, its handler is given; a handler that rethrows it passes that value on, and one that yields it ends normally with it |
| HaxeExceptions.ShiftMeansTheSame | runtime/hxrt/src/exception.rs:64-112 | One more catch around a handler changes nothing for it: every value it was given by the catches further out stays the one it was |
| HaxeExceptions.RethrowReachesOuterCatch | runtime/hxrt/src/exception.rs:110-112 | On the machine, from every idle state, a value that is thrown, caught, thrown again and caught further out is what both handlers are given |
| HaxeExceptions.CatchRefines | runtime/hxrt/src/exception.rs:64-108 | A catch takes exactly a Haxe throw, with its value; a foreign panic passes, whatever number it carries |
| HaxeExceptions.DepthReturnsIff | runtime/hxrt/src/exception.rs:64-82 | The depth returns to its entry value on every exit if and only if the nested catches fit the counter or it was zero |
| HaxeExceptions.HookPrintsExactly | runtime/hxrt/src/exception.rs:17-37 | For every program at any depth the hook prints every panic but a Haxe throw whose id is not zero while the saturating counter, given in closed form, is positive |
| HaxeExceptions.OnlyCaughtThrowsAreSilentIff | runtime/hxrt/src/exception.rs:17-37 | Caught throws are silent and nothing else is if and only if no caught throw with a non-zero id sees a counter that saturation has drained to zero |
| HaxeExceptions.DepthAfter | runtime/hxrt/src/exception.rs:64-82 | The counter on every exit of every program: the entry value or the room that its deepest nesting leaves below the maximum, whichever is smaller |
| HaxeExceptions.OnlyCaughtThrowsAreSilent | runtime/hxrt/src/exception.rs:17-37 | While the nesting fits, no counter is drained, and so the hook prints exactly the foreign panics, the throws outside all catches and a throw whose id wrapped to zero |
| HaxeExceptions.NestDrainsDepth | runtime/hxrt/src/exception.rs:64-82 | What a stack of n catches leaves in the counter, beyond saturation too |
| HaxeExceptions.SaturatedDepthPrintsCaughtThrow | runtime/hxrt/src/exception.rs:17-82 | The bound is sharp: one catch more, and a throw that is caught is printed |
| HaxeExceptions.Runtime.Run | runtime/hxrt/src/exception.rs:44-112 | The thread-locals changed in place are the state of the machine at every exit |
| HaxeExceptions.Runtime.ThrowValue | runtime/hxrt/src/exception.rs:44-55 | In place: the id taken, the next id with wrap-around, the payload and the hook's decision |
| HaxeExceptions.IdsCountUp | runtime/hxrt/src/exception.rs:44-55 | Ids count up to 2^64 - 1 and then start at zero; the value waits in the payload under its id |
| Crc32.BuildTable | scripts/release/deterministic-zip.js:16-26 | The table holds eight serial steps of each byte |
| Crc32.Crc | scripts/release/deterministic-zip.js:28-32 | The table-driven checksum is the bit-serial reflected CRC-32 of section 8 of RFC 1952; the last three rows about Crc32 fix its start value, polynomial and complement |
| Crc32.TableStepIsSerial | scripts/release/deterministic-zip.js:30 | One table lookup is eight serial bit steps, for every state and byte |
| Crc32.ByteStepIsBijection | scripts/release/deterministic-zip.js:28-32 | For each byte the step is a bijection on states |
| Crc32.OneChangedByteIsDetected | scripts/release/deterministic-zip.js:28-32 | Inputs of equal length that differ in one byte never share a checksum |
| Crc32.ChecksumOfChecked | scripts/release/deterministic-zip.js:28-32 | Any bytes followed by their own checksum, lowest byte first, have the checksum 0x2144df1c |
| Crc32.FirstBytesFlipped | scripts/release/deterministic-zip.js:29 | Flipping all bits of the first four bytes gives the complemented register of a run that starts from zero |
| Crc32.CheckValue | scripts/release/deterministic-zip.js:16-32 | The checksum of the digits 1 to 9 is 0xcbf43926 |
| ZipFormat.PackThenRead | scripts/release/deterministic-zip.js:108-159 | Every 16- and 32-bit field of a packed record is read back where it was written |
| ZipPrograms.LocalHeaderBuffer | scripts/release/deterministic-zip.js:108-123 | The buffer filled in place is the local header of section 4.3.7 of APPNOTE |
| ZipPrograms.CentralHeaderBuffer | scripts/release/deterministic-zip.js:125-146 | The buffer filled in place is the central header of section 4.3.12 of APPNOTE |
| ZipPrograms.EndRecord | scripts/release/deterministic-zip.js:148-159 | The buffer filled in place is the end record of section 4.3.16 of APPNOTE |
| ZipPrograms.ZipBytes | scripts/release/deterministic-zip.js:161-191 | The loop that advances the offset yields the specified archive, and fails exactly beyond the ZIP32 limits |
| ZipPrograms.FindEndOfCentralDirectory | scripts/release/verify-release-artifact.js:79-85 | The backward scan finds the last end signature in range, or none |
| ZipPrograms.CentralDirectoryEntries | scripts/release/verify-release-artifact.js:87-129 | The reading loop computes the specified entries or the first error |
| ZipPrograms.DecodeEntries | scripts/release/verify-release-artifact.js:131-175 | The decoding loop computes the specified contents or the first error |
| ZipPrograms.WrittenThenRead | scripts/release/verify-release-artifact.js:87-175 | What the writer produces, the reader reads back: every entry in order with name, sizes, checksum and offset, and exactly the contents |
| ZipRoundTrip.ArchiveRoundTrip | scripts/release/verify-release-artifact.js:79-175 | The same for every list of entries laid out within the ZIP32 limits, whatever bytes names and contents have |
| ZipRoundTrip.CorruptionIsRejected | scripts/release/verify-release-artifact.js:169 | An entry whose inflated content differs from the checksummed one in one byte is rejected |
| ZipLayout.LocalHeaderLayout | scripts/release/deterministic-zip.js:108-123 | Every field of a local header, octet for octet: signature PK 3 4, version 20, UTF-8 flag, method 8, midnight of 1 January 2000, checksum, sizes, name |
| ZipLayout.CentralHeaderLayout | scripts/release/deterministic-zip.js:125-146 | Every field of a central header: signature PK 1 2, made by Unix, and a regular file with mode 0644 |
| ZipLayout.EndRecordLayout | scripts/release/deterministic-zip.js:148-159 | Every field of the end record: signature PK 5 6, one disk, count, size and offset, no comment |
| ZipLayout.SafeNameIff | scripts/release/deterministic-zip.js:38-45 | A name is safe exactly if it is not empty, holds no zero and no backslash, does not start or end with a slash or start with a drive letter, and no stretch between slashes is empty, "." or ".." |
| ZipLayout.ReadCentralIs | scripts/release/verify-release-artifact.js:99-124 | A central header is read exactly if it passes the tests in order - signature, UTF-8, safe name, not encrypted, method, no link, mode - and otherwise the first that fails is reported |
| ZipLayout.DecodeOneIs | scripts/release/verify-release-artifact.js:131-175 | An entry is decoded exactly if its local header is there, says what the central one says and lies in the file, the content inflates, and size and checksum are right; otherwise the first test that fails is reported |
| ZipLayout.EndIs | scripts/release/verify-release-artifact.js:79-85 | The end record is the last place with its signature in the last 65557 octets, and missing exactly if there is none |
| ZipLayout.CentralDirectoryIs | scripts/release/verify-release-artifact.js:87-129 | The directory is accepted exactly if the end record announces no ZIP64, all headers can be read, they end where it says, and no two have one name; each failure has its own error |
| ZipFiles.CollectedFiles | scripts/release/deterministic-zip.js:77-106 | The collected list is strictly ordered by full path and holds exactly the files of the tree |
| ZipFiles.ListingOrderIsIrrelevant | scripts/release/deterministic-zip.js:77-106 | Two listings of one tree, in any order at any level, are both collected or both refused, and yield the same list |
| ZipFiles.CollectOkIff | scripts/release/deterministic-zip.js:77-106 | Collecting succeeds if and only if the tree holds nothing but files and directories, and every full path is safe and occurs once |
| ZipFiles.CollectErrorIs | scripts/release/deterministic-zip.js:77-106 | A failure names what is there: a link or a special file in the tree, an unsafe path, or a path that occurs twice |
| ZipFiles.SameFilesSameList | scripts/release/deterministic-zip.js:77-106 | Two trees with the same files at the same paths, both collected, yield the same list |
| ZipFiles.WalkOrderDiffers | scripts/release/deterministic-zip.js:34-36 | Per-directory order is not full-path order, so the final sort matters |
| ZipFiles.SortedNamesIff | scripts/release/verify-release-artifact.js:210-215 | The canonical-order test accepts exactly ordered names |
| ZipFiles.CollectedArchiveIsAccepted | scripts/release/deterministic-zip.js:161-191 | From directory to verified archive: a collected tree within the limits is accepted, in canonical order, with its contents |
| JsonDynamic.DirectIsTree | runtime/hxrt/src/json.rs:117-272 | Direct serialization prints the same text as printing the rebuilt tree, for every value |
| JsonDynamic.KeysAreOrdered | runtime/hxrt/src/dynamic.rs:325-341 | The keys of an object come in strictly ascending order, as a BTreeMap yields them |
| JsonDynamic.ParseIsTree | runtime/hxrt/src/json.rs:297-398 | Direct parsing builds what the tree path builds: the i32/f64 split, and the last of equal keys |
| JsonDynamic.TreeSurvivesIff | runtime/hxrt/src/json.rs:409-608 | A tree survives the way to Dynamic and back if and only if its whole numbers fit an i32 |
| JsonDynamic.TreesAreSmall | runtime/hxrt/src/json.rs:446-608 | The trees made from Dynamic values do |
| JsonDynamic.NormalisingIsIdempotent | runtime/hxrt/src/json.rs:409-608 | Normalising changes nothing that is printed, and a second time nothing at all |
| JsonDynamic.IdentityReplacerPrintsTheSame | runtime/hxrt/src/json.rs:610-730 | stringify with an identity replacer prints what stringify prints |
| JsonDynamic.AnswerIsTaken | runtime/hxrt/src/json.rs:610-658 | Of every call that ends: an answer without children is the result; of any other, the result has the same fields or items, each replaced under its own name or the decimal text of its index |
| JsonDynamic.EndsIffNoChain | runtime/hxrt/src/json.rs:610-658 | Replacing a value ends exactly when no answer has a part whose answer has a part, and so on without end |
| JsonDynamic.WrappingNeverEnds | runtime/hxrt/src/json.rs:610-658 | A replacer that wraps each value in an array ends on none |
| JsonDynamic.LeafReplacerPrints | runtime/hxrt/src/json.rs:610-730 | With a replacer that puts a value in the place of each leaf, what is printed is the tree with exactly these leaves replaced |
| JsonDynamic.NamesArePrinted | runtime/hxrt/src/json.rs:610-730 | With the replacer that answers each leaf by its key, an object with fields "a" and "b" prints those names as their values |
| JsonDynamic.DecimalReadsBack | runtime/hxrt/src/json.rs:645-655 | The key of an item is digits that read back as its index, with no zero in front |
| JsonDynamic.VisitSeq | runtime/hxrt/src/json.rs:377-386 | The pushing loop builds the parsed array |
| JsonDynamic.VisitMap | runtime/hxrt/src/json.rs:388-397 | The setting loop builds the parsed object, the last of equal keys winning |
| JsonDynamic.JsonValueToDynamic | runtime/hxrt/src/json.rs:409-444 | The recursion with its loops builds the specified value |
| GitBlobs.SplitIntoBatches | scripts/release/exact-git-source.js:220-236 | Order kept, no batch over the limit or empty, no order-preserving split within the limit has fewer batches; an error exactly when a blob is over the limit, naming the first |
| GitBlobs.TightIsFewest | scripts/release/exact-git-source.js:224-236 | A split in which no batch has room for the next entry has the fewest batches of all order-preserving splits |
| GitBlobs.DecodeBatch | scripts/release/exact-git-source.js:243-269 | The decoding loop computes the specified blobs or the first error |
| GitBlobs.GenuineDecodes | scripts/release/exact-git-source.js:243-269 | A well-framed response decodes to exactly its blobs, whatever newlines they contain |
| GitBlobs.DecodedIsGenuine | scripts/release/exact-git-source.js:243-269 | Whatever decodes is a well-framed response with those blobs, each of the named size and identity |
| GitBlobs.LeftoverIsRejected | scripts/release/exact-git-source.js:269 | An accepted response followed by anything is rejected as trailing data |
| GitBlobs.FramedBlobDecodes | scripts/release/exact-git-source.js:239-269 | Byte for byte: the name, " blob ", the decimal size, a newline, the content and a newline decode to the content exactly if the SHA-1 of "blob ", the size, a zero byte and the content is the name |
| GitBlobs.HeaderMatchesIff | scripts/release/exact-git-source.js:243-256 | A header matches an entry exactly if it is the name, " blob " and a text of the size, followed by nothing or by a space and anything |
| GitBlobs.DecimalRoundTrip | scripts/release/exact-git-source.js:246-248 | A size printed in decimal is read back |
| GitBlobs.ReadBlobs | scripts/release/exact-git-source.js:220-271 | Whatever Git answers, an accepted result has every sized entry's size and identity in order; and if Git answers from a store that has them, it is exactly the stored contents unless a blob is over the limit |
| GitCommit.ReadSizes | scripts/release/exact-git-source.js:199-219 | The size listing is read line by line, and refused at the first line with another identity, another type or no safe size |
| GitCommit.SizeOfIff | scripts/release/exact-git-source.js:207-217 | A line is accepted exactly if it is the entry's name, " blob " and a text of a whole number up to 2^53 - 1, followed by nothing or by a space and anything |
| GitCommit.TrimEndIs | scripts/release/exact-git-source.js:205 | Trimming takes off white-space characters of ECMA-262 at the end, until none is left there |
| GitCommit.ListingIsRead | scripts/release/exact-git-source.js:199-219 | A genuine listing is read as exactly the stored sizes |
| GitCommit.ReadCommitBlobs | scripts/release/exact-git-source.js:198-272 | Whatever Git answers to both requests, an accepted result has one blob for each entry, in order, with its identity and within the limit; and if Git answers from a store that has the entries, it is exactly the stored contents unless one is over the limit |
| TypeClosure.TransitiveReferences | scripts/ci/public-compatibility-manifest-check.js:419-432 | Ends on every finite graph with exactly the names reachable from the roots |
| TypeClosure.SurfaceClosure | scripts/ci/haxe-public-surface.js:550-561 | Ends on every finite graph with exactly the names reachable without passing the type itself, minus the type |
| TypeClosure.SkippingSelfLosesNothing | scripts/ci/haxe-public-surface.js:550-561 | That is plain reachability minus the type, because its references are the roots |
| TypeClosure.ValidateAdmittedReferenceClosure | scripts/ci/public-compatibility-manifest-check.js:434-464 | Each violation is reported once for each admitted type or operation that has it, and nothing if and only if everything reachable from those is an admitted stable type |
| TypeClosure.OwnersAre | scripts/ci/public-compatibility-manifest-check.js:434-464 | The owners checked are exactly the types and operations whose contract is admitted, each with its own references |
| TypeClosure.FaultsAre | scripts/ci/public-compatibility-manifest-check.js:434-464 | A violation says the owner and a name reachable from it that no type has, or whose type - the last of that name - is not an admitted stable one |
| NpmAudit.CollectLeafAdvisories | scripts/ci/npm-audit-policy.js:37-65 | The recursion with its loop ends, with the measure of names not yet active, and computes the specified leaves or the first error |
| NpmAudit.LeavesOkIff | scripts/ci/npm-audit-policy.js:37-65 | It returns if and only if no walk from the name repeats a package or meets an active one, and every package met is reported with supported causes |
| NpmAudit.LeavesAreExact | scripts/ci/npm-audit-policy.js:37-65 | The leaves are exactly the advisories of all reachable packages |
| NpmAudit.EvaluateAudit | scripts/ci/npm-audit-policy.js:67-111 | Accepted exactly when nothing is reported, or the exception is in force and every reported package is in place, closed, acyclic and carries only allowed advisories; the accepted urls are exactly theirs |
| MaskNonCode.Mask | scripts/ci/rust-raw-authority-policy.js:152-199 | In place on the character array: exactly the characters that a one-character-at-a-time lexer calls code, and the newlines, stay; all others become spaces |
| MaskNonCode.StringIsBlanked | scripts/ci/rust-raw-authority-policy.js:180-196 | A string is blanked from its quote to the next one of that kind that is not escaped, whatever it holds |
| MaskNonCode.BlockCommentIsBlanked | scripts/ci/rust-raw-authority-policy.js:160-179 | A block comment is blanked up to the first star and slash after its mark |
| MaskNonCode.LineCommentIsBlanked | scripts/ci/rust-raw-authority-policy.js:160-179 | A line comment is blanked up to the end of its line |
| MaskNonCode.CodeIsKept | scripts/ci/rust-raw-authority-policy.js:152-199 | In code every character stays but quotes and a slash that opens a comment |
| MaskNonCode.MaskedTextOpensNothing | scripts/ci/rust-raw-authority-policy.js:152-199 | Masked text has no quote and no comment mark |
| MaskNonCode.MaskingIsIdempotent | scripts/ci/rust-raw-authority-policy.js:152-199 | Masking again changes nothing |
| MaskNonCode.FixedIff | scripts/ci/rust-raw-authority-policy.js:152-199 | A text is its own mask exactly when it has no comment mark and no quote |
| MaskNonCode.LineAt | scripts/ci/rust-raw-authority-policy.js:210-214 | One more than the newlines before the offset |
| MaskNonCode.LinesAgree | scripts/ci/rust-raw-authority-policy.js:210-214 | Newlines keep their positions, so an offset in the masked text is on the same line of the source |

## Left out

Weaker than one might wish:

- PublicationLock.CarefulRunsAreSafe: speaks of careful runs, because exclusion is false of the others; LockLimits.ExclusionHoldsIffAtMostTwo, RereadBreaksIff and ProbeBreaksIff say exactly when
- Publication.OneWorker: speaks of careful runs, because it is false of the others, as PublicationLimits.CrashAtomicIffAtMostTwo says exactly
- Publication.LastCommitSurvives: the same, with PublicationLimits.RereadLosesCommitIff for any number of processes
- Publication.RecoveryOutcome: the same, with PublicationLimits.CrashAtomicIffAtMostTwo
- Publication.ReadersSeeLastCommit: the same, with PublicationLimits.CrashAtomicIffAtMostTwo
- Publication.CommitsFormChain: the same, with PublicationLimits.NoLostUpdateIffAtMostTwo and RereadLosesUpdateIff
- HaxeExceptions.OnlyCaughtThrowsAreSilent: needs nesting that fits the counter; OnlyCaughtThrowsAreSilentIff has the exact condition without it
- ZipRoundTrip.CorruptionIsRejected: one changed byte only; CRC-32 cannot promise more changes in general

Not modelled:

- Schema-version-1 lock records without a token, deadlines and waiting times of lock acquisition (a retry may happen at any time, and giving up is a crash), symbolic-link and file-type checks of the baseline root
- Reused process ids as such: a probe may always answer "running" for a dead process, which is what a reused id looks like
- A power failure that loses or reorders writes already made; a crash stops a process and keeps what it did
- The artifact set beyond the manifest bytes and the README: checkBaseline's comparison of the manifest with the artifacts it lists, toolchain verification and the candidate inventory
- Parsing of lock files and metadata in classification (parameters that may fail), the identity syntax of packages, and the final sort of the changes; sorted lists are compared as multisets, object values by their JSON text
- SHA-256 and SHA-1 (digest equality is content equality, or a function parameter), DEFLATE (an inflate that undoes deflate), UTF-8 (an encoding that is undone by decoding), Unicode path normalisation
- Channels, tasks and threads of concurrent.rs, the borrow of a handle cell, parking_lot's own implementation; both of its choices, a waiting writer that keeps new readers out and one that does not, are covered
- Foreign catch_unwind inside Haxe code, exceptions thrown by destructors during unwinding, and installation of the hook
- Rounding of f64, number and text formatting, pretty-printing, cyclic object graphs, JSON text syntax (values arrive as parser events), replacers with a memory or side effects, and the integer width of a serializer call
- Running Git, and the checks on tree entries
- Haxe scanning, manifest fields and contracts beyond admission and class; sorting of a finished closure
- The allow-lists, patterns and expiry date of the audit policy (parameters), and entries of the report that are not objects
