# worktree-gc: verified model

worktree-gc finds generated directories in Git worktrees, measures them within a budget, and deletes
the ones that were approved or have gone stale. This project models its core in Dafny and proves what
that core is meant to guarantee.

## What is modelled

**Bounded inventory scan** (`Saturating`, `Metrics`, `World`, `Readers`, `Ledger*`, `Scan`, `Agreement`,
`Figures`, `Determinism`, `Limits`, `Inventory`, `GatewayUnits`, `Retained`). A snapshot of a tree (`World`) has directories
with a device and an enumeration order, and files with an inode, a link count and sizes. `Scan.ScanRoot` is the
imperative loop: two queues, a capped number of resumable readers (`Readers.DirectoryReader`; the program's cap is
64), ceiling-divided slices, aggregates updated on line, inodes deferred until their common parent is known. `Ledger` states
what the collections mean in terms of the snapshot, `LedgerSteps`, `LedgerFiles` and `LedgerClose` prove
that every kind of step keeps it, and `Agreement` compares the finished report with an independent
specification in which each inode is counted once at the deepest directory that holds all its links (an entry
that claims to be its inode's only link counts as a file of its own). `Figures` says in plain sums what that
specification counts.
Failures, kernel batches, lost attributes and the fallback between readers are nondeterministic choices.

**Digest-bound deletion** (`ExactDelete`). A transition system over any number of executors of one approval,
a protection guard, Cargo locks, builders, an environment that may replace the candidate between any two
steps, and a crash or refusal after any step.

**Cargo locks** (`CargoLocks`). A transition system over any number of sweepers and builders. Locks belong to
inodes and scans see paths, because that is how file locks work; lock files may appear, vanish or be replaced
at any time.

**Quarantine sweeps** (`Disk`, `ProfileSweep`, `Quarantine`, `ProfileReset`, `IncrementalSweep`). A file tree
changed one entry at a time, in which any change can be the last before a crash or an I/O error: a disk has a
number of changes left, every operation says what it uses of them, and a pass counts as uninterrupted
when more are left than it can need. Over it run the planning, quarantining, discarding and recovering loops.

**Resumed measurement** (`Measuring`, `Scheduler`, `Starvation`), **file URIs** (`FileUri`) and the **ownership helper**
(`OwnershipHelper`).

`Paths` and `Wrappers` hold shared vocabulary. Check everything with `dafny verify dfyconfig.toml`.

## Where the code promises less than it seems

* A scan takes the word of a file that claims a single link. `Limits.ScanHidden` is a tree with two such links of
  one inode, whose scan completes without a mark and is wrong; `Limits.FalseLinkCountDependsOnOrder` shows the
  order dependence in the books. A complete scan is exact everywhere if and only if no visible inode does this
  (`Agreement.CompleteExactness`). The claims about truncated scans assume link counts that cover the visible
  links (`Worlds.World.CountsCover`); that the root is a lower bound needs neither.
* A budget equal to the number of entries is not enough for every tree: an empty directory read last is still
  queued. `Limits.ScanFlat` is a tree for every number n of entries that completes if and only if the budget
  exceeds n; any greater budget completes every tree of n entries, and a budget of n cuts off no more directories
  than have nothing to read, so it completes those trees in which every directory has (`Scan.ScanRoot`).
* A rescan compares paths, a lock holds an inode (`src/cargo_incremental.rs:476-479`).
  `CargoLocks.StaleLockAdmitsABuilder` is a run in which both disagree, and
  `CargoLocks.CurrentExactlyWhenBound` is the exact condition under which they do not.
* The starvation bound needs that no root completes or fails with the budget it gets. `Starvation.StarvesForever`
  has two roots of which one is never attempted again once the other completes; `Starvation.FailuresStarve` has two
  roots of which one waits as long as the other had failed before. Within a run a root gets a budget if and only if
  the roots ahead of it visit fewer entries than the maximum (`Measuring.AttemptedExactlyWhenLeft`).
* A status answer repeats the configured roots as they are (`src/ownership_helper.rs:549-561`), and the client
  refuses a root listed twice (`src/ownership_helper.rs:908-912`). `OwnershipHelper.StatusOfRepeatedRoot` is such a
  configuration, and `OwnershipHelper.Answer` gives the exact condition.
* Interior `.` segments of a URI are accepted: `Path::components` drops them before the check at
  `src/gateway_storage.rs:1558-1564`. `FileUris.InteriorDotIsAccepted` is such a URI; of the dot segments exactly
  `..` is refused (`FileUris.ParseUndoesEncode`).

## Model

| member | source | states |
|---|---|---|
| `Saturating.ShareBounds` | src/inventory.rs:648-651 | the ceiling-divided share, in saturating u64 arithmetic, never exceeds what remains, is positive while anything remains, and leaves every other sharer its exact floor share |
| `Saturating.ShareRoundsUp` | src/inventory.rs:648-651 | the share exceeds the exact quotient by at most one entry |
| `Saturating.ShareIsCeiling` | src/inventory.rs:648-651 | the share is the one number s with s * sharers >= the rest > (s - 1) * sharers, unless the sum that rounds up exceeds 64 bits, where it is the last one that fits |
| `Readers.DirectoryReader.Next` | src/inventory.rs:1111-1146 | one entry leaves the reader: the remembered one first, and never a gap or a repetition in the listing |
| `Readers.DirectoryReader.VisitPortable` | src/inventory.rs:1101-1168 | a portable slice yields the next entries of the listing in order, a full slice unless the end is reached, and reports exhaustion exactly when nothing is left, thanks to the one-entry lookahead |
| `Readers.DirectoryReader.FillPending` | src/inventory.rs:1386-1426 | a bulk call either fails and loses nothing, or buffers entries, or reports the end |
| `Readers.DirectoryReader.VisitNative` | src/inventory.rs:1356-1384 | the same slice contract for the bulk reader, whose failures may come after it has yielded |
| `Readers.DirectoryReader.Visit` | src/inventory.rs:249-279 | the fallback from the bulk to the portable reader neither repeats nor loses an entry: the reader is replaced only before it has yielded anything, and an unsupported call is reported only after |
| `Readers.ReadInSlices` | src/inventory.rs:249-279 | for any sequence of slice sizes the concatenated yields are a prefix of the listing; slices that report more to come are full ones, the slice that reports exhaustion completes the listing, and without a failure slices that add up to its length read all of it and report the end |
| `Scan.AggregateKeys` | src/inventory.rs:804-809 | exactly the aggregates at or above a path |
| `Scan.AddAmount` | src/inventory.rs:711-767 | a directory, a file, a duplicate or an error is added to every aggregate at or above its path and to no other |
| `Scan.MarkTraversalIncomplete` | src/inventory.rs:769-778 | a reason is noted at every aggregate at or above the path and nowhere else |
| `Scan.NarrowCommonParent` | src/inventory.rs:739-745 | popping components ends at the deepest ancestor of the old common parent that is also above the new path |
| `LedgerFiles.NarrowedIsMeet` | src/inventory.rs:739-745 | the narrowed parent is the greatest lower bound of the old one and the new link, which makes it independent of the order links are met in |
| `Scan.TakeFile` | src/inventory.rs:505-562 | a file entry updates the books as first link, further link, plain file or missing attributes |
| `LedgerFiles.EntryFile` | src/inventory.rs:505-562 | a file entry keeps the whole scan invariant: sums, deferred inodes with their deepest common directory and observed links, marks for lost entries |
| `LedgerSteps.EntryDirectory` | src/inventory.rs:497-504 | a directory entry keeps the scan invariant, its new aggregate included |
| `LedgerSteps.QueueHeadFails` | src/inventory.rs:406-431 | a directory that cannot be inspected or is no longer one leaves the queue marked at every aggregate above it |
| `LedgerSteps.QueueHeadOpened` | src/inventory.rs:432-455 | opening a reader keeps the scan invariant and consumes nothing |
| `LedgerSteps.ReaderFails` | src/inventory.rs:566-586 | a reader that fails after yielding keeps the invariant: what it yielded is counted, the rest is marked |
| `LedgerClose.SettleStep` | src/inventory.rs:592-614 | counting one deferred inode keeps every aggregate equal to the charges at or below it, and notes the unresolved attribution where links are missing from a truncated scan |
| `Scan.FillReaders` | src/inventory.rs:402-455 | reader slots are filled from the queue up to the cap; afterwards a slot is free only if nothing is queued |
| `Scan.VisitFirst` | src/inventory.rs:457-590 | one fair slice of the first open directory: at most the remaining budget is spent, a slice that reads nothing closes its reader, the invariant is kept |
| `Scan.MarkPending` | src/inventory.rs:376-400 | when the budget is gone every directory still queued or open is marked at all aggregates above it, after which the scan invariant holds with nothing left to read; without one nothing changes |
| `Scan.CountOne` | src/inventory.rs:592-614 | one deferred inode is charged to every aggregate at or above its common parent, without private bytes when links are missing, and marked unresolved there when the scan was truncated |
| `Scan.CompleteConsumed` | src/inventory.rs:375-590 | a scan that ends complete has read exactly the entries visible from the root |
| `Scan.ScanRoot` | src/inventory.rs:330-632 | for every tree, enumeration order, slice schedule, pattern of failures and budget, and for every cap on open readers: entries visited plus remaining equals the budget, no more readers than the cap are open at every iteration (a loop invariant), the loop terminates, marks are closed upwards, a complete scan has visited every entry; when the links of an inode agree, the root is a lower bound and private bytes never exceed what the link counts say is released, a complete scan is exact everywhere if and only if no inode that claims a single link hides another one, and with link counts that cover the visible links aggregates without a mark are exact and truncated ones without an unresolved inode are lower bounds; without failures a budget above the number of entries always completes, and with one equal to it no more directories are cut off than have nothing to read, so it completes when there are none of these, and never when every entry is a directory |
| `Agreement.UnmarkedIsExact` | src/inventory.rs:375-621 | an aggregate that ends without a mark has the directory count, file count and logical, allocated and private bytes of an unbounded error-free scan, even when inodes have links in unvisited branches; in a complete scan this needs that no inode that claims a single link hides another one, in a truncated one that link counts cover the visible links |
| `Agreement.ResolvedIsLowerBound` | src/inventory.rs:959-975 | an aggregate whose marks do not include unresolved links is a lower bound |
| `Agreement.RootIsLowerBound` | src/inventory.rs:330-632 | the root is a lower bound in every scan, whatever link counts are reported |
| `Agreement.PrivateIsFloor` | src/inventory.rs:505-614 | in every scan, truncated or not, private bytes never exceed the sum over inodes that, by their link counts, have no link outside the directory |
| `Agreement.AllLinksMet` | src/inventory.rs:592-600 | in a complete scan, or when as many links were observed as expected and counts cover the visible links, the observed links of an inode are all of them |
| `Agreement.CompleteExactness` | src/inventory.rs:505-614 | the exact condition: a complete scan is exact at every aggregate if and only if no inode that claims a single link has another visible one |
| `Figures.ExactMeans` | src/inventory.rs:711-737 | what exact means, in plain sums: the logical and allocated bytes of everything counted below, one file or inode at a time, whether or not all links of an inode are visible; private bytes only of what has all its links there; the number of those whose private bytes are unknown; the numbers of files and directories |
| `Figures.LowerBoundMeans` | src/inventory.rs:959-975 | a lower bound stays below the same sums |
| `Figures.FloorMeans` | src/inventory.rs:592-614 | the floor of the private bytes is the sum over what has, by its link count, every link below the directory |
| `Figures.CountedAt` | src/inventory.rs:505-555 | an inode with several links is counted at a directory exactly when all its links are below it, and any other file at every directory above it |
| `Figures.KeysIdentify` | src/inventory.rs:506-511 | two entries share a key exactly when both have the same inode number on the same device |
| `Figures.ReleasedWith` | src/inventory.rs:592-614 | an inode that claims several links is released with a directory exactly when as many of its links as it claims are seen below it, and an entry that claims a single one with every directory above it |
| `Determinism.CompleteScansAgree` | src/inventory.rs:330-632 | under that condition two complete scans of one tree report the same aggregates with the same figures, whatever order directories were enumerated in, however slices were scheduled and however many readers could be open (duplicate counts excepted) |
| `Limits.ScanHidden` | src/inventory.rs:505-555 | the condition fails on a valid tree: two links of one inode that claims a single one; the scan completes with a budget of four and without any mark, and is not exact |
| `Limits.FalseLinkCountDependsOnOrder` | src/inventory.rs:505-555 | why: that inode is counted in the directory whose link is read first, so the books of both directories depend on the enumeration order |
| `Limits.ScanFlat` | src/inventory.rs:376-400 | for every n, a scan of a tree of n empty directories completes if and only if its budget exceeds n, even when nothing fails: the number of entries itself is not a sufficient budget |
| `Inventory.ScanFileRoot` | src/inventory.rs:653-709 | a file root costs one entry and is cut off only by an empty budget; its logical and allocated bytes are reported, its private bytes or their being unknown when it has a single link, and none when it has other links |
| `Inventory.ShareCovers` | src/inventory.rs:308-320 | one step of the budget loop: the root gets at least the guaranteed floor and the others keep theirs |
| `Inventory.InventoryWithRootLimit` | src/inventory.rs:286-327 | all roots together never visit more than the maximum and none more than its limit; root i is offered the smaller of its limit and the maximum less the visits of the roots before it, divided by n - i and rounded up, and is cut off only after visiting all it was offered, which is never less than min(per-root limit, floor(maximum / n)); when the last root is cut off, the maximum is spent or its limit is; each report is that of a scan or of a file |
| `GatewayUnits.InventoryUnits` | src/gateway_storage.rs:1250-1297 | the same for storage units that may have disappeared, which use nothing of the budget: a present unit goes unreported only when the maximum is spent |
| `Retained.PathOrder` | src/inventory.rs:855-867 | the path order that breaks ties is a strict total order |
| `Retained.BeforeOrder` | src/inventory.rs:855-867 | byte order with path as tie-break is a strict total order of siblings |
| `Retained.SortedChildren` | src/inventory.rs:855-868 | siblings sorted by preferred bytes, allocated bytes and path |
| `Retained.RanksBy` | src/inventory.rs:859-863 | which sibling comes first: the one with more private bytes, or more allocated ones where private bytes are unknown, then the one with more allocated bytes, then the one whose path is first |
| `Retained.PathBeforeMeans` | src/inventory.rs:859-868 | the path order: at the first component in which two paths differ their names decide, and a path comes before its extensions |
| `Retained.NameBeforeMeans` | src/inventory.rs:859-868 | the name order: the first differing character decides, and a name comes before its extensions |
| `Retained.PositionIsRank` | src/inventory.rs:855-868 | the position of a sorted sibling is the number of siblings before it, so truncation keeps the top k |
| `Retained.RetainedEntries` | src/inventory.rs:821-884 | an aggregate is retained exactly when it and each of its ancestors below the root rank in the top k of their siblings; parents come before children and siblings in order |
| `ExactDelete.StepInv` | src/exact_generated.rs:1078-1195 | every step of every executor, builder and environment keeps the protocol invariant |
| `ExactDelete.BehaviourInv` | src/exact_generated.rs:197-549 | the invariant holds in every state of every interleaving, crashes and refusals included |
| `ExactDelete.OnlyApprovedIsRemoved` | src/exact_generated.rs:1172-1190 | in every run, whatever is removed from the quarantine is the directory that was approved, and its remover holds the guard |
| `ExactDelete.RemovalBegins` | src/exact_generated.rs:1183-1190 | removal starts only on a tree whose identity equals the approved one; a recovered quarantine must also match the approved measurement |
| `ExactDelete.RenameWasApproved` | src/exact_generated.rs:1058-1150 | before a rename its executor saw the candidate with the approved identity and, later, with the approved number of entries and metrics, and held the guard, and for a target the locks, from then to the rename; if the environment did nothing in between, the renamed tree is the approved one |
| `ExactDelete.SuccessMeansGone` | src/exact_generated.rs:1191-1195 | success is declared only when neither candidate nor quarantine is there |
| `ExactDelete.StartsOnOne` | src/exact_generated.rs:336-389 | an executor starts on a candidate without a quarantine, or on a quarantine without a candidate |
| `ExactDelete.SubstituteIsAbandoned` | src/exact_generated.rs:1176-1184 | a substitute swept up by the rename fails verification and is abandoned at once |
| `ExactDelete.AbandonedForever` | src/exact_generated.rs:336-389 | an abandoned quarantine is never changed again, in that run or any later run of the same approval |
| `ExactDelete.OneRenameOneSuccess` | src/exact_generated.rs:414-522 | over any interleaving of executors at most one rename happens and at most one executor succeeds, and success means the approved directory is gone |
| `ExactDelete.EndIsFinal` | src/exact_generated.rs:197-549 | an executor that succeeded or stopped stays so in every later state |
| `ExactDelete.LocksHeldThroughout` | src/exact_generated.rs:439-463 | in every state from the last revalidation to the end of a fresh target removal the executor holds the Cargo locks |
| `ExactDelete.LockInterval` | src/exact_generated.rs:439-463 | the critical section of a fresh target removal is one interval: the locks were free just before it, were taken at its start, and are held in every state from there on |
| `ExactDelete.LocksOnlyThere` | src/exact_generated.rs:439-463 | conversely, an executor owns the locks only for a fresh removal of a target and only inside its critical section |
| `ExactDelete.FourStates` | src/exact_generated.rs:1146-1195 | wherever a run stops, the disk is in one of four states: candidate intact, quarantine intact, quarantine partly removed, both gone |
| `ExactDelete.HopelessForever` | src/exact_generated.rs:336-389 | once the disk is left with a partly removed quarantine or with nothing, no later step of any executor changes it |
| `ExactDelete.RerunRefuses` | src/exact_generated.rs:336-389 | a rerun refuses: no executor started after the disk was left so ever gets past comparing the identity, let alone succeeds |
| `ExactDelete.FirstRunFinishes` | src/exact_generated.rs:197-549 | there is a first run on an intact candidate that goes all the way, with exactly one rename |
| `ExactDelete.EveryRerunFinishes` | src/exact_generated.rs:197-549 | every rerun finishes: from an intact candidate or an intact quarantine, with guard and locks free, an executor that is left alone and does not stop can go on at every point until it succeeds, and it gets there within the number of entries plus twelve steps |
| `ExactDelete.RerunFinishes` | src/exact_generated.rs:197-549 | there is such a run, from either state to success with nothing left |
| `CargoLocks.StepInv` | src/cargo_incremental.rs:464-485 | every step of any number of sweepers and builders keeps the lock bookkeeping: held locks are owned, distinct, and taken in order |
| `CargoLocks.RunInv` | src/cargo_incremental.rs:464-485 | the lock invariant holds in every state of every interleaving |
| `CargoLocks.WaitersHoldNothing` | src/cargo_incremental.rs:597-652 | a sweeper that sleeps, is about to, timed out, failed or returned holds no profile lock |
| `CargoLocks.NoSweeperInACycle` | src/cargo_incremental.rs:597-652 | no sweeper is ever part of a waiting cycle, whatever the builders do |
| `CargoLocks.ActionFollowsRescan` | src/cargo_incremental.rs:464-485 | an action runs only after a rescan, made when every lock was held, that found exactly the non-empty locked set, no profile twice, and every lock of the set stays held from the rescan on |
| `CargoLocks.OutcomeOf` | src/cargo_incremental.rs:464-485 | which outcome follows: a sweeper returns exactly when its action has run to its end, times out exactly when its time was up, and fails exactly at an error or a scan that finds nothing; an outcome never changes |
| `CargoLocks.CurrentExactlyWhenBound` | src/cargo_incremental.rs:597-652 | the held locks are those of the live lock files throughout a run if and only if each was taken while its path still led to the file that was opened |
| `CargoLocks.BoundActionsAreExclusive` | src/cargo_incremental.rs:464-485 | with such locks no two actions share a profile and no builder holds the lock of a profile under action |
| `CargoLocks.StaleLockAdmitsABuilder` | src/cargo_incremental.rs:597-652 | without that condition they can: a profile replaced between opening and locking its lock file passes the rescan, and a builder locks the new file while the action runs |
| `Disks.Disk.RemoveDirAll` | src/cargo_profiles.rs:428-440 | removal leaf by leaf touches nothing outside the tree and succeeds, leaving nothing of it, exactly when there are as many changes left before the crash as the tree has nodes |
| `Disks.Disk.Rename` | src/cargo_profiles.rs:405-412 | a rename moves the whole subtree or, exactly when no change is left before the crash, changes nothing |
| `Disks.RenameIsRenamed` | src/cargo_profiles.rs:405-412 | after a rename exactly the source's nodes stand below the target, and all else is unchanged |
| `Disks.Disk.CreateDirAll` | src/cargo_profiles.rs:388-404 | creating a directory with its parents adds only directories on the way and fails only at a crash or at something that is no directory |
| `ProfileSweep.PlanProfiles` | src/cargo_profiles.rs:52-235 | a plan, in the order of its paths, offers exactly the profiles idle for at least the window of 86400-second days for deletion and exactly the trash entries for recovery, each profile once, and is refused exactly for an unusable trash or an unreadable profile |
| `ProfileSweep.JudgedStale` | src/cargo_profiles.rs:96-216 | only a stale profile is judged deletable |
| `ProfileSweep.AgeReachesWindow` | src/cargo_profiles.rs:195-200 | the age in whole days reaches the window exactly when at least that many times 86400 seconds have passed |
| `ProfileSweep.OpenProfiles` | src/cargo_profiles.rs:482-502 | a profile counts as free exactly when the evidence is complete and every observation on it is the sweeper's own handle on a lock it holds |
| `Quarantines.ValidatedRelative` | src/cargo_profiles.rs:504-538 | a relative path is returned exactly when the directory is where profile and triple say |
| `ProfileSweep.RecoverTrashEntries` | src/cargo_profiles.rs:288-305 | recovery touches only the trash, fails only at a crash or at a trash that is not as planned, and otherwise empties it when every entry is a candidate |
| `ProfileSweep.RemoveEmptyAncestors` | src/cargo_profiles.rs:442-472 | directories left empty by a removal go up to the trash root: only ancestors of the removed path go, the climb stops at the first one that leads to something else, and it fails only at a crash or at something that is no directory |
| `ProfileSweep.Discard` | src/cargo_profiles.rs:418-425 | discarding what a run moved removes nothing but that and the directories on the way to it, fails only at a crash or at a way that is blocked, and otherwise leaves an empty trash |
| `Quarantines.QuarantineOne` | src/cargo_profiles.rs:372-413 | one profile is moved whole below the trash, or at most empty directories are prepared there; it is not moved only at a crash or when the profile is not where the plan says or something is in the way |
| `Quarantines.Quarantine` | src/cargo_profiles.rs:371-416 | at any stop in the locked phase nothing outside the trash is gone but the moved profiles, and each of those is whole under the trash; it stops early only at a crash or an obstruction |
| `ProfileReset.SelectEligible` | src/cargo_profiles.rs:319-369 | of the planned profiles exactly those go on that the refreshed plan still offers, with complete evidence and no foreign handle |
| `ProfileReset.ResetUnderLocks` | src/cargo_profiles.rs:319-426 | the phase from re-planning under the locks to discarding moves every resettable profile and, with no trash before, leaves none; it fails only at a crash, an unreadable profile, a trash made by others or a plan that does not fit |
| `ProfileReset.ExecuteReset` | src/cargo_profiles.rs:279-426 | however an execution ends, nothing outside the trash is gone but profiles moved whole, each stale by the survey under the locks and used by nobody else; uninterrupted, with a plan that fits the disk, the trash is empty at the end even when the locks were not to be had, and with the locks it succeeds and has moved every resettable profile |
| `ProfileReset.WholeOrGone` | src/cargo_profiles.rs:371-425 | no profile is ever partly deleted where it stood: it is intact in place or not there at all |
| `ProfileReset.OwnLockHeld` | src/cargo_profiles.rs:319-369 | with a window of at least a day and unlocked profiles fresh, the lock of every moved profile was held |
| `ProfileReset.SweepOnce` | src/cargo_profiles.rs:52-426 | one planned pass moves only profiles whose newest modification was at least the window of 86400-second days ago when planned and again under the locks, and were used by nobody else, and all of these when it succeeds; uninterrupted, with a bound on the changes it needs, it empties whatever trash earlier crashes left, also when the lock wait times out, and succeeds when it gets the locks |
| `IncrementalSweep.PlanRoots` | src/cargo_incremental.rs:188-295 | the plan for one incremental directory offers exactly the session roots whose newest modification is at least the window of 86400-second days ago for deletion and exactly a trash directory for recovery, nothing when the profile has no lock file, and is refused exactly for an unreadable root |
| `IncrementalSweep.JudgedRoot` | src/cargo_incremental.rs:890-905 | a session root is judged deletable exactly when its newest modification, at or after 1970, is at least window times 86400 seconds ago |
| `IncrementalSweep.QuarantineRoots` | src/cargo_incremental.rs:377-417 | every session root moved was measured stale again under the held lock and is moved whole, and every such candidate is moved; it stops early only at a crash, an unreadable root or an obstruction |
| `IncrementalSweep.EmptyTrash` | src/cargo_incremental.rs:419-439 | old entries and this run's directory are deleted and then the trash itself; only a crash or a trash that is no directory prevents it |
| `IncrementalSweep.SweepDirectory` | src/cargo_incremental.rs:342-449 | without the lock nothing changes; however the sweep of an incremental directory ends, nothing outside its trash is gone but roots moved whole, each unmodified for at least the window by a measurement under the held lock; holding the lock, uninterrupted and with nothing in the way it succeeds, and then no stale candidate and no trash is left |
| `Measuring.SeedResumeMeasurements` | src/generated.rs:409-450 | exactly the identified, incomplete measurements of unchanged roots are carried over, attempts and hints included, and all others start afresh, so that no complete one skips its measurement; the count returned is their number |
| `Measuring.MeasureArtifacts` | src/generated.rs:1323-1475 | complete artifacts are left alone, roots that cannot be inspected fail, and artifacts of one canonical path are measured once together: there is one target for every such path, in lexical order of attempts, carried over or not, larger hints and path; each target is offered exactly its budget of what the earlier ones left, so a pass never visits more than the maximum; in fair mode the budget is the limit or the rounded-up share and at least min(per-root limit, floor(maximum / n)), and when completion is preferred it goes to the first roots in order; a target with a budget takes over what its inventory reports, is complete only without errors and with known private bytes, and counts an attempt only when completion is preferred; one without a budget fails without an attempt |
| `Measuring.AttemptedExactlyWhenLeft` | src/generated.rs:1384-1472 | when completion is preferred, a root gets a budget if and only if the roots ahead of it visit fewer entries than the maximum |
| `Scheduler.CollectRun` | src/generated.rs:704-713 | a run prefers completion exactly when some measurement was carried over |
| `Scheduler.ResumedRun` | src/generated.rs:704-713 | of every run in which no target fails or completes with the budget it got: if some root was measured before, a non-empty set of roots attempted least is attempted; if none was, no attempt is counted; either way some root is measured afterwards |
| `Scheduler.ResumeRuns` | src/generated.rs:618-720 | any sequence of runs, each starting from the manifest of the one before and the first one without, gives a chain of manifests, each led to from the last by such a run |
| `Scheduler.ChainIsHistory` | src/generated.rs:1323-1475 | along every chain of runs in which nothing completes or fails, fewer than 2^64, the attempt counts start from zero and every run raises a non-empty set of the least of them by one |
| `Scheduler.AttemptsStayEven` | src/generated.rs:1370-1430 | in such a history attempt counts never differ by more than one |
| `Scheduler.RunsStayEven` | src/generated.rs:1370-1430 | in every manifest of such runs the attempts of any two roots differ by at most one |
| `Scheduler.NoRootStarves` | src/generated.rs:1370-1430 | in such a history every root is raised within any 2n - 1 consecutive steps |
| `Scheduler.EveryRootIsAttempted` | src/generated.rs:1370-1430 | of any 2n - 1 consecutive runs in which nothing completes or fails, each root is attempted in at least one |
| `Starvation.BoundIsTight` | src/generated.rs:1370-1430 | for every n of at least two, every chain of runs over n roots of two entries with a budget of one passes root 0 over in 2n - 2 consecutive runs, although nothing completes or fails |
| `Starvation.TightRuns` | src/generated.rs:1370-1430 | such runs exist for every n |
| `Starvation.StarvesForever` | src/generated.rs:434-444 | why nothing may complete: in every chain of runs over two roots of two and three entries with a budget of two, the second root is not attempted again from the third run on |
| `Starvation.CompletedRootStaysAhead` | src/generated.rs:434-444 | the step that repeats: a root that completed comes back with no attempts, uses up the budget, and leaves the same manifest behind |
| `Starvation.StarvingRuns` | src/generated.rs:434-444 | such runs exist in any number |
| `Starvation.FailuresStarve` | src/generated.rs:1400-1425 | why nothing may fail: for every f, a root that failed in f runs and then works lets the other one be passed over in f - 1 consecutive runs |
| `Starvation.FailingRuns` | src/generated.rs:1400-1425 | such runs exist for every f |
| `FileUris.ValidatePercentEscapes` | src/gateway_storage.rs:1587-1613 | the loop accepts exactly the strings whose escapes are uppercase and hide no separator |
| `FileUris.DecodeKeepsSeparators` | src/gateway_storage.rs:1587-1613 | decoding such a string neither adds nor removes a separator and creates no backslash |
| `FileUris.AcceptedUris` | src/gateway_storage.rs:1517-1566 | an accepted URI decodes to an absolute UTF-8 path without NUL, backslash, empty or parent component, with as many separators as its encoded form |
| `FileUris.AcceptsExactlySpellings` | src/gateway_storage.rs:1517-1613 | exactly which URIs are accepted as which path: those that write every byte of the path as itself, if it is no control, space or reserved character, or as its uppercase escape, if it is no separator, for an absolute UTF-8 path without NUL, empty component or parent component |
| `FileUris.ValidIsUtf8` | src/gateway_storage.rs:1545-1547 | the UTF-8 check accepts exactly the encodings of sequences of Unicode scalar values |
| `FileUris.EscapedCircumflex` | src/gateway_storage.rs:1531-1544 | a path with a caret, which the encoder leaves bare, is accepted only in its escaped spelling |
| `FileUris.DecodeEncode` | src/gateway_storage.rs:22-32 | percent decoding undoes the encoder on all byte strings |
| `FileUris.EncodeWellEscaped` | src/gateway_storage.rs:22-32 | the encoder writes only canonical escapes |
| `FileUris.EncoderWrites` | src/gateway_storage.rs:22-32 | the encoder leaves exactly the printable ASCII outside its set bare and writes every other byte as its uppercase escape |
| `FileUris.ParseUndoesEncode` | src/gateway_storage.rs:1664-1673 | parsing undoes the encoder on exactly the absolute NUL-free UTF-8 paths without empty or parent component and without backslash, caret or bar, and rejects what it writes for all others |
| `FileUris.InteriorDotIsAccepted` | src/gateway_storage.rs:1558-1564 | a `.` segment between separators is accepted |
| `OwnershipHelper.CanonicalConfigRoots` | src/ownership_helper.rs:753-797 | the allowlist is accepted exactly when every root is a canonical absolute directory, the client is not root and the list is not empty; the result is sorted without repetition |
| `OwnershipHelper.ValidatedRequestRoots` | src/ownership_helper.rs:705-750 | a request is accepted exactly when every root is canonical and allowed; the result is its roots, sorted without repetition |
| `OwnershipHelper.MatchedIndices` | src/ownership_helper.rs:695-702 | looking up the ancestors finds a root exactly when the path starts with it and it is not listed again later |
| `OwnershipHelper.MatcherIsExpected` | src/ownership_helper.rs:695-702 | on every path and every list of roots, repeated or not, the ancestor-hash matcher finds every root that is a prefix once |
| `OwnershipHelper.MatcherIsNaiveExactlyWhenDistinct` | src/ownership_helper.rs:695-702 | it equals testing every root by prefix, on every path, if and only if the roots are distinct |
| `OwnershipHelper.PrivilegedResponse` | src/ownership_helper.rs:618-691 | for any list of roots the response holds every observation with every root it starts with, once and in order, or is a refusal that carries nothing; it is a refusal exactly for an incomplete or foreign capture, too many matches or test evidence that matches |
| `OwnershipHelper.ReportedAreOk` | src/ownership_helper.rs:858-878 | every reported observation passes the client's checks |
| `OwnershipHelper.AcceptedExactlyTrusted` | src/ownership_helper.rs:800-878 | what a client learns from any answer it accepts, whoever sent it: a refusal carries nothing, a complete answer has a hash and no error, its observations lie at or below requested roots, and a status answer lists absolute roots, at least one and none twice, for a client other than root |
| `OwnershipHelper.Answer` | src/ownership_helper.rs:540-566 | a request is answered completely exactly when it is valid and, if it names roots, the capture is whole, trusted, small enough and free of test evidence on them; the answer then holds every captured observation with every requested root its path starts with, and nothing else; every answer passes the client's validation, except a status answer whose configured roots repeat; refusals carry nothing |
| `OwnershipHelper.StatusOfRepeatedRoot` | src/ownership_helper.rs:540-566 | the exception occurs: with one canonical directory configured twice a status request is served, and the client rejects the answer |

## Left out

- File and directory counters of an aggregate are unbounded here and u64 in the source; byte sums saturate as in the source.
- Names are compared by component; case folding, Unicode normalisation and symbolic links in scanned paths are not modelled, and a scanned tree does not change during the scan except that reads may fail.
- Inspecting a directory is one choice: missing, no longer a directory and unopenable are the same failure.
- Error messages, their cap of one hundred, display, JSON, configuration and command lines.
- Readers.DirectoryReader.VisitPortable: a directory item that is itself an error is not modelled; an entry that cannot be inspected is.
- Readers.DirectoryReader.FillPending: a kernel batch that fails after part of it was parsed is not modelled; a call fails as a whole.
- Scan.ScanRoot: for a budget of exactly the number of entries and a tree with some, but not only, idle directories, the contract bounds the directories cut off and leaves open whether there are any; this depends on when they are met.
- Scan.ScanRoot: hardlink duplicate counts are kept but nothing is claimed about them, because they depend on the visiting order.
- Inventory.InventoryWithRootLimit: refuses no empty list of roots and no empty budget, because those checks precede the loop and are preconditions here.
- ExactDelete.StepInv: mount points, source identity, ownership evidence, pressure and the result file only refuse, so they appear as the step that stops an executor; a tree is its identity, its number of entries and its other metrics.
- ExactDelete.AbandonedForever: assumes that nothing but the executors touches the quarantine path and that file identities are not reused, as the approval scheme does.
- ExactDelete.EveryRerunFinishes: assumes the guard and the locks free and nobody else acting; that they become free is up to others.
- CargoLocks.ActionFollowsRescan: a scan may see any set of paths, because files change while it walks; when `cargo metadata` or the walk fails, the sweeper fails.
- CargoLocks.RunInv: does not claim that the outer retry loop ends, because a changing set of profiles can restart it.
- CargoLocks.CurrentExactlyWhenBound: assumes that builders do not replace a lock file while a sweeper holds its lock.
- The single-lock wait of the incremental sweep (`src/cargo_incremental.rs:689-726`) is the `held` input of `IncrementalSweep.SweepDirectory`. It holds no other lock while it sleeps; it opens the lock file once and makes no rescan, so a lock file replaced meanwhile leaves it with a stale lock, as in `CargoLocks.StaleLockAdmitsABuilder`.
- ProfileReset.ExecuteReset: what others do while the locks are awaited is one arbitrary change of the disk; nobody but the sweeper changes the disk while it holds the locks or deletes its trash.
- ProfileReset.SweepOnce: excludes a target triple named like an output directory, which would nest one profile in another.
- ProfileSweep.PlanProfiles: activity is the sampled newest modification time per profile, given as input.
- IncrementalSweep.JudgedRoot: a modification before 1970 has no age, so such a root is never offered; the program reads its time the same way.
- IncrementalSweep.PlanRoots: one directory and its listing; the walk that finds the directories, the ownership of the target by a Cargo manifest and the sort of the joint plan are not modelled.
- IncrementalSweep.SweepDirectory: one lock and directory; the program repeats it for each group.
- A trash directory or entry replaced by a symbolic link between planning and use.
- Scheduler.ResumedRun: roots are distinct and unchanged between runs, and their inspection succeeds; `Measuring.MeasureArtifacts` has neither restriction.
- `discover_requested_roots` (`src/generated.rs:452-485`): the same budget loop as `Inventory.InventoryWithRootLimit`.
- FileUris.AcceptedUris: the Windows drive form of a path.
- OwnershipHelper.PrivilegedResponse: the text of refusals, and message framing, sockets, peers and installation.
- The hash of the helper binary is an input that has the form the program gives it.
- `src/codex_sessions.rs`, `src/github_pr.rs`, `src/codex_migration` and the field validators of manifests: simpler repeats or single branches.
