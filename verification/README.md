# DittoFS metadata service and block lists, in Dafny

DittoFS serves NFS and SMB shares over a metadata service that keeps the
namespace, buffers write metadata, coalesces directory timestamps, records which
blocks hold which bytes of a file, enforces quotas and registers shares. This
project models those parts and proves what they promise over every run, every
schedule and every input, or states exactly when they do.

Each component comes in two layers. A value layer gives the state and one
function per operation, and carries the theorems: invariants of steps and runs,
refinements of a simple form, round trips, conservation. Where the program
changes things in place, a class or a loop does the same changes one by one and
is proved to compute the value layer's functions, failures and rollback
included. Concurrency is a state machine over the critical sections: a run is
any sequence of events, so a theorem about runs covers every interleaving. What
each function of the value layer answers is also stated without naming it, by the
state before and after a step or by the history of the run.

| file | component |
|---|---|
| `Common.dfy` | optional values, maximum, sizes of sets |
| `Namespace.dfy`, `NamespaceEffects.dfy`, `NamespaceTheorems.dfy`, `NamespaceTree.dfy`, `NamespaceStore.dfy` | create, link, unlink, rmdir, rename: effects, link counts, tree shape, transactions |
| `RecycleBin.dfy`, `BinPath.dfy`, `Recycle.dfy`, `Decimal.dfy` | the recycle bin under unlink and rename |
| `LockOrder.dfy`, `CreateRace.dfy`, `RmdirRace.dfy` | deadlock freedom, concurrent creates of one name, rmdir against creates |
| `Sorting.dfy`, `HoleMap.dfy`, `ChunkList.dfy` | data and hole boundaries, chunk-list rewriting |
| `ChunkIds.dfy`, `Manifest.dfy`, `ManifestStore.dfy`, `CarveRun.dfy` | manifest row ids, block commits, carve runs, `File.Blocks` |
| `PendingWrites.dfy`, `FlushLock.dfy` | deferred write commits, truncate against a flush |
| `DirTimes.dfy` | coalesced directory timestamps |
| `ShareRegistry.dfy` | share registration against removal, grace signals |
| `Quota.dfy` | hard and soft limits, grace timers |
| `Cookies.dfy`, `CookieTable.dfy` | the bounded readdir cookie table |
| `HealthCache.dfy` | the single-flight health check |

`dafny verify dfyconfig.toml` checks the whole project.

## Where the code does not do what is expected of it

The model follows the code. In each case below a lemma shows the failing input
or schedule and another gives the exact condition.

- Rename does not check that its target lies outside the moved directory:
  `NestingRenameSucceeds`; the tree is kept exactly when it does (`RenameKeepsTree`).
  Among all calls only that, and a failed listing that lets a directory with
  subdirectories be deleted, harm the tree (`StepKeepsTree`).
- A directory renamed over an empty directory leaves the destination parent's
  link count one too high: `ReplacedDirectoryDrifts`. The invariant carries that
  drift (`RenameKeeps`), and a directory's count is right exactly when no such
  rename happened in it (`DirectoryCountExact`).
- A failed link-count read or directory listing is ignored by create, link,
  unlink, rmdir and the rename checks: `FailedCountReadHarms`, `FailedListingHarms`.
  `StepKeepsInv` says which such failures harm the counts, in both directions.
- Rmdir lists the directory before its transaction, and create looks for its parent
  before its own, with no lock in common. An rmdir can delete what a create has just
  made, and a create can leave an entry in a directory that is gone:
  `FilledDirectoryDeleted`, exactly when `RmdirDeletesExactly` and
  `CreateIntoDeleted` say.
- Rename does not take the create-name lock, so a create can overwrite an entry a
  rename landed after the recheck: `RenameCanBeOverwritten`. The recheck inside the
  transaction takes any failed read for an absent name, so a create can overwrite a
  create: `CreateCanBeOverwritten`. `OverwritesExactly` says exactly when either
  happens.
- A node in the recycle bin is promised to carry DeletedAt always
  (pkg/metadata/file_recycle.go:44-48). Renaming a file over another link of itself
  writes back a row read before the stamp: `RenameOverOwnLink`. Rolling back a failed
  recycle clears the stamp of a node with another link in the bin:
  `RollbackUnstampsBin`. `RecycleSafe` and `ReplaceSafe` give the exact conditions
  before the call, and `StepStamped` says nothing else breaks the promise.
- The flush-lock table drops its entry while the mutex is held, so a flush can
  undo a finished truncate: `TruncateIsUndone`, exactly when `TruncateUndone`
  says. With one lasting lock per file it cannot happen: `DiscardIsFinal`.
- `InvalidateCache` drops an entry that holds nothing but a setuid clear:
  `ClearCanBeLost`. A truncate by root discards a buffered clear and writes the bits
  back: `TruncateCanLoseClear`. Among writes, flushes, cache events and truncates these
  are the only events that lose anything: `StepAccounts`.
- An explicit directory-time set stores the row and then drops the pending entry, and
  with it bumps that came in between: `BumpCanBeDropped`, exactly when `SetDropsBumps`
  says.
- A chunk straddling a truncation point keeps its tail, so a later ALLOCATE
  exposes old bytes although pkg/metadata/sparse.go:111-123 speaks of zeros:
  `TruncatedTailReturns`, exactly when `GrowthIsHole` says.
- SETATTR and DEALLOCATE rewrite `File.Blocks` and leave the manifest rows it is the
  projection of. It stays the projection exactly when nothing was dropped
  (`RewriteLeavesProjection`), and the file's next commit or reap brings back exactly
  what was (`ProjectionUndoesRewrite`).
- A carve run writes no manifest row for a chunk whose content is durable already,
  but keeps the reap from deleting whatever row starts there. A chunk made durable
  by another file leaves a gap or an old row: `DedupedChunkIsNotRead`. The span reads
  as carved exactly when `CarveInside` says.
- An old manifest row that crosses into a carve span overlaps what the run made
  (`CarveTiles`, and without any condition on deduplication `CarveNoOverlap`), and one
  that crosses out of it takes bytes past the span's end with it (`CarveOutside`),
  exactly then: `RowCrossesIn`, `RowCrossesOut`.
- A chunk reference whose end passes 2^64 wraps and counts as holding no byte;
  everything about holes and data is proved in that arithmetic.
- A registration in grace that loses to a published one never signals the end of
  its grace, so starts and ends of grace balance exactly when no registration lost
  that way: `CoordinatorReleased`. Behind a winner in grace the comment at
  pkg/metadata/service.go:423-429 takes the extra start to be void at the
  coordinator. Behind a winner that is not in grace the coordinator has heard a start
  and never hears an end: `CoordinatorCanWedge`.
- One grace timer serves bytes and files, so growth on one axis within its limits
  stops a timer the other axis started, exactly when `OneAxisRelievesBoth` says.
  Usage is still over, and the next breach gets a whole new grace period:
  `GraceRestarts`, with an instance in `GraceCanBeReset`.
- A failed usage lookup never refuses (`FailedLookupAdmits`), so an identity can pass
  its hard limit, exactly when `AdmittedUnderExact` says.
- The comment on `dynGrace` (pkg/metadata/quota_limits.go:55-61) says default-user
  timers are not persisted; the enforcer persists them, and `PersistedTimersAgree`
  is about what it does.
- `Invalidate` of the health cache is documented to keep a probe in flight from
  storing its result; it does not: `InvalidateMissesInflight`. Later cached answers
  are all from later probes exactly when no probe was in flight: `InvalidateExact`.

## Model

| member | source | states |
|---|---|---|
| `NamespaceStore.Service.CreateEntry` | pkg/metadata/file_create.go:207-503 | create, mkdir, symlink and mknod write by write: success is the created entry, row, parent edge and counts; any failing store write leaves the namespace as it was; without store failures the error is the first check that fails |
| `NamespaceStore.Service.CreateHardLink` | pkg/metadata/file_create.go:80-204 | the same for hard links: directories and existing names refused, one more link; the recheck inside the transaction is in `CreateRace.dfy` |
| `NamespaceStore.Service.RemoveFile` | pkg/metadata/file_remove.go:28-241 | the same for unlink: the entry goes, the count drops or reaches zero and the row stays |
| `NamespaceStore.Service.RemoveDirectory` | pkg/metadata/directory.go:127-287 | the same for rmdir: row, edge and entry go, the parent's count drops |
| `NamespaceStore.Service.RemoveTarget` | pkg/metadata/file_modify.go:821-857 | the overwritten destination inside a rename's transaction; says when it must succeed and when it cannot |
| `NamespaceStore.Service.Relink` | pkg/metadata/file_modify.go:859-902 | the moved entry, its parent edge and the ".." counts; aborts when the source entry is gone or a count cannot be read |
| `NamespaceStore.Service.Move` | pkg/metadata/file_modify.go:599-947 | rename as a whole: success is the value-layer rename, failure leaves the namespace unchanged, without store failures the error is the first check that fails |
| `NamespaceStore.Transaction.DropFile` | pkg/metadata/store/memory/transaction.go:368-404 | deleting a row takes its parent edge, its own entries and its count along |
| `NamespaceEffects.InvalidNameExactly` | pkg/metadata/validation.go:136-153 | a call is refused for a name if and only if one of its names is not of 1 to 255 characters, is a dot name, or holds a slash or NUL |
| `NamespaceEffects.CreateSucceeds` | pkg/metadata/file_create.go:207-300 | a create gets to its transaction if and only if the name is a component, the parent a directory, permission given and the name free |
| `NamespaceEffects.LinkSucceeds` | pkg/metadata/file_create.go:80-144 | a link, if and only if also the target is a file |
| `NamespaceEffects.UnlinkSucceeds` | pkg/metadata/file_remove.go:28-160 | an unlink, if and only if the name is a file in a directory and permission is given |
| `NamespaceEffects.RmdirSucceeds` | pkg/metadata/directory.go:127-231 | an rmdir, if and only if the name is another directory that is empty or could not be listed |
| `NamespaceEffects.RenameSucceeds` | pkg/metadata/file_modify.go:599-857 | a rename, if and only if both names and parents pass, the source exists, and what stands at the target may be replaced |
| `NamespaceEffects.ErrorMeans` | pkg/metadata/errors/errors.go:17-50 | what an error says about the state the call found: the name exists, the directory has an entry, permission was denied |
| `NamespaceEffects.CreateEffect` | pkg/metadata/file_create.go:435-478 | a create adds exactly one entry, row and edge, and says every link count after it |
| `NamespaceEffects.LinkEffect` | pkg/metadata/file_create.go:155-196 | after a link the name resolves to the target, every other entry, row and edge is as before, and only the target counts one more |
| `NamespaceEffects.UnlinkEffect` | pkg/metadata/file_remove.go:162-219 | an unlink takes away exactly the named entry, keeps all rows and edges, and only the file counts one less |
| `NamespaceEffects.RmdirEffect` | pkg/metadata/directory.go:232-263 | an rmdir takes away the entry, the row, its edge and count and whatever a failed listing hid, and nothing else |
| `NamespaceEffects.RenameEffect` | pkg/metadata/file_modify.go:801-918 | after a rename the target resolves to the moved node, the source is gone, every other entry stays |
| `NamespaceEffects.RenameEdges` | pkg/metadata/file_modify.go:821-902 | no row goes but a replaced directory, and the one edge rewritten is that of a node changing directories |
| `NamespaceTheorems.CreateKeeps` | pkg/metadata/file_create.go:435-478 | a create keeps well-formedness and exact link counts if and only if a new directory's parent count could be read |
| `NamespaceTheorems.LinkKeeps` | pkg/metadata/file_create.go:155-196 | a link keeps them if and only if an ignored failed count read would have read zero |
| `NamespaceTheorems.UnlinkKeeps` | pkg/metadata/file_remove.go:162-219 | an unlink keeps them if and only if an ignored failed count read would have read one |
| `NamespaceTheorems.RmdirKeeps` | pkg/metadata/directory.go:232-263 | an rmdir keeps them if and only if the parent's count could be read and the directory was empty, also when the listing failed |
| `NamespaceTheorems.RenameKeeps` | pkg/metadata/file_modify.go:801-918 | a committed rename keeps them, counting a replaced directory as drift of its parent, if and only if the replaced directory was empty |
| `NamespaceTheorems.DeleteNonEmptyDir` | pkg/metadata/directory.go:208-252 | deleting a directory that still has an entry always breaks the invariant, whatever the drift |
| `NamespaceTheorems.RenameLinkCount` | pkg/metadata/file_modify.go:828-901 | the count of every surviving row after a rename |
| `NamespaceTheorems.StepKeepsInv` | pkg/metadata/file_modify.go:801-918 | any call keeps the invariant if and only if the fault it meets is harmless, a condition on the state before the call |
| `NamespaceTheorems.RunKeepsInv` | pkg/metadata/file_modify.go:801-918 | after every run each file counts the entries naming it, each directory 2 plus its subdirectories plus the directories renames replaced in it |
| `NamespaceTree.RenameKeepsTree` | pkg/metadata/file_modify.go:859-902 | a rename keeps every directory connected to the root if and only if its target is not inside the moved directory |
| `NamespaceTree.RenameTree` | pkg/metadata/file_modify.go:821-902 | a rename, also over a directory whose listing failed, keeps the tree if and only if it does not nest and the replaced directory holds no subdirectory |
| `NamespaceTree.RmdirTree` | pkg/metadata/directory.go:208-252 | an rmdir keeps the tree if and only if the directory holds no subdirectory, whatever the counts |
| `NamespaceTree.StepKeepsTree` | pkg/metadata/file_modify.go:859-902 | any call, with any faults and on a state with any counts, keeps the tree if and only if it neither nests a directory in itself nor deletes one with subdirectories |
| `NamespaceTree.UnsafeListingFailed` | pkg/metadata/directory.go:208-216 | the second needs a failed listing |
| `NamespaceTree.RunKeepsTree` | pkg/metadata/file_create.go:445-476 | every run without those two kinds of call, failed count reads and harmless failed listings included, keeps one entry per directory, the parent edge naming its holder, and connection to the root |
| `NamespaceTree.CycleNeverReachesRoot` | pkg/metadata/file_modify.go:874-878 | after a rename into its own subtree, nothing of that subtree reaches the root in any number of steps |
| `NamespaceTree.ShareLinkCounts` | pkg/metadata/directory.go:232-263 | from a new share, without replaced directories, the final namespace is a tree with exactly the POSIX link counts |
| `NamespaceTree.DirectoryCountExact` | pkg/metadata/file_modify.go:822-857 | after any run from a new share, a directory's count is the POSIX one if and only if no rename replaced a directory in it |
| `NamespaceTree.ReplacedDirectoryDrifts` | pkg/metadata/file_modify.go:822-857 | mkdir a, mkdir b, rename a over b leaves the root with one subdirectory and a count of four |
| `NamespaceTree.NestingRenameSucceeds` | pkg/metadata/file_modify.go:599-947 | mkdir a, mkdir a/b, rename a to a/b/c succeeds and cuts a off |
| `NamespaceTree.FailedCountReadHarms` | pkg/metadata/file_create.go:179-183 | linking a file whose count cannot be read leaves two entries and a count of one |
| `NamespaceTree.FailedListingHarms` | pkg/metadata/directory.go:208-216 | removing a directory that cannot be listed leaves its subdirectory without an entry |
| `Recycle.CandidatesDistinct` | pkg/metadata/file_recycle.go:208-231 | the names tried in the bin never repeat, for any original name and time |
| `Recycle.CandidateForms` | pkg/metadata/file_recycle.go:208-231 | the three forms for a file named a deleted at 12: a, a (12), a (12-2) |
| `Recycle.FreeBinName` | pkg/metadata/file_recycle.go:208-231 | the name found is the first free one of the plain name, the name with the time, and the name with the time and a counter; none is found only if the directory has at least 1000 entries |
| `Recycle.TrashService.EnsureChildDir` | pkg/metadata/file_recycle.go:134-162 | resolves the child, or creates it when it is absent or cannot be looked up and looks again; makes at most this directory; says when the result may not be a directory, and that with nothing refused and nothing but a directory in the way it succeeds |
| `Recycle.TrashService.EnsureBinPath` | pkg/metadata/file_recycle.go:62-85 | the directory it returns is reached from the root through the bin and the names of the original path; it makes directories alone; with nothing refused it succeeds whenever what exists of the path is directories |
| `Recycle.TrashService.RecycleNode` | pkg/metadata/file_recycle.go:50-129 | does one recycle step of the bin's value layer: on success the victim is stamped and sits in the mirrored directory under the first free name, whichever step fails it is still at its own name, no other entry moves; with nothing refused it fails only for a full directory or a rename that fails; at most one nested Move |
| `Recycle.TrashService.StampAndMove` | pkg/metadata/file_recycle.go:95-117 | stamp, move, and on a failed move the rollback that may itself fail; exactly which rows carry the stamp afterwards |
| `Recycle.TrashService.Move` | pkg/metadata/file_modify.go:656-918 | rename with the bin, the row of the renamed node written back as it was read before the recycle: neither node is ever lost, the overwritten one is at its name or in the bin, and its stamp is given; without an overwrite it is plain rename, with its errors; the recursion ends after one nested Move |
| `Recycle.RenameAfterRecycle` | pkg/metadata/file_modify.go:754-766 | once the overwritten file is in the bin the outer rename lands on a free name and no longer depends on a count read; the stamps it leaves |
| `Recycle.RecyclesExactly` | pkg/metadata/file_modify.go:748-766 | a rename recycles if and only if the bin is on, the target is a file that the rename could replace, and its path is not in the bin |
| `BinPath.GrowthTree` | pkg/metadata/file_recycle.go:134-162 | making directories, any number of them, keeps the namespace a tree |
| `BinPath.GrowthKept` | pkg/metadata/file_recycle.go:134-162 | and moves no entry and drops no row |
| `BinPath.GrowthInv` | pkg/metadata/file_recycle.go:134-162 | and keeps every link count exact when counts can be read |
| `BinPath.PathStep` | pkg/metadata/file_recycle.go:73-85 | one directory further the path still leads there and the rest of it is still passable, whatever was made on the way |
| `RecycleBin.RecycleEffect` | pkg/metadata/file_recycle.go:95-117 | however a recycle ends: which rows carry the stamp, and for one that ends in the bin exactly which entry moved |
| `RecycleBin.StepStamped` | pkg/metadata/file_recycle.go:44-49 | any recycle, recycling rename, failure or other call leaves every bin entry placed by recycling stamped if and only if it is not one of two kinds of event |
| `RecycleBin.RunStamped` | pkg/metadata/file_recycle.go:44-49 | over every run without those events, every bin entry that recycling placed and that is still there names a live, stamped row |
| `RecycleBin.StepTree` | pkg/metadata/file_recycle.go:102-106 | a recycle keeps the namespace a tree if and only if the bin path is not below the directory it moves; a recycling rename always does |
| `RecycleBin.RecycleSafe` | pkg/metadata/file_recycle.go:102-117 | whatever the outcome of a recycle, the bin stays stamped if and only if the victim has no other link in the bin before the call |
| `RecycleBin.ReplaceSafe` | pkg/metadata/file_modify.go:657-661 | the same for a recycling rename, which also needs the two names to be of different nodes, or the node to be stamped already |
| `RecycleBin.ReplaceStamps` | pkg/metadata/file_modify.go:904-915 | the final row write undoes the stamp exactly when the renamed and the overwritten node are one |
| `RecycleBin.RenameOverOwnLink` | pkg/metadata/file_modify.go:904-915 | create a, link a b, rename a over b: the node in the bin is not stamped |
| `RecycleBin.RollbackUnstampsBin` | pkg/metadata/file_recycle.go:183-196 | recycle a, then fail to recycle its other link b: the node in the bin is not stamped |
| `LockOrder.ProgramsOrdered` | pkg/metadata/service.go:921-949 | every operation takes create-name, parent-link, write-flush and directory-flush locks in one strict order, whatever the shard functions |
| `LockOrder.RenameDirOrdered` | pkg/metadata/file_modify.go:785-793 | also for two parents, in either shard order or in one shard |
| `LockOrder.TakesExactly` | pkg/metadata/service.go:921-981 | an operation takes a lock if and only if it needs it: the name's shard to create a name, the parent's to change its count, the file's or directory's flush lock |
| `LockOrder.RunInv` | pkg/metadata/service.go:1021-1035 | in every schedule a lock has one holder and each operation's remaining acts stay ordered |
| `LockOrder.NoCyclicWait` | pkg/metadata/service.go:921-981 | no reachable state has a cycle of operations each waiting for the next |
| `LockOrder.SomeThreadCanAdvance` | pkg/metadata/service.go:921-981 | while an operation is unfinished, some operation can move |
| `CreateRace.CommitSeparates` | pkg/metadata/file_create.go:435-463 | one commit keeps two creates of a name separated if and only if it does not go over a create that its recheck could not read |
| `CreateRace.CreatesSeparated` | pkg/metadata/service.go:951-981 | for every schedule and shard function without such a commit, two successful creates of one name have a removal of it, or a rename onto it, between them |
| `CreateRace.RemovalBetweenCreates` | pkg/metadata/file_create.go:425-479 | with every recheck readable and no renames it is a removal |
| `CreateRace.OverwritesExactly` | pkg/metadata/file_create.go:145-197 | a create about to commit finds its name taken, and overwrites it, if and only if the last commit on the name is a rename's, or a create's that its recheck could not read |
| `CreateRace.NothingOverwritten` | pkg/metadata/file_create.go:425-479 | with every recheck readable and no renames, no create overwrites anything |
| `CreateRace.CreateCanBeOverwritten` | pkg/metadata/file_create.go:436-443 | a schedule in which a create overwrites a create |
| `CreateRace.RenameCanBeOverwritten` | pkg/metadata/file_modify.go:785-801 | a schedule in which a create overwrites what a rename landed |
| `CreateRace.UncontendedCreate` | pkg/metadata/file_create.go:425-479 | with nobody in the way a create of a free name makes it, one of a taken name changes nothing, and the lock is given back |
| `RmdirRace.RmdirDeletesExactly` | pkg/metadata/directory.go:208-252 | for every schedule, an rmdir about to commit after a readable listing deletes an entry if and only if it was created after the listing and not removed since |
| `RmdirRace.CreateIntoDeleted` | pkg/metadata/file_create.go:228-248 | a create that found its directory leaves its entry in one that is gone if and only if an rmdir committed in between |
| `RmdirRace.FilledDirectoryDeleted` | pkg/metadata/directory.go:208-252 | schedules from a new directory in which each happens |
| `RmdirRace.UncontendedCalls` | pkg/metadata/directory.go:208-252 | with nobody in the way a create fills a live directory, and an rmdir removes it if and only if it is empty or cannot be listed |
| `HoleMap.HoldsExactly` | pkg/block/holemap.go:46-66 | a reference holds the bytes from its offset to offset plus size, and none at all if that end is not a 64-bit number |
| `HoleMap.ExtentsCorrect` | pkg/block/holemap.go:46-85 | for any references in any order: strictly separated extents below the file size that hold exactly the covered bytes |
| `HoleMap.CanonicalExtents` | pkg/block/holemap.go:46-85 | that form is unique |
| `HoleMap.ExtentsDependOnCoverage` | pkg/block/holemap.go:46-85 | so order and duplicates of references never matter |
| `HoleMap.MergeInPlace` | pkg/block/holemap.go:68-84 | the compaction inside the array being read equals the merge of what it held |
| `HoleMap.NormalizedExtents` | pkg/block/holemap.go:46-85 | the clamp, sort and in-place merge compute the canonical extents |
| `HoleMap.SegmentsExtents` | pkg/block/holemap.go:102-123 | the segment loop computes the segmentation that the extents determine |
| `HoleMap.SegmentsCorrect` | pkg/block/holemap.go:92-123 | segments tile the file with alternating kinds and are right on every byte (READ_PLUS, section 15.10 of RFC 7862) |
| `HoleMap.NextDataOffset` | pkg/block/holemap.go:139-153 | the least data byte at or after the position, found exactly if there is one (SEEK, section 15.11 of RFC 7862) |
| `HoleMap.NextHoleOffset` | pkg/block/holemap.go:169-186 | the least hole byte at or after the position, end of file counting as a hole, found exactly before end of file |
| `HoleMap.SeekAgreesWithSegments` | pkg/block/holemap.go:92-186 | a sought offset lies in a segment of the sought kind and every segment passed over is of the other kind |
| `ChunkList.MergeByOffset` | pkg/block/types.go:175-200 | the result is, in offset order, the incoming references and the old ones that overlap none of them, with their multiplicities |
| `ChunkList.MergeSources` | pkg/block/types.go:175-200 | on bytes the incoming references hold they alone are read; elsewhere exactly the old references clear of them |
| `ChunkList.OverlapsExactly` | pkg/block/types.go:175-200 | two references that hold bytes overlap if and only if they share one |
| `ChunkList.MergeKeeps` | pkg/block/types.go:175-200 | an old reference stays if and only if it shares no byte with an incoming one |
| `ChunkList.MergeCoverage` | pkg/block/types.go:175-200 | coverage is lost exactly on bytes of overlapped old references that nothing kept holds |
| `ChunkList.MergeNonOverlapping` | pkg/block/types.go:164-200 | merging non-overlapping lists gives a sorted non-overlapping list |
| `ChunkList.PruneToSize` | pkg/block/types.go:217-229 | keeps exactly the references that begin below the size, in offset order |
| `ChunkList.PruneCoverage` | pkg/block/types.go:206-229 | what a truncated list covers, bytes past the new size included |
| `ChunkList.PruneKeepsSegments` | pkg/block/types.go:206-229 | truncating leaves the segmentation below the new size unchanged |
| `ChunkList.GrowthIsHole` | pkg/metadata/sparse.go:111-172 | a later growth reads as a hole if and only if no kept reference straddles the truncation point |
| `ChunkList.Punch` | pkg/block/holemap.go:207-232 | drops exactly the references wholly inside the range |
| `ChunkList.PunchSources` | pkg/block/holemap.go:188-232 | no byte outside the range changes its source, and inside only swallowed references go |
| `ChunkList.SparseFile.SetSize` | pkg/metadata/file_modify.go:429-472 | the size is set; a truncate prunes and keeps the segmentation below it; a growth keeps the list |
| `ChunkList.SparseFile.PunchHole` | pkg/metadata/sparse.go:48-109 | DEALLOCATE (section 15.4 of RFC 7862): which error, size unchanged, no source outside the range changes, exactly the swallowed references go |
| `ChunkList.SparseFile.Allocate` | pkg/metadata/sparse.go:124-172 | ALLOCATE (section 15.1 of RFC 7862): which error, the size grows to cover the range and never shrinks, old data stays data |
| `ChunkList.RangeOverflowsExactly` | pkg/metadata/sparse.go:174-179 | a range is refused if and only if its end is not a 64-bit number |
| `ChunkList.TruncatedTailReturns` | pkg/metadata/sparse.go:111-172 | write 10 bytes, truncate to 4, allocate to 20: bytes 4 to 9 are data again |
| `ChunkIds.ChunkIdRoundTrip` | pkg/block/ids.go:7-26 | formatting a payload and offset and parsing the id gives both back |
| `ChunkIds.ParseOffsetExactly` | pkg/block/ids.go:7-26 | an id names an offset if and only if it is some payload, a slash and digits that write the offset modulo 2^64 |
| `ChunkIds.PayloadExactly` | pkg/block/ids.go:7-26 | the payload is what stands before the last slash |
| `ChunkIds.FindSlash` | pkg/block/ids.go:7-26 | the backward scan finds the last slash |
| `ChunkIds.ParseDigits` | pkg/block/ids.go:7-26 | the digit loop accepts exactly digit strings and computes their value modulo 2^64 |
| `ChunkIds.ParseChunkOffset` | pkg/block/ids.go:7-26 | parsing succeeds exactly on ids with digits after their last slash, and gives that number |
| `Decimal.ValueFormat` | pkg/block/ids.go:17-25 | printing and reading a number gives it back |
| `Manifest.RunIsFirsts` | pkg/metadata/block_record_store.go:130-176 | any sequence of commits with repeats, retries and rollbacks leaves exactly what the first successful commit of each block leaves |
| `Manifest.RowIsLast` | pkg/metadata/block_record_store.go:151-158 | rows are written with the hash and size they come with: the last chunk naming an id decides, and an id no chunk names keeps its row |
| `Manifest.RunRowsAreLast` | pkg/metadata/block_record_store.go:130-176 | after any sequence of commits each row is that of the last chunk naming its id among the first successful commits, or the old one |
| `Manifest.RunRecords` | pkg/metadata/block_record_store.go:130-176 | after any sequence of commits a block has the record it had, or else that of its first successful commit, or none |
| `Manifest.OneCommit` | pkg/metadata/block_record_store.go:130-176 | an instance: record, row and locator of one chunk on an empty store |
| `Manifest.RunLocators` | pkg/metadata/block_record_store.go:155-172 | each hash's locator is from the last of those commits that names it, or the old one |
| `Manifest.InstallAllAdds` | pkg/metadata/block_record_store.go:130-176 | splitting a commit into batches changes neither rows nor locators |
| `Manifest.ReapExactly` | pkg/metadata/block_record_store.go:198-225 | a row goes if and only if it is of the file, starts in the span at a signed offset and not at one of the given offsets |
| `Manifest.CarveRows` | pkg/metadata/block_record_store.go:198-225 | after commit and reap exactly the run's own rows remain, and the old rows starting outside the span or at a chunk for which no row was written, with their contents |
| `Manifest.CarveNoOverlap` | pkg/metadata/block_record_store.go:178-225 | no byte is held twice if and only if no surviving old row shares one with a new row |
| `Manifest.CarveTiles` | pkg/metadata/block_record_store.go:178-225 | where every chunk has a row, new or from before, no byte is held twice if and only if no old row reached into the span |
| `Manifest.CarveInside` | pkg/block/journal/carve.go:360-433 | every byte of the span reads from the chunk the run made for it, and from nothing else, if and only if no old row reached in and every deduplicated chunk has its row from before |
| `Manifest.CarveOutside` | pkg/metadata/block_record_store.go:178-225 | outside the span every byte reads from the same old rows if and only if no old row that went or was replaced reached past the end |
| `Manifest.RedrivenRun` | pkg/block/journal/carve.go:360-433 | driving a finished run again, when all its chunks are durable and it writes nothing, changes no row |
| `Manifest.DedupedChunkIsNotRead` | pkg/block/journal/carve.go:365-392 | a chunk durable through another file leaves a gap, or the old content where a row starts |
| `Manifest.RowCrossesIn` | pkg/metadata/block_record_store.go:178-225 | an old row of bytes 0 to 7 and a run over 4 to 11: bytes held twice |
| `Manifest.RowCrossesOut` | pkg/metadata/block_record_store.go:178-225 | an old row of bytes 4 to 11 and a run over 0 to 7: bytes lost |
| `Manifest.CarveRunRows` | pkg/metadata/block_record_store.go:130-225 | a carve run in any number of batches with any retries, then reaped with the offsets of all its chunks, does this to the file's rows and leaves other files' rows alone |
| `CarveRun.ProjectionReads` | pkg/metadata/block_record_store.go:35-69 | what File.Blocks reads at a byte is exactly what the file's rows hold there |
| `CarveRun.BlocksAfterRun` | pkg/metadata/block_record_store.go:178-225 | through File.Blocks each byte of the span reads from the run's chunk if and only if no old row reached in and every chunk has a row, and each byte outside as before if and only if no old row reached out |
| `CarveRun.CarveOnto` | pkg/block/journal/carve.go:250-435 | the overlapping commits of a run and, if packing and all of them succeeded, its reap on the store: rows and every block list as specified, with that conclusion for the carved file |
| `CarveRun.RewriteLeavesProjection` | pkg/metadata/file_modify.go:443-447 | a truncate or punch of File.Blocks leaves it the projection of the rows if and only if it drops nothing |
| `CarveRun.ProjectionUndoesRewrite` | pkg/metadata/block_record_store.go:35-69 | the next projection brings back exactly the references it dropped, on every byte |
| `ManifestStore.ManifestToChunkRefs` | pkg/metadata/block_record_store.go:16-33 | the parseable rows' references in offset order, with multiplicity |
| `ManifestStore.ListingProjects` | pkg/metadata/block_record_store.go:43-69 | projecting any listing of the rows, in any order, gives the projection |
| `ManifestStore.BlocksCarryRows` | pkg/metadata/block_record_store.go:16-33 | a reference stands in File.Blocks if and only if a row of the file starts at its offset with its hash and size |
| `ManifestStore.BlockStore.ProjectManifestToBlocks` | pkg/metadata/block_record_store.go:43-69 | one file's block list becomes the sorted projection of its rows; other files keep theirs |
| `ManifestStore.BlockStore.Commit` | pkg/metadata/block_record_store.go:130-176 | a commit changes the store as specified or not at all and keeps every file's block list the projection of its rows |
| `ManifestStore.BlockStore.ReapSuperseded` | pkg/metadata/block_record_store.go:198-225 | the row-by-row reap equals the specified one and keeps every block list the projection |
| `PendingWrites.PendingWritesTracker.GetFlushLock` | pkg/metadata/pending_writes.go:57-68 | the table's mutex, or a new one entered into it |
| `PendingWrites.PendingWritesTracker.RecordWrite` | pkg/metadata/pending_writes.go:77-114 | size by maximum, first mtime kept, setuid clear latched, other files untouched |
| `PendingWrites.PendingWritesTracker.PopPending` | pkg/metadata/pending_writes.go:184-202 | the state goes, and with it the lock table's entry |
| `PendingWrites.PendingWritesTracker.RestorePending` | pkg/metadata/pending_writes.go:211-240 | a popped state merges with what was recorded since |
| `PendingWrites.PendingWritesTracker.SetCachedFile` | pkg/metadata/pending_writes.go:165-180 | only the cached file changes |
| `PendingWrites.PendingWritesTracker.InvalidateCache` | pkg/metadata/pending_writes.go:307-325 | the cached file goes; an entry that looks empty goes whole |
| `PendingWrites.StepAccounts` | pkg/metadata/io.go:230-472 | every write, flush step, cache event and truncate keeps stored, buffered and in-flight state accounting for what immediate commits would have stored, if and only if it does not drop the only record of a setuid clear |
| `PendingWrites.MergedReadIsImmediate` | pkg/metadata/service.go:887-902 | whenever no flush is in flight a merged read equals immediate commit, for size and setuid/setgid |
| `PendingWrites.SizesConserved` | pkg/metadata/pending_writes.go:184-240 | under every interleaving the largest of stored, buffered and in-flight sizes is the largest of the starting size, or the last truncate's, and all writes since |
| `PendingWrites.ImmediateIs` | pkg/metadata/io.go:298-360 | what immediate commits store between truncates: the largest of the start and the sizes written, and the setuid bits unless a non-root write came |
| `PendingWrites.TruncateIs` | pkg/metadata/file_modify.go:550-569 | a truncate starts over with its own size and nothing buffered |
| `PendingWrites.WritesLeave` | pkg/metadata/pending_writes.go:77-114 | a run of writes leaves the time of its first write that has one, the pre-write mark and no cached file |
| `PendingWrites.FailedFlushLeaves` | pkg/metadata/pending_writes.go:211-240 | a flush that fails after writes came: their first time wins, else the popped one stands; mark and cached file are not lost |
| `PendingWrites.RetriesLeave` | pkg/metadata/pending_writes.go:184-240 | after any number of failed flushes with any writes in between, the time left is that of the latest round that has one, or the one before them all |
| `PendingWrites.PopLeaves` | pkg/metadata/io.go:389-407 | a pop takes the state if and only if there is something to write; otherwise the cached file alone stays |
| `PendingWrites.CommitLeaves` | pkg/metadata/io.go:409-424 | an accepted flush leaves the writes made since as they are and keeps its cached file |
| `PendingWrites.CacheLeaves` | pkg/metadata/pending_writes.go:165-325 | caching and invalidating change the cached file alone, but an entry without mark and size goes |
| `PendingWrites.WriteTouchesRow` | pkg/metadata/io.go:230-268 | a write changes the stored row if and only if it is a non-root one that saw the bits and whose clear commits |
| `PendingWrites.ClearCanBeLost` | pkg/metadata/pending_writes.go:307-325 | a concrete run in which a cache invalidation loses a setuid clear |
| `PendingWrites.TruncateCanLoseClear` | pkg/metadata/file_modify.go:550-569 | and one in which a truncate by root does |
| `FlushLock.RunExclusive` | pkg/metadata/io.go:384-414 | with one lasting lock per file, only its holder is inside |
| `FlushLock.DiscardIsFinal` | pkg/metadata/file_modify.go:550-569 | then, after the discard of a truncate or last unlink, only later writes and truncates can raise the stored size, in every schedule of writes, flushes, truncates and unlinks |
| `FlushLock.RunBounded` | pkg/metadata/io.go:437-472 | no schedule shows a size that no write, pop or truncate brought in |
| `FlushLock.SizesKept` | pkg/metadata/io.go:384-472 | and in every schedule of writes and flushes, failed ones included, the largest of the starting size and the sizes written is stored, buffered or in a flush under way |
| `FlushLock.LockTaken` | pkg/metadata/io.go:385-387 | a mutex is taken by who asks for it if and only if it is free |
| `FlushLock.SetterSteps` | pkg/metadata/file_modify.go:550-569 | a truncate stores its size and discards what is buffered, an unlink only discards, one that cannot store does neither; the mutex is given back |
| `FlushLock.FlushSteps` | pkg/metadata/io.go:389-472 | a flush stores what it took if it is larger, and puts it back if it cannot |
| `FlushLock.TruncateUndone` | pkg/metadata/pending_writes.go:184-202 | as written, a truncate can still be undone if and only if some flush holds a larger popped size |
| `FlushLock.TruncateIsUndone` | pkg/metadata/file_remove.go:146-229 | with both inside, the truncate finishes and the flush then re-grows the file |
| `FlushLock.FlushGetsInside` | pkg/metadata/io.go:372-424 | the flush reaches that state: it holds a mutex no longer in the table |
| `FlushLock.TruncateGetsInside` | pkg/metadata/file_modify.go:550-569 | and the truncate then gets a second mutex |
| `DirTimes.DirTimesTracker.RecordBump` | pkg/metadata/dir_times.go:56-73 | the three times move together to the later bump; flush due exactly after the interval |
| `DirTimes.DirTimesTracker.Clear` | pkg/metadata/dir_times.go:108-114 | only that directory's entry goes |
| `DirTimes.DirTimesTracker.ClearIfFlushed` | pkg/metadata/dir_times.go:121-135 | the entry goes unless a newer bump came, whose timer restarts |
| `DirTimes.FlushInvisible` | pkg/metadata/service.go:1032-1067 | no step of a flush, failed or not, changes what readers see |
| `DirTimes.CoalescedIsEager` | pkg/metadata/service.go:983-1067 | under every interleaving readers see what writing every bump through would have stored |
| `DirTimes.VisibleIsLatestBump` | pkg/metadata/service.go:989-1015 | each visible field is the latest of its start and all bumps |
| `DirTimes.VisibleFields` | pkg/metadata/service.go:989-1015 | the same field by field |
| `DirTimes.LatestBumpIs` | pkg/metadata/dir_times.go:56-73 | no bump is later than the latest, which is one of them |
| `DirTimes.SetVisibleUntilBump` | pkg/metadata/file_modify.go:582-590 | an explicit set, even to an older time, is visible through any flushes until the next bump |
| `DirTimes.SetFields` | pkg/metadata/file_modify.go:474-482 | by what readers see before and after a set: ctime becomes now, a given field its value, a field not given stays |
| `DirTimes.FlushSettles` | pkg/metadata/service.go:1032-1067 | an accepted flush without bumps in between stores what readers see and leaves no entry; a refused one changes nothing |
| `DirTimes.BumpOutlivesFlush` | pkg/metadata/dir_times.go:116-135 | a bump during a flush stays pending, its timer at what the flush stored |
| `DirTimes.FlushDueExactly` | pkg/metadata/dir_times.go:8-73 | a bump asks for a flush if and only if two seconds have passed since the entry's timer started |
| `DirTimes.LossIsBounded` | pkg/metadata/dir_times.go:116-135 | under every interleaving with accepted flushes, each bump is stored, or pending within an interval of the entry's timer, or in a flush that runs or is owed |
| `DirTimes.CrashLosesLessThanAnInterval` | pkg/metadata/service.go:1017-1067 | so whenever no flush runs or is owed, every bump since the last explicit set is durable or less than one interval after a recorded bump, also for bumps that arrived during a flush |
| `DirTimes.LossSpan` | pkg/metadata/service.go:1017-1067 | and with bumps in time order all bumps not durable lie within one interval from the timer's start |
| `DirTimes.SetDropsBumps` | pkg/metadata/file_modify.go:570-590 | bumps between the two steps of an explicit set are dropped; readers see what write-through would show if and only if none of them is later than a time of the set |
| `DirTimes.BumpCanBeDropped` | pkg/metadata/file_modify.go:570-590 | an instance |
| `ShareRegistry.Service.BeginRegister` | pkg/metadata/service.go:321-344 | a known share gets only its store replaced; otherwise the removal generation is noted and nothing changes |
| `ShareRegistry.Service.FinishRegister` | pkg/metadata/service.go:386-453 | all tables are published together, or none when the share was published or removed meanwhile |
| `ShareRegistry.Service.RemoveStoreForShare` | pkg/metadata/service.go:475-516 | all tables forget the share, its generation advances, a manager in grace signals its end |
| `ShareRegistry.RegistryIsSound` | pkg/metadata/service.go:313-516 | in every interleaving: same keys in all tables, a registration begun before a removal never publishes, grace starts equal ends plus managers and registrations in grace plus dropped losers |
| `ShareRegistry.ShareAppears` | pkg/metadata/service.go:386-453 | a share becomes registered only by a registration that finishes, with its own store, in all tables at once, and the history says so |
| `ShareRegistry.ShareDisappears` | pkg/metadata/service.go:475-516 | and unregistered only by its removal, which takes it out of every table |
| `ShareRegistry.FinishExactly` | pkg/metadata/service.go:398-438 | in any reachable state a registration that finishes publishes if and only if its share is not registered and was not removed since it began |
| `ShareRegistry.RegisteredExactly` | pkg/metadata/service.go:313-516 | after any run a share is registered, and with which store, exactly as the publications, replacements and removals of its history leave it, and no publication in it was outrun by a removal |
| `ShareRegistry.SignalsExactly` | pkg/metadata/service.go:398-516 | which step signals the start and which the end of a grace period |
| `ShareRegistry.RemovalsGrow` | pkg/metadata/service.go:510-515 | equal generations mean no removal in between |
| `ShareRegistry.CoordinatorReleased` | pkg/metadata/service.go:398-430 | with nothing in grace left, starts equal ends if and only if no registration was dropped while in grace |
| `ShareRegistry.RaceIsReached` | pkg/metadata/service.go:345-385 | two concurrent registrations can both recover, the second into grace |
| `ShareRegistry.CoordinatorCanWedge` | pkg/metadata/service.go:398-430 | if the first then publishes, the second's start is never ended |
| `Quota.ScanDimensions` | pkg/metadata/quota_enforce.go:62-81 | the loop over the axes: fails exactly if a growing axis passes its ceiling, else reports exactly whether one passes its soft threshold |
| `Quota.HardCheckExact` | pkg/metadata/quota_enforce.go:67-76 | a growing axis passes exactly if it stays within its ceiling or wraps its 64-bit counter |
| `Quota.ScanExactly` | pkg/metadata/quota_enforce.go:62-81 | both axes: refused if and only if a growing one passes its hard limit, noted if and only if one passes its soft one |
| `Quota.EnforceExactly` | pkg/metadata/quota_enforce.go:50-109 | one readable quota: refused for the hard limit, or for grace past its configured seconds, exactly then |
| `Quota.GraceBoundary` | pkg/metadata/quota_enforce.go:90-109 | ten seconds of grace hold at the ten thousand millionth nanosecond and not one later |
| `Quota.QuotaLimits.ResolveUser` | pkg/metadata/quota_limits.go:216-223 | the user's own quota, else the default, else none |
| `Quota.GoverningExactly` | pkg/metadata/quota_limits.go:216-223 | an own quota governs; a user without one has the default of the share if there is one; a group without one has none |
| `Quota.OwnQuotaDecides` | pkg/metadata/quota_limits.go:216-223 | a user with an own quota is refused for its ceiling alone, and any change of the default leaves the decision as it is |
| `Quota.QuotaLimits.SetDynGrace` | pkg/metadata/quota_limits.go:88-119 | one user's timer is set or cleared, all others kept, change reported exactly |
| `Quota.QuotaLimits.UpdateGraceStartedAt` | pkg/metadata/quota_limits.go:250-268 | a stored row's timer changes, change reported exactly |
| `Quota.QuotaLimits.SetGrace` | pkg/metadata/quota_enforce.go:123-151 | start and clear: memory and, on a change, the persisted copy |
| `Quota.QuotaLimits.EnforceOne` | pkg/metadata/quota_enforce.go:50-109 | decision and new timers of one quota |
| `Quota.QuotaLimits.CheckIdentityQuotas` | pkg/metadata/quota_enforce.go:24-45 | user then group, timers of a refused operation included |
| `Quota.HardRefusalExactly` | pkg/metadata/quota_enforce.go:24-45 | the whole check answers the hard limit if and only if a growing axis of the user passes its ceiling, or the user's quota admits and one of the group does, for usage that can be read |
| `Quota.ShrinkingAdmitted` | pkg/metadata/quota_enforce.go:24-45 | what does not grow is admitted and touches no timer |
| `Quota.UsageConserved` | pkg/metadata/quota_enforce.go:24-45 | usage after any run is the starting usage plus what the admitted operations charged, for every identity |
| `Quota.HardLimitsHold` | pkg/metadata/quota_enforce.go:24-109 | no run takes any user, own quota or default, or any group past a fixed hard limit, as long as usage can be read and counters do not wrap |
| `Quota.AdmittedUnderExact` | pkg/metadata/quota_enforce.go:50-76 | an admitted operation leaves a user or group it charges within its hard limits if and only if that identity's usage could be read or the sum fits |
| `Quota.FailedLookupAdmits` | pkg/metadata/quota_enforce.go:51-55 | a failed lookup never refuses: the other identity decides alone, and with both failing anything is admitted |
| `Quota.TimerIsFirstBreach` | pkg/metadata/quota_enforce.go:83-103 | a timer runs exactly from the first soft breach that nothing relieved since |
| `Quota.RunTimer` | pkg/metadata/quota_enforce.go:83-151 | after any run each timer is what the breaches and reliefs of its own identity make it |
| `Quota.GraceDenialExact` | pkg/metadata/quota_enforce.go:90-109 | after any run one quota refuses for grace if and only if the operation crosses a soft threshold and the breach that started the running timer is more than the grace period old |
| `Quota.CheckGraceExact` | pkg/metadata/quota_enforce.go:24-45 | and the whole check does if and only if the user is overdue, or the user's quota admits and the group is overdue |
| `Quota.UsersIsolated` | pkg/metadata/quota_limits.go:77-119 | no run of other users' operations changes a user's default-quota timer |
| `Quota.IdentityIndependent` | pkg/metadata/quota_enforce.go:24-109 | no run of other identities' operations changes any decision of a user's or group's quota |
| `Quota.OneAxisRelievesBoth` | pkg/metadata/quota_enforce.go:62-88 | with usage over its soft threshold on one axis, an operation stops the timer if and only if it does not grow that axis and the other stays within its limits |
| `Quota.GraceRestarts` | pkg/metadata/quota_enforce.go:83-103 | after such an operation the timer is stopped while usage is over, and an operation that would have been refused is admitted and starts a new grace period |
| `Quota.GraceCanBeReset` | pkg/metadata/quota_enforce.go:83-103 | an instance: a create between two writes, minutes after a ten-second grace ran out |
| `Quota.PersistedTimersAgree` | pkg/metadata/quota_enforce.go:123-169 | persisted timers equal the ones in memory after every run |
| `CookieTable.CookieManager.constructor` | pkg/metadata/cookies.go:51-58 | an empty table |
| `CookieTable.CookieManager.GenerateCookie` | pkg/metadata/cookies.go:67-111 | cookie by hash, never zero for a name; map and shared-entry list change together, within the bound, as the bounded table does |
| `CookieTable.CookieManager.EvictToFit` | pkg/metadata/cookies.go:94-105 | the eviction loop keeps the most recent entries in map and list |
| `CookieTable.CookieManager.GetToken` | pkg/metadata/cookies.go:120-134 | the stored name if the cookie is held, which is then promoted |
| `CookieTable.CookieManager.Clear` | pkg/metadata/cookies.go:138-144 | empties both |
| `Cookies.TableIsTop` | pkg/metadata/cookies.go:67-144 | after every history the table is the top of an unbounded recency stack |
| `Cookies.ResolvesExactly` | pkg/metadata/cookies.go:67-144 | a cookie resolves if and only if fewer than the bound distinct other cookies were generated or resolved since its last touch, and then to the name last generated for it |
| `Cookies.CookieExactly` | pkg/metadata/cookies.go:67-80 | no name has cookie zero, and a nonzero hash is the cookie |
| `HealthCache.CachedChecker.Enter` | pkg/health/cache.go:127-159 | the first critical section: a live cached report, or join the call in flight, or register one and lead |
| `HealthCache.CachedChecker.Finish` | pkg/health/cache.go:186-197 | publishes, clears the slot and releases the waiters with the report |
| `HealthCache.CachedChecker.Invalidate` | pkg/health/cache.go:217-222 | drops the cached report and leaves the call in flight |
| `HealthCache.RunInv` | pkg/health/cache.go:126-207 | every schedule keeps slot, calls, cache and each caller's answer consistent |
| `HealthCache.OneProbe` | pkg/health/cache.go:126-207 | at most one probe runs at a time |
| `HealthCache.WaiterGetsItsProbe` | pkg/health/cache.go:137-152 | a caller that joins a call in any reachable state stays bound to that call whatever happens later, and if not canceled returns the report its probe produced |
| `HealthCache.CachedAnswerIsFresh` | pkg/health/cache.go:127-134 | a cached answer was the last thing published, by a probe, within its lifetime and not invalidated since |
| `HealthCache.EnterExactly` | pkg/health/cache.go:127-159 | who enters any reachable state is answered with the last report if and only if it is the last thing that happened to the cache and is younger than the lifetime; else joins the call in flight; else leads a new one |
| `HealthCache.CacheExactly` | pkg/health/cache.go:186-222 | the cache holds the last publication, unless an invalidation came after it |
| `HealthCache.WaiterIsServed` | pkg/health/cache.go:137-197 | every waiter's call is released or has a leader that will release it |
| `HealthCache.ProbeAlwaysReleases` | pkg/health/cache.go:166-207 | whether the probe returns or panics, its leader's steps clear the slot and every waiter gets the report |
| `HealthCache.FinishedLeaderReleased` | pkg/health/cache.go:166-207 | in every schedule, once a leader has returned or panicked the slot does not name its call and every waiter can wake with what its probe produced |
| `HealthCache.InvalidateExact` | pkg/health/cache.go:209-222 | after an invalidation in any reachable state, every later cached answer is from a probe that began after it, if and only if no probe was in flight |
| `HealthCache.InvalidateMissesInflight` | pkg/health/cache.go:190-222 | a schedule from the start in which the probe in flight supplies the next cached answer |

## Left out

- Permission, ACL and sticky-bit evaluation: a verdict given with each call.
- Names are sequences of characters here; the limit of 255 is one of bytes in the source. A name that is too long and one that is malformed have one error here.
- Path length limits, name case folding, timestamps and attributes of namespace operations, WCC copies and change notifications: bookkeeping beside the structure proved here.
- Link counts are unbounded here; the store's are 32 bits wide.
- Store backends, fsync and relaxed durability: a transaction is a sequence of writes that commits whole or not at all; deleting a row does what the memory backend does.
- Checks before a namespace transaction and the transaction itself are one step in the namespace modules; creates against creates, renames and removals of a name are in `CreateRace.dfy`, rmdir against creates in `RmdirRace.dfy`, other pairs nowhere.
- SetFileAttributes reads the file outside its write transaction; its effect on size and chunk list is one step.
- DirTimes.CoalescedIsEager: takes an explicit set as one step; DirTimes.SetDropsBumps is about the bumps that come between its two.
- The discard of buffered writes by the last unlink of a file: the sizes it drops are meant to go.
- The modification time of merged reads, its overwriting by a frozen SMB timestamp (pkg/metadata/pending_writes.go:284-301), the contents of cached file records and a chmod against a buffered setuid clear.
- Listing, restoring, emptying and retention of the recycle bin.
- FlushAllPendingWritesForShutdown (pkg/metadata/io.go:493-521) pops pending writes without the flush lock and does not put them back when their commit fails; it is not an event of the write-path machines.
- Lock recovery, lock sweeping and the reclaim protocol: a registration enters grace or not, and a grace period ends at some later step. A grace coordinator is taken to be installed throughout.
- Setting, replacing and reloading quotas, the per-share quota, and grace periods of more than 292 years, whose length in nanoseconds does not fit.
- Hashing of cookies, blocks and shards: any functions.
- Readdir paging, codecs, the REST API, the CLI, the protocol adapters, configuration and metrics.
- Recycle.TrashService.Move: the names on the bin path and unused handles for its directories are given with the call.
- ManifestStore.BlockStore.Commit: the rows of one commit belong to one file, as the carver makes them.
- Quota.HardLimitsHold: rests on readable usage and counters that do not wrap; Quota.AdmittedUnderExact and Quota.HardCheckExact say what happens otherwise.
- Concurrent quota checks: each check and the charge of its operation are one step, while the code admits that a few concurrent operations may slip past.
