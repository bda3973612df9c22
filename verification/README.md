# Verified models of zfs-fuse

The project models the parts of zfs-fuse where several pieces of state have to agree with each other, and proves what
they keep true.

- **File range locks** (`RangeLock*.dfy`). Readers and writers lock byte ranges of a file. The kernel keeps a sorted
  tree of entries in which overlapping readers are shared, reference-counted proxies; a writer looks at its two
  neighbours only. `RangeLockModel` gives each function as a step on the tree, with the bag of granted ranges and the
  sleeping threads beside it. `RangeLockInvariant`, `RangeLockReader`, `RangeLockRelease` and `RangeLockTheorems` prove
  that every step keeps the tree true to the grants; `RangeLockGuarantees` and `RangeLockFlags` say what that means for
  callers;
  `RangeLockTree` is the structure with its search, walk and retry loops, proved to take exactly these steps.
- **Access control lists** (`Acl*.dfy`). `AclModel` defines entries, the first-match rule of section 6.2.1 of RFC 7530,
  the mode of an ACL (section 6.3.2) and the chmod rewriting. `AclAccess` holds the two evaluation loops.
  `AclChmodMode`, `AclChmodReuse`, `AclChmodAccess`, `AclChmodGroupmask`, `AclChmodNamed`, `AclChmodRest` and
  `AclChmodCount` prove what chmod does to the mode, to access, to what children inherit and to the number of entries. `AclList`, `AclCursor` and `AclChmodList` are the chunked list with its cursor, and chmod on it.
- **Directory renames** (`Rename*.dfy`). The parent-lock protocol as a transition system over any number of renames,
  mkdirs and rmdirs, and the climb that a single rename makes.
- **Name locks** (`DirLock*.dfy`). The locks on the names of one directory, with sharing, sleeping and the removal of
  the directory.
- **Namespace accounting** (`Namespace*.dfy`). Links, directory sizes, extended attribute directories and the unlinked
  set over all histories of create, mkdir, link, remove, rmdir, rename, purge and final deletion. `NamespaceEffects` says
  when each operation succeeds and what it does to the names.
- **Write path** (`Write*.dfy`). Chunked writes under the range lock, appends, growing blocks, intent log records and
  their replay.
- **Pool specifications** (`Vdev*.dfy`). The parser of vdev command lines, word by word and as a whole, and the
  replication check.

Transactions are atomic, ZAP objects are maps, the AVL tree is a sorted sequence, and everything that happens under a
mutex is one step, except where the order of two releases matters (`DirLockModel.StartUnlock`). A broadcast that is sent
after the mutex was dropped is a step of its own. Threads, schedules, new object ids, failing transactions, partial
writes and what a device probe finds are parameters, so that every theorem is about all of them.

Properties that one would expect and that have exceptions come with an input that fails and with the exact condition,
stated on the input of the call:

- chmod and the mode computation are a round trip unless the last six entries of the old list are in one chunk, become
  the canonical six, and an inherit-only one among them carries a bit that the mode needs (`RoundTripExact`,
  `RoundTripCanFail`);
- in groupmask mode named entries on a directory are bounded by the mode for every requester if and only if there is no
  named principal and no bit withheld from it by the mode such that the first entry in force that settles the bit for
  this principal is an allow entry for which the deny of somebody else, directly before it, is reused (`GroupmaskExact`,
  `ForeignDenyReused`). That no foreign deny is reused at all is sufficient, and exact only for the shape of the list
  (`GroupmaskGuards`, `GroupmaskBounds`, `ForeignDenyShielded`);
- chmod in groupmask mode keeps what the list says first about a named principal and a bit that the mode lets it have,
  except that an own deny which gets reused for the next allow entry is taken back (`PermittedKept`, `DenyTakenBack`);
- a mirror or raidz that mixes files and disks passes the check only if the mix shows among its devices up to and
  including the first of known size, and such a mix can pass (`MixDetected`, `PrefixIgnored`, `MixAccepted`);
- sizes in a group that passes differ by at most one tolerance per place between them, and can differ by that much
  (`SizeDrift`, `DriftAccepted`, `DriftOfThree`).

The proof that renames do not deadlock (`NoDeadlock`) assumes that a reader of a parent lock is let in while a writer
waits for it. `rw_enter` is a `pthread_rwlock` with default attributes (`src/lib/libsolkerncompat/rwlock.c:39`), for
which POSIX leaves this open and glibc lets readers in; with a lock that prefers writers the theorem would not hold.

The writer's hold on a directory's name lock shuts out all name locks except one that is just being released
(`WriterSeesNoLocks`, `LateRemoval`).

## Model

| member | source | states |
|---|---|---|
| RangeLockTheorems.LockReaderInv | src/zfs-fuse/zfs_rlock.c:354-416 | a reader that is admitted or put to sleep keeps the tree sorted, its counts equal to the readers covering each entry, and every sleeper on a flagged entry |
| RangeLockTheorems.AddReaderInv | src/zfs-fuse/zfs_rlock.c:269-349 | adding a reader by splitting, proxying, filling gaps and bumping keeps the invariant, whatever it overlaps |
| RangeLockTheorems.LockWriterInv | src/zfs-fuse/zfs_rlock.c:102-183 | a writer that is admitted or put to sleep keeps the invariant |
| RangeLockTheorems.NeighboursSuffice | src/zfs-fuse/zfs_rlock.c:152-183 | looking at the entry at, after and before the offset finds no overlap exactly when no entry of the tree overlaps |
| RangeLockTheorems.BlockerOverlaps | src/zfs-fuse/zfs_rlock.c:154-167 | the entry that a writer waits for overlaps the range it wants |
| RangeLockTheorems.UnlockReaderInv | src/zfs-fuse/zfs_rlock.c:459-521 | releasing a reader, whole or piece by piece, keeps the invariant |
| RangeLockTheorems.UnlockWriterInv | src/zfs-fuse/zfs_rlock.c:526-557 | releasing a writer keeps the invariant |
| RangeLockTheorems.WholeFileAlone | src/zfs-fuse/zfs_rlock.c:564-585 | while somebody holds the whole file for writing, the tree has that one entry and nobody else holds anything |
| RangeLockTheorems.ReduceInv | src/zfs-fuse/zfs_rlock.c:564-585 | reducing a lock on the whole file keeps the invariant and changes the only entry in place |
| RangeLockTheorems.StepInv | src/zfs-fuse/zfs_rlock.c:102-585 | every lock, unlock, reduce and broadcast step keeps the invariant |
| RangeLockTheorems.RunInv | src/zfs-fuse/zfs_rlock.c:102-585 | the invariant holds in every state of every run from no locks |
| RangeLockReader.WalkGood | src/zfs-fuse/zfs_rlock.c:305-348 | after the walk that bumps, splits and fills gaps each entry's count is the number of readers covering it, the new one included |
| RangeLockRelease.NextTile | src/zfs-fuse/zfs_rlock.c:490-512 | the next entry of the unlock walk is a reader's entry, starts exactly where the walk stands and does not pass the end of the lock |
| RangeLockRelease.ReleaseGood | src/zfs-fuse/zfs_rlock.c:490-518 | after the unlock walk each remaining entry counts exactly the remaining readers |
| RangeLockGuarantees.Exclusion | src/zfs-fuse/zfs_rlock.c:28-96 | a range granted to a writer overlaps no other granted range |
| RangeLockGuarantees.WriterAdmission | src/zfs-fuse/zfs_rlock.c:152-183 | a writer is admitted exactly when no granted range overlaps its own |
| RangeLockGuarantees.ReaderWaitsForWriters | src/zfs-fuse/zfs_rlock.c:354-416 | a reader is kept out exactly by an overlapping entry that a writer holds or waits for; an admitted one overlaps no writer |
| RangeLockFlags.FlaggedHasWaiter | src/zfs-fuse/zfs_rlock.c:172-182 | on a reader's entry that is marked as wanted by a writer, a writer sleeps that wants a range overlapping it |
| RangeLockFlags.StepFlags | src/zfs-fuse/zfs_rlock.c:102-585 | every step keeps these marks true: an entry that stays keeps its sleepers, and a broadcast wakes nobody on a reader's entry |
| RangeLockFlags.ReadersWaitForWriters | src/zfs-fuse/zfs_rlock.c:354-416 | in every state of every run a reader has to wait exactly when a writer holds part of its range or sleeps on an entry that overlaps it |
| RangeLockGuarantees.CountsAreExact | src/zfs-fuse/zfs_rlock.c:28-96 | the reference count over each byte is the number of readers holding that byte |
| RangeLockGuarantees.LockAdds | src/zfs-fuse/zfs_rlock.c:269-349 | admitting a reader adds one to the count of exactly the bytes of its range |
| RangeLockGuarantees.UnlockSubtracts | src/zfs-fuse/zfs_rlock.c:459-521 | unlocking a reader takes one off the count of exactly the bytes of its range |
| RangeLockGuarantees.ReadersAreTiled | src/zfs-fuse/zfs_rlock.c:482-518 | a granted reader's range is tiled by consecutive reader entries with boundaries at both its ends |
| RangeLockGuarantees.SleeperHasHolder | src/zfs-fuse/zfs_rlock.c:172-182 | the entry a sleeper waits on is about to be broadcast, or is flagged, overlaps the range that the sleeper wants and lies inside a granted range |
| RangeLockGuarantees.NoNeedlessSleep | src/zfs-fuse/zfs_rlock.c:154-182 | a sleeper that is not about to be woken could not have its range if it tried again now |
| RangeLockGuarantees.NobodySleepsOnChanged | src/zfs-fuse/zfs_rlock.c:194-246 | nobody sleeps on an entry that an admitted reader overlaps, so none is proxied or split while someone sleeps on it |
| RangeLockGuarantees.NobodyForgotten | src/zfs-fuse/zfs_rlock.c:473-557 | when no locks are held and no broadcast is outstanding, nobody sleeps |
| RangeLockGuarantees.RunGuarantees | src/zfs-fuse/zfs_rlock.c:28-585 | exclusion, exact counts, tiling and no lost wakeup in every state of every interleaving |
| RangeLockTree.RangeLock.Search | src/zfs-fuse/zfs_rlock.c:591-602 | finds where an offset belongs in the tree |
| RangeLockTree.RangeLock.FindReaderBlocker | src/zfs-fuse/zfs_rlock.c:354-408 | the search of the lock loop finds the first overlapping entry that keeps the reader out |
| RangeLockTree.RangeLock.FindWriterBlocker | src/zfs-fuse/zfs_rlock.c:152-171 | the neighbour tests find an entry that overlaps the range, or none exactly when no entry does |
| RangeLockTree.RangeLock.LockReader | src/zfs-fuse/zfs_rlock.c:354-416 | takes the reader step of the model in place, or puts the thread to sleep on the entry found |
| RangeLockTree.RangeLock.LockForWrite | src/zfs-fuse/zfs_rlock.c:102-183 | one turn of the writer loop for a file: an append starts at the present end; the granted range is the whole file exactly if the file outgrows a block size that can grow, else the bytes to be written |
| RangeLockTree.RangeLock.LockWriter | src/zfs-fuse/zfs_rlock.c:152-183 | takes the writer step of the model in place, or puts the thread to sleep on an entry that overlaps the wanted range |
| RangeLockTree.RangeLock.InsertReader | src/zfs-fuse/zfs_rlock.c:269-349 | the in-place split, walk and insertion give the tree of the model |
| RangeLockTree.RangeLock.ReleaseFrom | src/zfs-fuse/zfs_rlock.c:490-520 | the unlock walk ends exactly when all bytes of the lock are released, and wakes the sleepers of the entries it removes |
| RangeLockTree.RangeLock.Unlock | src/zfs-fuse/zfs_rlock.c:526-557 | takes the unlock step of the model in place |
| RangeLockTree.RangeLock.Reduce | src/zfs-fuse/zfs_rlock.c:564-585 | takes the reduce step of the model in place |
| AclAccess.CheckAccess | src/zfs-fuse/zfs_acl.c:2227-2297 | the early-exit loop grants iff every requested bit's first match allows it, denies iff some bit's first match denies it, and returns exactly the denied and undecided bits |
| AclAccess.ComputeMode | src/zfs-fuse/zfs_acl.c:751-895 | the one-pass loop computes the mode by the first-match rule for each class |
| AclChmodMode.RewriteClean | src/zfs-fuse/zfs_acl.c:1479-1548 | after the walk no entry for owner@, group@ or everyone@ that is in force mentions a mode bit |
| AclChmodMode.SixRoundTrip | src/zfs-fuse/zfs_acl.c:1178-1206 | six fixed-up canonical entries stand for the mode exactly when each mode bit is carried by entries in force |
| AclChmodMode.ChmodRoundTrip | src/zfs-fuse/zfs_acl.c:1451-1591 | the mode computed after chmod is the mode that was set exactly when the canonical six are new or, if reused, faithful for that mode |
| AclChmodReuse.ReuseExact | src/zfs-fuse/zfs_acl.c:1371-1403 | chmod reuses the canonical six exactly when the last six entries of the old list are in one chunk, have the canonical types and principals and, unless skipped, the canonical masks up to mode bits, and none but the first has to be split |
| AclChmodReuse.RoundTripExact | src/zfs-fuse/zfs_acl.c:1451-1591 | the mode computed after chmod is the mode that was set exactly when the last six entries of the old list will not be reused or are faithful for that mode |
| AclChmodMode.RoundTripWhenInForce | src/zfs-fuse/zfs_acl.c:1451-1591 | if none of the last six entries is inherit-only, chmod followed by the mode computation gives back the mode, in every aclmode |
| AclChmodMode.RoundTripCanFail | src/zfs-fuse/zfs_acl.c:1371-1403 | a list whose canonical six are inherit-only is reused as it is and loses the mode |
| AclChmodAccess.RewritePreserves | src/zfs-fuse/zfs_acl.c:1479-1548 | the walk with its splits and prepends leaves every decision about other bits as it was |
| AclChmodAccess.ChmodPreserves | src/zfs-fuse/zfs_acl.c:1451-1591 | outside discard mode every bit other than read, write, append and execute that was decided is decided the same way for every requester |
| AclChmodAccess.DiscardMeansMode | src/zfs-fuse/zfs_acl.c:1476-1477 | in discard mode each such bit is granted or denied by the requester's Unix class bits |
| AclChmodAccess.DiscardGrants | src/zfs-fuse/zfs_acl.c:1561-1590 | in discard mode a set of such bits is granted exactly when it lies in the class bits, also for an owner who is in the group |
| AclChmodAccess.GroupmaskGuards | src/zfs-fuse/zfs_acl.c:1526-1545 | every named allow entry ends up behind a deny of the same principal that takes away what the mode leaves out, exactly when no foreign deny is reused for it |
| AclChmodAccess.GroupmaskBounds | src/zfs-fuse/zfs_acl.c:1526-1545 | if no foreign deny is reused, a named entry on a directory grants no bit outside the group bits, or the owner bits if it names the owner |
| AclChmodAccess.MatchingDenies | src/zfs-fuse/zfs_acl.c:1224-1254 | the condition holds if every deny directly before a named allow entry names the same principal |
| AclChmodAccess.ForeignDenyReused | src/zfs-fuse/zfs_acl.c:1224-1254 | a deny for one user directly before an allow for another is reused, and the other user keeps write access |
| AclChmodGroupmask.RewriteLets | src/zfs-fuse/zfs_acl.c:1479-1548 | the walk lets a named principal have a bit that the mode withholds exactly when the held entry grants it, or says nothing and the bit escapes in the rest of the old list |
| AclChmodGroupmask.GroupmaskExact | src/zfs-fuse/zfs_acl.c:1526-1545 | after chmod no requester is granted by a named entry on a directory what the mode withholds, if and only if for no named principal and withheld bit the first entry in force that settles the bit is an allow entry that gets a foreign deny |
| AclChmodGroupmask.ForeignDenyShielded | src/zfs-fuse/zfs_acl.c:1224-1254 | reusing a foreign deny does no harm behind an own deny of the same bit, and does harm without it |
| AclChmodNamed.RewriteKept | src/zfs-fuse/zfs_acl.c:1479-1548 | for a bit that the mode does not withhold, the first entry about a named principal after the walk is the first of the old list that keeps the bit: a reused deny does not, nor does an allow of a group whose owner lacks the bit |
| AclChmodNamed.PermittedKept | src/zfs-fuse/zfs_acl.c:1129-1170 | in groupmask mode chmod keeps what was said first about a permitted bit exactly unless it was a reused deny and what stands behind says otherwise; what was allowed stays allowed |
| AclChmodNamed.PermittedAccess | src/zfs-fuse/zfs_acl.c:1526-1545 | a requester who is that principal only is then granted or denied the bit accordingly on a directory |
| AclChmodNamed.DenyTakenBack | src/zfs-fuse/zfs_acl.c:1224-1254 | a user denied and then allowed to read can read after chmod to 0660 |
| AclChmodNamed.StrippedGone | src/zfs-fuse/zfs_acl.c:1414-1445 | no named group is left a bit that the group bits have and the owner bits lack |
| AclChmodNamed.PassthroughKeeps | src/zfs-fuse/zfs_acl.c:1479-1548 | in passthrough mode the first word about a named principal and any bit stays what it was |
| AclChmodRest.DiscardOther | src/zfs-fuse/zfs_acl.c:1561-1590 | in discard mode only the owner may change ACL, owner and attributes, everybody may read them, and nothing is said about deleting |
| AclChmodRest.RewriteLegacy | src/zfs-fuse/zfs_acl.c:1337-1366 | the walk with its splits leaves the list of entries that children inherit as it was |
| AclChmodRest.ChmodLegacy | src/zfs-fuse/zfs_acl.c:1451-1591 | so does chmod outside discard mode, up to mode bits of owner@, group@ and everyone@ |
| AclChmodCount.ChmodSettles | src/zfs-fuse/zfs_acl.c:1451-1591 | after any chmod a further walk under the same aclmode inserts nothing |
| AclChmodCount.CountExact | src/zfs-fuse/zfs_acl.c:1553-1588 | on such a list chmod keeps the number of entries exactly when it recognises the six, else it adds six |
| AclChmodCount.CountNeverChanges | src/zfs-fuse/zfs_acl.c:1451-1591 | in any series of chmods under one aclmode the number of entries never changes after the first, if the last six were in force |
| AclList.SizeIsBytes | src/zfs-fuse/zfs_acl.c:247-271 | the chunk sizes add up to the size of the entries in the list |
| AclCursor.OpenChunk | src/zfs-fuse/zfs_acl.c:1269-1309 | cutting the current chunk and linking in a new one inserts exactly one entry directly before the current one |
| AclCursor.ChunkedAcl.NextAce | src/zfs-fuse/zfs_acl.c:447-491 | returns the entry after the last one returned, across chunk boundaries, and null exactly at the end |
| AclCursor.ChunkedAcl.AceInsert | src/zfs-fuse/zfs_acl.c:1269-1309 | the list gets one entry directly before the current one; the cursor stays on its entry; count and bytes stay right |
| AclCursor.ChunkedAcl.SplitAce | src/zfs-fuse/zfs_acl.c:1337-1366 | the inherit-only copy goes in front, the entry loses its inheritance flags and is the next to be visited |
| AclCursor.ChunkedAcl.PrependDeny | src/zfs-fuse/zfs_acl.c:1314-1331 | a deny of the same principal with the bits that the mode leaves out goes in front |
| AclCursor.ChunkedAcl.FixupGroupEntries | src/zfs-fuse/zfs_acl.c:1414-1445 | both entries lose what the group would have beyond the owner, if they are about a group |
| AclCursor.ChunkedAcl.Visit | src/zfs-fuse/zfs_acl.c:1479-1548 | one turn of the chmod loop changes the list as one step of the rewriting |
| AclChmodList.Turn | src/zfs-fuse/zfs_acl.c:1479-1548 | each turn leaves what the walk will have written unchanged and brings the walk closer to its end, also when it moves back |
| AclChmodList.Walk | src/zfs-fuse/zfs_acl.c:1479-1548 | the loop ends, and the list is the rewriting of the list before |
| AclChmodList.HaveCanonicalSix | src/zfs-fuse/zfs_acl.c:1371-1403 | tells whether the last chunk ends with the canonical six |
| AclChmodList.FixupCanonicalSix | src/zfs-fuse/zfs_acl.c:1178-1206 | puts each mode bit into the allow or the deny half of its pair, and changes nothing else |
| AclChmodList.ChmodList | src/zfs-fuse/zfs_acl.c:1451-1591 | the chunked list holds what rewriting the plain sequence gives, and its count and size are those of its entries |
| RenameTree.NotAboveItself | src/zfs-fuse/zfs_vnops.c:2870-2875 | a directory is not on its parent's path to the root, so a climb may stop at the source's parent |
| RenameTree.TreeAfterMove | src/zfs-fuse/zfs_vnops.c:3206-3214 | moving a directory to a place whose path avoids it leaves a tree |
| RenameLock.ClearedPath | src/zfs-fuse/zfs_vnops.c:2876-2941 | a rename that has passed the climb knows that the target's path avoids the source, however the tree changed meanwhile |
| RenameLock.StepInv | src/zfs-fuse/zfs_vnops.c:2876-2941 | every step of every rename, and every mkdir and rmdir in between, keeps tree and lock invariant |
| RenameLock.WaitsDescend | src/zfs-fuse/zfs_vnops.c:2893-2916 | a rename only waits for one with a smaller source id, so waiting cannot go in a circle |
| RenameLock.NoDeadlock | src/zfs-fuse/zfs_vnops.c:2893-2916 | as long as there are renames, one of them can take its next lock, start over or finish |
| RenameLock.AlwaysTree | src/zfs-fuse/zfs_vnops.c:2876-2941 | under every interleaving the directories are a tree below the root, and the renames are not stuck |
| RenameLock.RenameLock | src/zfs-fuse/zfs_vnops.c:2876-2941 | on its own the climb ends, refuses exactly when the source is the target directory or above it, and holds the chain up to where it stopped |
| DirLocks.StepInv | src/zfs-fuse/zfs_dir.c:211-266 | every lock, sleep, share, unlock and writer step, and a rename over the directory, keeps the invariant of the name locks |
| DirLocks.Exclusion | src/zfs-fuse/zfs_dir.c:211-266 | two threads have the same name locked only if both share it |
| DirLocks.Admission | src/zfs-fuse/zfs_dir.c:231-266 | a thread gets the name at once exactly unless somebody has it and one of the two does not want to share |
| DirLocks.SleeperHasHolder | src/zfs-fuse/zfs_dir.c:247-249 | a sleeper's lock is in the list, is for the wanted name and has a holder |
| DirLocks.UnlockFinds | src/zfs-fuse/zfs_dir.c:335-338 | an unlocking thread always finds its lock in the list |
| DirLocks.WriterSeesNoLocks | src/zfs-fuse/zfs_vnops.c:1845-1855 | under the writer's hold on the name lock the list is empty exactly when no unlocker has the mutex |
| DirLocks.LateRemoval | src/zfs-fuse/zfs_dir.c:323-347 | the writer can have the name lock while a name lock is still listed |
| DirLocks.RunGuarantees | src/zfs-fuse/zfs_dir.c:211-347 | in every reachable state each name has at most one lock, with one exclusive holder or exactly its count of sharers; an uncopied name belongs to a holder; nobody has a lock in a removed directory, be it removed by rmdir or by a rename over it |
| DirLockList.Directory.Acquire | src/zfs-fuse/zfs_dir.c:211-266 | one turn of the lock loop takes the step of the model |
| DirLockList.Directory.FinishUnlock | src/zfs-fuse/zfs_dir.c:323-347 | takes the step of the model, and its search does not run off the list |
| NamespaceSteps.CountedUnlink | src/zfs-fuse/zfs_dir.c:742-756 | losing a name keeps the object's count right; the count was large enough; a directory is always unlinked |
| NamespaceSteps.LinkDestroyIs | src/zfs-fuse/zfs_dir.c:713-790 | removing a name fails exactly on directories that have entries |
| NamespaceSteps.LinkedInv | src/zfs-fuse/zfs_dir.c:663-704 | another name for a file keeps all counts right |
| NamespaceSteps.DroppedInv | src/zfs-fuse/zfs_dir.c:713-790 | a name that goes away keeps all counts and the unlinked set right |
| NamespaceSteps.RemoveNowIs | src/zfs-fuse/zfs_vnops.c:1548-1586 | deleting a file at once has the same effect as queueing it and deleting it from the unlinked set |
| NamespaceSteps.DeletedInv | src/zfs-fuse/zfs_dir.c:553-649 | deleting an unlinked object, with its attribute directory put into the unlinked set, keeps all counts right |
| NamespaceSteps.MakeXattrInv | src/zfs-fuse/zfs_dir.c:803-853 | a new attribute directory keeps all counts right, also if its owner has lost its last name meanwhile |
| NamespaceTheorems.CreatedSound | src/zfs-fuse/zfs_vnops.c:1746-1757 | a new object keeps all counts right and the directories a tree |
| NamespaceTheorems.MovedSound | src/zfs-fuse/zfs_vnops.c:3206-3214 | a move that the climb allows keeps all counts right and the directories a tree |
| NamespaceTheorems.RenameSound | src/zfs-fuse/zfs_vnops.c:2962-3240 | so does every rename that succeeds, also over an existing target |
| NamespaceTheorems.StepSound | src/zfs-fuse/zfs_vnops.c:1431-3577 | so does every operation |
| NamespaceTheorems.NothingLost | src/zfs-fuse/zfs_dir.c:424-434 | every allocated object is the root, has a name, is the attribute directory of an allocated object or is in the unlinked set |
| NamespaceTheorems.NeverPanics | src/zfs-fuse/zfs_dir.c:742-749 | the link count of a named object is never found too small |
| NamespaceTheorems.HistoryGuarantees | src/zfs-fuse/zfs_dir.c:553-801 | over every history: a file's links are its names, a directory's size is two plus its entries and its links two plus its subdirectories, the unlinked set is the allocated zero-link objects, nothing is lost, and the directories are a tree |
| NamespaceTheorems.Drains | src/zfs-fuse/zfs_dir.c:440-649 | from every sound state purges and deletions alone empty the unlinked set |
| NamespaceEffects.MakeEffect | src/zfs-fuse/zfs_vnops.c:1632-1774 | a new object is made exactly if the name is free and the directory fit; it gets that name, and no other name or object changes |
| NamespaceEffects.LinkEffect | src/zfs-fuse/zfs_vnops.c:3460-3577 | a link is made exactly if the name is free and the source a live file on the same side; only that name is added |
| NamespaceEffects.RemoveEffect | src/zfs-fuse/zfs_vnops.c:1431-1609 | exactly a file that is named can be removed; only that name goes, and the object with its only name if nobody has it open |
| NamespaceEffects.RmdirEffect | src/zfs-fuse/zfs_vnops.c:1795-1897 | exactly an empty directory that is named can be removed; only that name goes |
| NamespaceEffects.RenameEffect | src/zfs-fuse/zfs_vnops.c:2962-3240 | the exact condition of success; then the object has the new name instead of the old one and no other name changes, or nothing changes if both names are the same or name the same object |
| NamespaceEffects.TakenMove | src/zfs-fuse/zfs_vnops.c:3127-3214 | the errors of a rename onto a name that is taken, each under its exact condition |
| NamespaceEffects.XattrEffect | src/zfs-fuse/zfs_dir.c:803-853 | the new attribute directory is that of its owner; no name and no other object changes |
| NamespaceFs.FileSystem.LinkCreate | src/zfs-fuse/zfs_dir.c:663-704 | updates counts, parent and entry as the model says, and refuses an unlinked object |
| NamespaceFs.FileSystem.LinkDestroy | src/zfs-fuse/zfs_dir.c:713-790 | updates counts, marks and entry as the model says, and refuses a directory that is not empty |
| NamespaceFs.FileSystem.Remove | src/zfs-fuse/zfs_vnops.c:1431-1609 | has the effect or the error of the model and keeps the file system sound; succeeds exactly as said above, and then exactly that name and, with its only name, the object goes |
| NamespaceFs.FileSystem.Rmdir | src/zfs-fuse/zfs_vnops.c:1795-1897 | has the effect or the error of the model and keeps the file system sound; succeeds exactly as said above, and then exactly that name goes |
| NamespaceFs.FileSystem.Rename | src/zfs-fuse/zfs_vnops.c:2962-3240 | has the effect or the error of the model and keeps the file system sound; succeeds exactly as said above and then moves the name and nothing else; the climb decides whether a directory may move |
| NamespaceFs.FileSystem.Make | src/zfs-fuse/zfs_vnops.c:1632-1774 | has the effect or the error of the model and keeps the file system sound; succeeds exactly as said above, and then exactly that name and object are new |
| NamespaceFs.FileSystem.Link | src/zfs-fuse/zfs_vnops.c:3460-3577 | has the effect or the error of the model and keeps the file system sound; succeeds exactly as said above, and then exactly that name is new |
| NamespaceFs.FileSystem.FreeNode | src/zfs-fuse/zfs_dir.c:622-645 | deletes the object and queues its attribute directory, and keeps the file system sound |
| WriteModel.OverwriteAt | src/zfs-fuse/zfs_vnops.c:816-881 | after a write each byte is the new one inside the range, the old one elsewhere and zero in a gap behind the old end; the size never shrinks |
| WriteModel.OverwriteTwice | src/zfs-fuse/zfs_vnops.c:770-881 | two writes one behind the other are one write |
| WriteModel.ReplayIsWrite | src/zfs-fuse/zfs_replay.c:621-649 | replaying records that lie one behind the other is one write of all their data |
| WriteModel.ReplayRestarts | src/zfs-fuse/zfs_replay.c:621-649 | replay that was broken off anywhere can be started over with the same result |
| WriteLog.LogWrite | src/zfs-fuse/zfs_log.c:443-536 | nothing is logged for an unlinked file; else the records tile exactly the bytes written and carry their data, and none exceeds what a log block holds; a write of more than 32768 bytes that fits a block and has no separate log device is one indirect record, and only then are records indirect; copies are made only for synchronous writes, as long as reading works |
| WriteLog.Clip | src/zfs-fuse/zfs_vnops.c:745-752 | nothing is written past the limit, and a write is cut short only by it |
| WriteLog.ChunkFits | src/zfs-fuse/zfs_vnops.c:809-813 | a chunk stays inside its block of the largest size, and ends there unless the data ends before |
| WriteLog.WriteFile | src/zfs-fuse/zfs_vnops.c:744-881 | whatever happens to its turns, the file gets exactly what the attempts manage, restarts left out, up to the first that falls short; the log describes exactly that, or what of it was written before the file lost its last name; replaying it over the old contents gives that; if nothing fails, everything within the limit is written |
| WriteLog.RestartsIgnored | src/zfs-fuse/zfs_vnops.c:779-785 | a turn that is tried again makes no difference to what is attempted |
| WriteLog.UnfailingReach | src/zfs-fuse/zfs_vnops.c:770-881 | if no turn fails or falls short and there are enough of them, everything is written, however many restarts there are |
| WriteLog.ReplayLog | src/zfs-fuse/zfs_replay.c:621-649 | applies each record in turn |
| WriteLocks.AppendBehind | src/zfs-fuse/zfs_rlock.c:124-151 | when an append is granted at the end of the file, no earlier append can still get past that end |
| WriteLocks.ChunkInsideLock | src/zfs-fuse/zfs_vnops.c:770-824 | what is left to write lies inside the writer's lock, after the reduction of a whole-file lock, which was then the only one; nobody else has any of it |
| WriteLocks.EveryChunkLocked | src/zfs-fuse/zfs_vnops.c:711-881 | so it is in every run, and the file then reaches to the end of the chunk |
| WriteLocks.AppendsDisjoint | src/zfs-fuse/zfs_vnops.c:711-743 | in every run without truncation an append starts where all earlier ones have ended, so no two overlap |
| WriteGrowth.GrownHasRoom | src/lib/libzpool/zfs_znode.c:1188-1213 | growing the block size makes room for everything to be written, or the size is final |
| WriteGrowth.AlwaysFits | src/zfs-fuse/zfs_rlock.c:134-143 | in every run of writes the file fits into one block while the block size can still grow |
| VdevModel.DevicesArePrefix | src/zfs-fuse/new_zpool_vdev.c:1228-1241 | the devices of a group are the words up to the next keyword |
| VdevWords.DeviceWords | src/zfs-fuse/new_zpool_vdev.c:1098-1137 | exactly raidz, raidz1, raidz2, mirror, spare, log and cache are keywords, any other word is a device |
| VdevWords.RaidzWords | src/zfs-fuse/new_zpool_vdev.c:1098-1275 | raidz and raidz1 have parity one, raidz2 has parity two; there must be more devices than parity, and none after log |
| VdevWords.MirrorWords | src/zfs-fuse/new_zpool_vdev.c:1098-1275 | mirror needs two devices and is a log device after log |
| VdevWords.SpareWords | src/zfs-fuse/new_zpool_vdev.c:1177-1260 | spare and cache need a device, come once each and end the log devices |
| VdevWords.LogWord | src/zfs-fuse/new_zpool_vdev.c:1188-1205 | log comes once, and log devices follow |
| VdevWords.OneRaidz | src/zfs-fuse/new_zpool_vdev.c:1147-1342 | a raidz on its own is accepted exactly with enough devices, as one group of its parity over the devices in order |
| VdevWords.OneMirror | src/zfs-fuse/new_zpool_vdev.c:1147-1342 | so is a mirror |
| VdevWords.OneList | src/zfs-fuse/new_zpool_vdev.c:1147-1342 | spares or caches on their own are accepted unless there are none |
| VdevWords.OnlyDevices | src/zfs-fuse/new_zpool_vdev.c:1147-1342 | so are plain devices |
| VdevWords.OnlyLogDevices | src/zfs-fuse/new_zpool_vdev.c:1147-1342 | so are log devices |
| VdevSpec.ParseLists | src/zfs-fuse/new_zpool_vdev.c:1147-1342 | from any state of the parser, each list grows by exactly the words in its part of the command line, in order |
| VdevSpec.ParseGroups | src/zfs-fuse/new_zpool_vdev.c:1262-1275 | each raidz or mirror keyword becomes one group with its parity and the devices up to the next keyword, in order |
| VdevSpec.SpecIsFaithful | src/zfs-fuse/new_zpool_vdev.c:1147-1342 | on success each device argument is a leaf once and in order in its list, log devices are those after log with no later spare or cache, the groups are the raidz and mirror keywords in order with their own devices, and they have more devices than parity and at least their minimum |
| VdevSpec.Accepted | src/zfs-fuse/new_zpool_vdev.c:1147-1342 | the exact condition under which a command line is accepted |
| VdevParser.ReadGroup | src/zfs-fuse/new_zpool_vdev.c:1228-1241 | the inner loop reads exactly the devices before the next keyword, or fails if one cannot be opened |
| VdevParser.ConstructSpec | src/zfs-fuse/new_zpool_vdev.c:1147-1342 | the loop computes the parse, with the properties above |
| VdevReplication.CheckGroup | src/zfs-fuse/new_zpool_vdev.c:621-735 | accepts a group whose devices each agree in kind and roughly in size with the last one before of known size |
| VdevReplication.GetReplication | src/zfs-fuse/new_zpool_vdev.c:551-793 | comparing neighbours only, finds a common level exactly when all groups are uniform and all vdevs that are not logs have the same type, parity and width |
| VdevReplication.CheckReplication | src/zfs-fuse/new_zpool_vdev.c:801-881 | accepts a new pool exactly when it is all logs or consistent, and an addition exactly when the pool is inconsistent, the addition all logs, or both consistent and of one level |
| VdevReplication.LevelsEqual | src/zfs-fuse/new_zpool_vdev.c:551-793 | any two vdevs of a consistent pool that are not logs are equal in type, parity and width |
| VdevReplication.MixDetected | src/zfs-fuse/new_zpool_vdev.c:661-735 | a group that passes is all files or all disks exactly when its devices up to and including the first of known size are |
| VdevReplication.PrefixIgnored | src/zfs-fuse/new_zpool_vdev.c:661-735 | devices of unknown size at the front of a group make no difference to the check |
| VdevReplication.MixAccepted | src/zfs-fuse/new_zpool_vdev.c:661-735 | a file of unknown size and a disk of known size pass as a group |
| VdevReplication.SizeDrift | src/zfs-fuse/new_zpool_vdev.c:708-735 | two known sizes in a group that passes differ by at most one tolerance per place between them |
| VdevReplication.DriftAccepted | src/zfs-fuse/new_zpool_vdev.c:708-735 | the bound is sharp: disks that grow by one tolerance each pass, however many |

## Left out

- Range locks of length zero, and ranges that overflow: callers never ask for them.
- zvol's use of the range lock, which neither appends nor grows blocks.
- SizeIsBytes: audit, alarm and object entries are one kind that chmod skips; the 48-byte size of object entries and the ACL hint
  bits are not modelled.
- HaveCanonicalSix: looks at the last six entries as entries; the source steps back by bytes, which is the same when
  they are bare headers.
- The version 0 layout of ACL entries, inheritance of ACLs and conversion from and to other formats.
- The checks around the access loop (read-only file systems, immutable files, privileges) and the mapping of FUIDs.
- Case folding and normalization of names, wide name locks, and the reserved name of the control directory.
- Make: zfs_create on a name that exists; only the creation of a new name is modelled.
- LinkDestroyIs: the source also refuses busy mount points and directories with locked names; the namespace model has
  neither. The latter refusal is in `DirLockModel.RenameOver`.
- LinkDestroy: as LinkDestroyIs.
- Access checks and timestamps in the namespace operations.
- zfs_rename: the order in which it takes its two name locks, and the case where source and target names differ in case.
- In `RenameModel` a rename whose target directory was removed stops instead of climbing on; it could not have committed.
- `RemoveDir` needs no parent lock in the model, so more interleavings are covered than the source allows.
- NoDeadlock: is about renames. rmdir holds a parent lock too, but waits for no other parent lock while it does, and the
  model lets it come and go in one step.
- Truncation and extension of files; `AppendsDisjoint` is about runs without them.
- AlwaysFits: the record size stays the same during a run, and the DMU grants the block size that is asked for.
- Memory-mapped writes, quotas, set-id bits and timestamps of a write; ZIL commit and the order of records of different
  writes. Records carry the data as of the log call.
- Replay of records other than TX_WRITE.
- Device probing, labels and in-use checks of vdevs; replacing and spare vdevs inside a group count as their first child.
- The other parts of the repository: command-line tools, FUSE plumbing, ioctl dispatch and the libraries below.
