# A verified model of the Linux VFS core

This project models the parts of the Linux virtual file system that keep linked structures, tables and rings consistent
while they are changed in place, and proves what they are for. Each module stands for one component. Objects that the
kernel updates in place are classes, loops stay loops, and concurrent protocols are state machines over their atomic
steps, with any number of tasks and interleavings in a sequentially consistent order.

| files | component |
|---|---|
| `Propagation`, `PropagationOps`, `PropagationClone`, `GroupIds`, `PropagationWalk` | peer groups and slaves of mounts: changing propagation, cloning, group ids for a tree, the walk without a visited set |
| `Umount`, `UmountSweep`, `UmountCollect`, `UmountFinish`, `PropagateUmount` | propagation of umount |
| `TreeWalk`, `CopyTree` | the mount tree walk and the pruned copy of a mount tree |
| `NsLoop` | mount namespaces that hold each other's files |
| `WriteAccess`, `WriteCalls`, `WriteRemount` | writers against read-only remounts |
| `DirTree`, `Dcache` | the dentry tree under allocation, rename, exchange and splicing |
| `DirLocks`, `DirCalls` | lock order of directory operations |
| `PathSpec`, `PathWalk`, `PathPrint`, `PathLaws` | path resolution, path printing, and what paths mean |
| `FdTable`, `FdResize`, `FdCalls`, `Bits` | file descriptor tables, and their resizing against lockless installs |
| `Pipe` | the pipe ring |
| `Writeback` | writeback queues |
| `ExecStack` | strings and pointers on the stack of a new program |
| `CoreNotes`, `CoreFile` | the notes and the layout of core files |
| `Lists` | doubly linked lists as sequences |

Methods on linked structures take the set `S` of all objects as a ghost parameter. Ghost fields such as `ring`, `rank` and
`depth` witness that rings are closed and that master and parent links have no cycles. Memory allocation, user memory,
permission checks and the file system's own operations are parameters: a flag or a number says whether and how far they succeed.

Three properties do not hold without a condition. The condition is one that can be checked before the call, and it is proved
to be exact:

- A clone joins the propagation graph in order if and only if `Joinable` holds of the original and the flags
  (`PropagationClone.CloneMnt`). A clone that is to be a peer of a mount without a group id breaks the graph
  (`GroupIds.UnlabelledPeer`). invent_group_ids rules that out for every mount of a tree (`GroupIds.InventGroupIds`).
- No note is stored outside the array of notes of a thread, and as many bytes are written as were counted, whatever the
  threads, if and only if no regset without a note type comes before one with a type (`CoreNotes.RoomExact`,
  `CoreNotes.CountExact`). The smallest view for which it fails is `CoreNotes.GapLeavesArray`.
- A step keeps the order of mount namespaces if and only if the test of mnt_ns_loop passes for every mount that a recursive
  bind copies (`NsLoop.StepExact`). The code makes the test for the root of the tree alone. That is enough when the source
  is in the caller's own namespace, or when nothing is mounted on it, so every run of such steps is free of cycles
  (`NsLoop.NoNamespaceCycle`). `NsLoop.ForeignTreeClosesCycle` has a run after which another recursive bind closes one.

## Model

| member | source | states |
|---|---|---|
| Propagation.UnlinkKeepsRings | fs/pnode.c:106-108 | taking a mount out of its peer ring leaves every ring closed |
| Propagation.SlavedReception | fs/pnode.c:110-116 | turning a mount into a slave changes nothing about which other mounts hear each other |
| PropagationOps.FindPeer | fs/pnode.c:94-105 | the peer chosen has the same root dentry as the mount if any peer has, and otherwise is the next one |
| PropagationOps.DoMakeSlave | fs/pnode.c:73-117 | for every well-formed graph: the result is well formed, and the mount has become a slave of the chosen peer, or of its old master, and hands its slaves over |
| PropagationOps.ChangePropagation | fs/pnode.c:122-137 | the graph stays well formed; no other pair of mounts notices; shared and slave mounts hear what they heard; a slave is heard by nobody; a private or unbindable mount hears nobody either |
| PropagationClone.PeeredReception | fs/namespace.c:1080-1085 | a clone in the peer group hears, and is heard, exactly like the original |
| PropagationClone.BelowReception | fs/namespace.c:1075-1079 | a clone below the original hears what it hears and what happens on it, and nobody hears the clone |
| PropagationClone.BesideReception | fs/namespace.c:1080-1085 | a clone of a mount without peers hears what the common master hears |
| PropagationClone.MislabelledIsBroken | fs/namespace.c:1032-1090 | two neighbours on a ring with different group ids cannot be part of a well-formed graph |
| PropagationClone.PartedIsBroken | fs/namespace.c:1083-1084 | a clone between a mount and its next peer, on the list of their master, cannot be part of a well-formed graph |
| PropagationClone.Join | fs/namespace.c:1032-1090 | where the clone ends up for every combination of flags, that reception is as described above when it is joinable, and what is broken when it is not: two ids on one ring, one id on two, or peers parted on the list of their master |
| PropagationClone.CloneMnt | fs/namespace.c:1021-1105 | the graph with the clone is well formed if and only if the original is joinable with these flags, for all flags and graphs, and then it is exact whom the clone hears, who hears it, and that nobody else notices; its group id, MNT_SHARED, MNT_UNBINDABLE and place for all flags; failure exactly when an id is needed and there is none |
| GroupIds.UnlabelledPeer | fs/namespace.c:1037-1041 | an example of a clone that breaks the graph: a peer of a mount without an id |
| GroupIds.CleanupGroupIds | fs/namespace.c:1784-1792 | exactly the mounts before the given one, in the order of the walk, that are not shared lose their id |
| GroupIds.InventGroupIds | fs/namespace.c:1794-1809 | every mount of the tree has an id afterwards and is joinable for CL_MAKE_SHARED, those that had none got the ids handed out, each once, and no other mount changes; or the ids did not suffice, and all are as they were |
| PropagationWalk.PropagationNext | fs/pnode.c:149-168 | returns the next mount of the recursive order of peers and slaves, and nothing exactly when none is left |
| PropagationWalk.Walk | fs/pnode.c:392-410 | the loop over propagation_next ends, having met exactly the mounts of the recursive order |
| PropagationWalk.WalkMeetsAllOnce | fs/pnode.c:139-168 | that order holds every mount that hears the origin exactly once, and no other |
| PropagationWalk.WithoutNewMounts | fs/pnode.c:139-168 | without new mounts, what the walk reaches is all that receives events from the origin |
| Umount.UmountOne | fs/pnode.c:434-441 | exactly one mount becomes unmounted and leaves its parent's list; the bookkeeping of all others is kept |
| Umount.CheckBare | fs/pnode.c:461-471 | true if and only if every child covers the root of the mount or has been visited and marked |
| Umount.TryUmount | fs/pnode.c:447-486 | which of the three things happens: nothing to a mount that is gone or marked, unmounting of a bare one that is not locked, otherwise waiting, with a mark if it is bare; in each case the state of the collection is kept |
| UmountSweep.Lookup | fs/pnode.c:566-567 | a mount at that parent and mountpoint, or none is hashed there |
| UmountSweep.SkipSubtree | fs/pnode.c:170-181 | only mounts below the current one are passed over |
| UmountSweep.SweepSkip | fs/pnode.c:571-580 | when the child there has been visited before, everything passed over has been dealt with before |
| UmountSweep.UmountUpwards | fs/pnode.c:592-599 | going up while there is progress leaves no mount behind that could go |
| UmountCollect.Spread | fs/pnode.c:552-601 | after one mount of the list, every mount that propagation reaches at its mountpoint has been visited, in spite of the skipping |
| UmountCollect.Collect | fs/pnode.c:550-601 | the same for the whole list |
| UmountFinish.UmountList | fs/pnode.c:488-501 | afterwards no unmounted mount has a mounted child other than those waiting to be restored; nothing already unmounted comes back |
| UmountFinish.FindSpot | fs/pnode.c:515-520 | if the parent stays, the place where the mount is; otherwise there is a way up over mounts that are gone, one parent after the other, and the place is that of the last of them, whose parent stays |
| UmountFinish.ChangeMountpoint | fs/namespace.c:889-919 | the mount leaves the list of its old parent and is last on that of the new one; nothing else moves, and trees and lists agree |
| UmountFinish.RestoreOne | fs/pnode.c:507-522 | the mount ends at that place, with a parent that stays, and unmarked |
| UmountFinish.RestoreMounts | fs/pnode.c:503-524 | every waiting mount ends at that place in the tree before the first move, whatever the order; no other mount moves |
| PropagateUmount.GoneExactly | fs/pnode.c:434-501 | after the lists are settled, a mount is gone if and only if it is a candidate, no child holds it, and its lock has given way |
| PropagateUmount.AllGone | fs/pnode.c:447-501 | every set of candidates that could go together has gone, whatever the order of visits |
| PropagateUmount.Choose | fs/pnode.c:550-604 | the decisions are settled: nothing unmounted can stay and nothing left can go |
| PropagateUmount.PropagateUmount | fs/pnode.c:542-609 | a mount is newly unmounted if and only if it is reached by propagation from the list, no remaining child holds it, and its lock has given way; these are the largest set of candidates that could go together, and all are on the list once; a remaining mount whose parent stays has not moved, and one whose parent went has the parent and the mountpoint of the last mount that went on the way up; no remaining mount has an unmounted parent, and no marks are left |
| TreeWalk.NextMnt | fs/namespace.c:946-960 | the next mount of the recursive preorder, nothing exactly at its end |
| TreeWalk.SkipMntTree | fs/namespace.c:962-970 | the walk goes on as after everything below the mount |
| TreeWalk.WalkMeetsAllOnce | fs/namespace.c:946-960 | the preorder holds every mount below the root once and nothing else |
| CopyTree.ClimbBoth | fs/namespace.c:1693-1696 | climbing with both pointers, the second always is the copy of the first |
| CopyTree.SkipStop | fs/namespace.c:1683-1692 | passing over a pruned mount loses nothing that is to be copied |
| CopyTree.CopyChild | fs/namespace.c:1682-1706 | after one child of the root, everything kept below it has been copied in order; fails exactly when memory for a kept mount is missing |
| CopyTree.CopyTree | fs/namespace.c:1659-1716 | the copies are in one-to-one relation to exactly the mounts to which a way down leads that starts inside the dentry and has no unbindable mount and no mount of a namespace file on it, unless those are asked for, with the same roots, mountpoints, parents and order of children; no unbindable mount and no namespace file that was not asked for is among the copies; there is none if and only if the root is one and those are not asked for, or there is memory for fewer mounts |
| NsLoop.TreeExact | fs/namespace.c:1646-1657 | a tree copied into a namespace obeys the order if and only if the test passes for every mount copied, and not just for its root |
| NsLoop.SafeSourceExact | fs/namespace.c:2129-2136 | whatever copy_tree prunes, its copy obeys the order, if and only if the test passes for everything mounted below the source |
| NsLoop.StepExact | fs/namespace.c:2097-2158 | creating namespaces, mounting, binding, moving, propagating and unmounting keep the order, and a recursive bind keeps it if and only if the test of mnt_ns_loop passes for every mount it copies |
| NsLoop.OwnSourcePasses | fs/namespace.c:2129-2138 | a recursive bind from the caller's own namespace, or of a mount with nothing on it, passes the test throughout |
| NsLoop.NoNamespaceCycle | fs/namespace.c:2766-2808 | in every state of every run with recursive binds taken from the caller's own namespace, no chain of namespaces, each holding a file of the next, closes |
| NsLoop.ForeignTreeClosesCycle | fs/namespace.c:2110-2136 | a run of ordinary steps, and a recursive bind from another namespace after it, by which a namespace comes to hold its own file |
| NsLoop.BindExact | fs/namespace.c:2110-2126 | a file of a namespace can be bound in another if and only if that one is older, and then the older one holds the younger one |
| NsLoop.HoldsStays | fs/namespace.c:2097-2158 | no step but unmounting makes a namespace let go of another |
| NsLoop.RemoveExact | fs/namespace.c:1371-1426 | after unmounting, a namespace holds another if and only if one of its mounts of the other's file is left |
| NsLoop.MountsAfter | fs/namespace.c:2097-2158 | exactly what a step mounts appears, and exactly what it unmounts goes |
| NsLoop.MoveCarries | fs/namespace.c:2254-2319 | a mount that is moved hangs at its new parent with everything that was below it |
| WriteAccess.StepKeeps | fs/namespace.c:297-325 | every step of writers, mnt_make_readonly, __mnt_unmake_readonly and sb_prepare_remount_readonly keeps the handshake invariant |
| WriteAccess.NoWriterWhileReadOnly | fs/namespace.c:507-590 | in every state of every run no task has write access to a read-only mount, nor to any mount of a superblock that is read-only or being made so |
| WriteAccess.WritersExact | fs/namespace.c:468-473 | in every state of every run the writer count of a mount is the number of tasks counted on it |
| WriteAccess.UnmakeNeedsUmount | fs/namespace.c:2217-2240 | an example: without the serialisation by s_umount, a writer that has read one of the two flags slips in during a remount |
| WriteCalls.MakeExact | fs/namespace.c:507-547 | in every run, after a whole call of mnt_make_readonly the mount is read-only if nobody was counted on it when the writers were read, and otherwise as it was before the call; the hold is off |
| WriteCalls.StaysReadOnly | fs/namespace.c:549-554 | in every run a read-only mount stays read-only until __mnt_unmake_readonly |
| WriteCalls.ScanExact | fs/namespace.c:556-590 | in every run, a whole call of sb_prepare_remount_readonly leaves s_readonly_remount set if and only if nobody was counted on any mount whose writers it read and no removed inode was in use at its last check; no hold is left |
| WriteCalls.FlagsStay | fs/super.c:857-877 | in every run s_readonly_remount stays set until it is taken back, and the superblock is read-only as last stored |
| WriteCalls.RefusedWithReason | fs/namespace.c:297-325 | in every run, a task that wants write access is not refused if nothing was read-only or about to be for as long as it wanted it |
| WriteCalls.WantExact | fs/namespace.c:297-325 | a call of __mnt_want_write without interruption gives write access if and only if nothing is read-only, and the count goes up with access and not without |
| WriteCalls.CloneSucceeds | fs/namespace.c:359-369 | a call of mnt_clone_write without interruption, by a task that has write access, gives one more access |
| WriteCalls.NobodyStuck | fs/namespace.c:297-590 | in every state of every run, a task in a call can go on or waits for a hold, and whoever holds the mount lock can take a step that brings it nearer to its end |
| WriteCalls.LeavesOnce | fs/namespace.c:297-325 | a counted task leaves only when it was refused or gives its write access back, which it keeps until then |
| WriteCalls.FlagsNeedUmount | fs/namespace.c:2217-2240 | the flags of the superblock change only in a remount of it, and MNT_READONLY only in a remount of the mount, both under s_umount |
| WriteRemount.MakeReadOnly | fs/namespace.c:507-547 | mnt_make_readonly without interruption makes the mount read-only if nobody is counted on it, and otherwise changes nothing |
| WriteRemount.MakeWritable | fs/namespace.c:549-554 | __mnt_unmake_readonly without interruption makes the mount writable and changes nothing else |
| WriteRemount.RemountReadOnly | fs/super.c:810-877 | a remount of the superblock without interruption, with nobody counted on a writable mount and no removed inode in use, makes it read-only and changes nothing else |
| WriteRemount.RemountWritable | fs/super.c:810-877 | the other way round, without conditions |
| WriteRemount.NewMountWritable | fs/namespace.c:297-325 | a new mount that is not read-only can be written to if the superblock can |
| WriteRemount.RemovedExact | fs/inode.c:280-342 | in every run s_remove_count is the number of inodes that lost their last name and have not gone since |
| DirTree.SwapKeepsForest | fs/dcache.c:2842-2850 | exchanging the parents of two dentries keeps a forest with no new roots if and only if neither goes below itself |
| DirTree.SpliceKeepsForest | fs/dcache.c:2835-2841 | hanging a disconnected root in keeps a forest if and only if the root does not go below itself |
| Dcache.DAncestor | fs/dcache.c:2904-2913 | finds a dentry if and only if the first is a proper ancestor of the second, and then the child on the way |
| Dcache.DMove | fs/dcache.c:2797-2858 | parents, names and hashing of exactly the two dentries change places as asked; forest, child lists, kinds and names stay valid; neither BUG_ON can fire |
| Dcache.DAlloc | fs/dcache.c:1682-1699 | a new leaf, with everything still valid |
| Dcache.DAdd | fs/dcache.c:2556-2580 | the dentry gets its inode and is hashed, with everything still valid |
| Dcache.SpliceCanMove | fs/dcache.c:2976-3022 | an alias that is no ancestor of the new dentry meets everything that moving it asks for |
| Dcache.DSpliceAlias | fs/dcache.c:2976-3022 | a loop is reported if and only if the alias is an ancestor, a stale handle if and only if the alias hangs elsewhere and the locks were not to be had; errors change nothing; otherwise the alias is in the place of the new dentry, or that one has the inode, and the tree is valid |
| Dcache.AncestorTraps | fs/namei.c:2816-2844 | the child found on the way is the only one of its parent that must not be moved |
| Dcache.FindTrap | fs/namei.c:2816-2844 | the trap is exactly that child, for both directions |
| Dcache.TrapTestExact | fs/namei.c:4520-4564 | the two comparisons with the trap are true if and only if one dentry is an ancestor of the other |
| Dcache.Rename | fs/namei.c:4334-4576 | succeeds if and only if the source is there, the target is there for an exchange and not there for RENAME_NOREPLACE, slashes come after directories only, neither dentry is an ancestor of the other, the inodes differ, the kinds agree unless exchanged, and all checks pass; then it moves or exchanges exactly as asked and keeps the tree valid; every error leaves the tree alone, and most are stated exactly |
| DirLocks.FirstIsNotBelow | fs/namei.c:2816-2844 | lock_rename never locks a directory before one above it |
| DirLocks.StepKeeps | fs/namei.c:4306-4328 | every step of create, unlink, rmdir, link and rename keeps the locking invariant, tree changes included |
| DirLocks.NoDeadlock | fs/namei.c:4306-4328 | in a state with the invariant no set of tasks waits for itself |
| DirLocks.DeadlockFree | fs/namei.c:4391-4396 | in no state of any run of any number of tasks is there a set of tasks each waiting for a lock that one of them holds |
| DirLocks.OrderMatters | fs/namei.c:2824-2844 | an example: with the two directories locked the other way round, a rename and an rmdir deadlock |
| DirCalls.ChangesLocked | fs/namei.c:4306-4328 | a directory changes its parent only by a holder of the locks of both parents and of the rename mutex, and appears only by a holder of the lock of its parent |
| DirCalls.OneHolder | fs/namei.c:2816-2844 | in every state of every run a lock has one holder |
| DirCalls.WaitingWaits | fs/namei.c:2816-2844 | a task that waits for a lock does nothing but take it, and is changed by nobody else |
| DirCalls.HeldChanges | fs/namei.c:2816-2856 | what a task holds changes only by the lock that it waited for and that is free, and by one that it drops |
| DirCalls.SomeoneCanGo | fs/namei.c:4306-4328 | in every state of every run with an operation under way, some operation under way can take a step |
| DirCalls.RenameMoves | fs/namei.c:2815-2856 | a rename of a directory without interruption, not to below itself, takes its locks, moves it, drops them, and changes nothing else |
| DirCalls.RenameMovesBack | fs/namei.c:2815-2856 | the same for the directory in an exchange with a file |
| DirCalls.RenameSwaps | fs/namei.c:2815-2856 | the same for an exchange of two directories |
| DirCalls.MkdirMakes | fs/namei.c:3569-3613 | the same for making a directory |
| DirCalls.VictimGetsLocked | fs/namei.c:3814-3830 | the victim of an rmdir is locked after its parent if it is free |
| DirCalls.TargetGetsLocked | fs/namei.c:4392-4396 | the target of a rename that is not above the old directory is locked after both directories if it is free |
| DirCalls.FileGetsLocked | fs/inode.c:957-976 | a file is locked after the directories, and after files with lower addresses, if it is free |
| PathSpec.SlashAfterIsLast | fs/namei.c:2067-2077 | a trailing slash, as the walk sees it, is a last character that is a slash, after some component |
| PathWalk.Nameidata.PickLink | fs/namei.c:1669-1709 | one level deeper with one more link taken, or nothing at the limit of 40 |
| PathWalk.WalkComponent | fs/namei.c:1740-1781 | error, link or place, and depth and saved names in each case, for normal names, dot and dot-dot |
| PathWalk.GetLink | fs/namei.c:996-1048 | the walk stands at the root for an absolute body, and the rest after leading slashes is to be walked |
| PathWalk.TakeComponent | fs/namei.c:2033-2086 | taking one component off the path, or off the saved names, does not change what the walk means |
| PathWalk.Advance | fs/namei.c:2086-2116 | one component walked: what is ahead still resolves to the same result, and the error is the one the reference gives |
| PathWalk.LinkPathWalk | fs/namei.c:2019-2118 | all but the last component walked, through any links, with the same result ahead and the stack as it was |
| PathWalk.LookupLast | fs/namei.c:2223-2230 | the last component: found, error, or a trailing link whose body resolves to the same result |
| PathWalk.PathLookupat | fs/namei.c:2262-2299 | for every tree and path, the iterative walk with its stack of saved names gives the result of the recursive resolver that replaces links by their bodies (section 4.13 of POSIX.1-2017, Base Definitions) |
| PathPrint.PrependName | fs/dcache.c:3053-3073 | a slash and the name in front, nothing behind touched, and failure exactly when there is no room |
| PathPrint.DentryPath | fs/dcache.c:3341-3384 | the buffer ends with the path and its NUL; failure if and only if they do not fit |
| PathPrint.SplitJoin | fs/namei.c:2067-2077 | a slash between two paths puts their components one after the other |
| PathPrint.SlashJoin | fs/namei.c:2067-2077 | whether a slash follows the last component of such a path |
| PathPrint.PrintResolves | fs/dcache.c:3341-3384 | resolving the printed path from anywhere finds the dentry it was printed for, also a symbolic link if links at the end are not followed |
| PathLaws.DotDotResolves | fs/namei.c:1432-1452 | for every tree and every directory in it that can be reached and searched, its path and dot-dot resolve to its parent, and at the root to the root |
| PathLaws.DotResolves | fs/namei.c:1740-1760 | its path and a dot resolve to the directory itself |
| PathLaws.DotsGoOn | fs/namei.c:2044-2060 | dot-dot on the way goes on from the parent, and a dot from the directory itself, whatever comes after |
| PathLaws.SlashResolves | fs/namei.c:2110-2116 | slashes after a directory change nothing; after anything else that is no link, a slash is ENOTDIR whatever comes after; nothing is found in a directory that cannot be searched |
| PathLaws.MissingFails | fs/namei.c:1740-1781 | a name that a directory does not have is ENOENT, whatever comes after it |
| PathLaws.LinkGoesOn | fs/namei.c:2095-2109 | a path through a link is its body with the rest of the path, looked up where the link is, with one more link counted, or fails at the limit or where links may not be followed |
| PathLaws.LinkAtEnd | fs/namei.c:2211-2230 | a link at the end is followed if that is asked for or a slash comes after it, and a slash wants a directory |
| PathLaws.ChainExact | fs/namei.c:1669-1677 | a chain of links is followed to its end if it has at most 40 of them, and fails with ELOOP if it has more, as every loop does |
| FdTable.TableSizeFits | fs/file.c:90-144 | the rounded size is whole words, large enough if the limit allows it, and barely above the limit otherwise |
| FdTable.Fdtable.SetOpenFd | fs/file.c:244-250 | one descriptor is marked, and a second-level bit still is set exactly when its word is full |
| FdTable.Fdtable.ClearOpenFd | fs/file.c:252-256 | the same for clearing |
| FdTable.FindNextFd | fs/file.c:467-479 | the first free descriptor from the start on, although full words are not looked at |
| FdTable.CopyBitmaps | fs/file.c:54-70 | bitmaps copied and padded so that both levels agree again |
| FdTable.CopyFdtable | fs/file.c:76-88 | the larger table holds what the smaller held, and nothing else |
| FdTable.Files.ExpandFiles | fs/file.c:198-231 | the table is large enough afterwards, or there is no memory, or the descriptor is past the limit, each if and only if that is so; no descriptor changes |
| FdTable.Files.AllocFd | fs/file.c:484-540 | the least unused descriptor at or above the start, for every history of the hint, and the next hint; failure if and only if that one is at or past the end or the table cannot grow to it (section 2.14 of POSIX.1-2017, System Interfaces) |
| FdTable.Files.CloseFd | fs/file.c:625-645 | succeeds if and only if there is a file, and then frees that descriptor only |
| FdTable.Files.Install | fs/file.c:591-613 | the claimed descriptor gets the file |
| FdTable.Files.DoDup2 | fs/file.c:812-853 | busy if and only if the descriptor is claimed without a file; otherwise exactly that slot is replaced |
| FdTable.Files.Dup3 | fs/file.c:878-910 | the new descriptor has the file of the old one and no other changes; each error has its cause |
| FdTable.CountOpenFiles | fs/file.c:258-270 | whole words up to the last one in use, at least one |
| FdTable.DupFd | fs/file.c:277-371 | the copy has every descriptor with a file, with its flag, and no other; both bitmap levels agree; no memory is reported if and only if a larger table was needed and was not to be had |
| FdResize.StepKeeps | fs/file.c:153-231 | every step of resizing, claiming, installing, giving back, closing and dup2, and threads coming and going, keep the invariant of the resize protocol |
| FdResize.NoInstallLost | fs/file.c:591-613 | in every state of every run the published table holds every completed install and nothing else |
| FdResize.NoBug | fs/file.c:153-188 | in every state of every run the slot to be installed is inside its table and empty, the table about to be replaced still is too small, and the new one is larger |
| FdCalls.InstallStays | fs/file.c:591-613 | in every run, the file that fd_install was called with is in the published table from its store on, whatever resizes are under way, until the descriptor is closed or replaced |
| FdCalls.ReplacementStays | fs/file.c:812-853 | the same for the file of a dup2 |
| FdCalls.ClosedStays | fs/file.c:625-645 | in every run a closed descriptor is empty until a file is put in it again |
| FdCalls.NobodyStuck | fs/file.c:153-231 | in every state of every run, a thread in a call can go on, or waits for one that holds the lock or is installing and that can go on |
| FdCalls.ResizeSucceeds | fs/file.c:153-188 | a resize without interruption, with a large enough new table, ends with a table that holds what the old one held and has room for the descriptor |
| FdCalls.OpenSucceeds | fs/file.c:484-613 | a descriptor that is claimed and installed to without interruption leads to the file, with or without a resize under way |
| FdCalls.RoundTrips | fs/file.c:553-569 | claiming a descriptor and giving it back, and sharing a table and leaving it, leave everything as it was |
| FdCalls.LockExcludes | fs/file.c:153-188 | while a resize holds the lock nobody claims, gives back, installs or closes |
| Bits.RoundupPow2 | fs/pipe.c:1023-1035 | the power of two at or above the argument and below its double |
| Bits.MaskIsRemainder | fs/pipe.c:380-383 | masking with one less than a power of two takes the remainder |
| Pipe.Pipe.Read | fs/pipe.c:251-350 | takes the oldest bytes, as many as asked for and there, off the queue; stops early only for a fault |
| Pipe.Pipe.Merge | fs/pipe.c:379-402 | appends to the last buffer exactly when that allows it, has room, and the data can be read; a fault exactly when only that fails; the room left |
| Pipe.Pipe.Fill | fs/pipe.c:404-459 | appends page by page up to the first obstacle, and which one it is; what does not fill a page goes in as a whole or not at all; the room left in the last page |
| Pipe.Pipe.Write | fs/pipe.c:358-492 | appends a prefix of the data; at most a page goes in as a whole or not at all; bytes accepted are bytes delivered and bytes held, in order; a small write that fits the last page succeeds in a full pipe, and after a small write the next one may be merged into what is left of the page |
| Pipe.Pipe.Relocate | fs/pipe.c:1099-1114 | the buffers are in the new array from 0 on, in order, wrapped or not |
| Pipe.Pipe.SetSize | fs/pipe.c:1041-1125 | the bytes held do not change; the accounting follows the size; denied if and only if the pipe would grow past the limit on its size or the user past one of the limits on pages, without the capability for it; each other error has its cause; errors change nothing |
| Pipe.RoundPipeSizeExact | fs/pipe.c:1023-1035 | a power of two of pages that holds what was asked for; zero if and only if more than 2 GiB were, after truncation to 32 bits |
| Writeback.TakeExpired | fs/fs-writeback.c:1110-1130 | stopping at the first inode that is too new finds all that have expired, and whether regrouping is needed |
| Writeback.Regroup | fs/fs-writeback.c:1138-1146 | inodes of one superblock together, each superblock in unchanged order |
| Writeback.MoveExpired | fs/fs-writeback.c:1096-1149 | exactly the expired inodes leave the queue, for the head of the dispatch queue, in order or regrouped |
| Writeback.SameLength | fs/fs-writeback.c:1138-1146 | regrouping is a permutation |
| Writeback.Wb.RedirtyTail | fs/fs-writeback.c:1045-1055 | the queue gets in order, even if the time of the inode was changed where it stood, because the time is renewed exactly when it has to be; the inode leaves its other list |
| Writeback.Wb.RequeueIo | fs/fs-writeback.c:1060-1063 | the inode is first on b_more_io and on no other list |
| Writeback.Wb.Enqueue | fs/fs-writeback.c:2185-2206 | a newly dirty inode is first on the right queue, which stays in order |
| Writeback.Wb.RequeueInode | fs/fs-writeback.c:1247-1303 | which list an inode goes to and which time it has in every case after writing, wherever it stood, also when it was switched to this writeback in the meantime; all queues stay in order |
| Writeback.Wb.SwitchTo | fs/fs-writeback.c:406-419 | an inode on a list keeps its time and goes to its place in the other queue, which stays in order; one on no list stays off |
| Writeback.Wb.QueueIo | fs/fs-writeback.c:1162-1174 | exactly the expired inodes of both queues are queued, in order or grouped by superblock, before the unfinished ones; no inode is lost or doubled |
| ExecStack.CopyOne | fs/exec.c:505-555 | the string and its NUL end right below the position, whatever pages they cross; succeeds if and only if reading does not fault and the pages can be had |
| ExecStack.CopyStrings | fs/exec.c:479-565 | succeeds if and only if all strings are readable, none is too long, and there is room; then they follow each other in order, and nothing else is touched |
| ExecStack.LoadStrings | fs/exec.c:1770-1779 | arguments, environment and file name lie one after the other up to the top, if and only if all are readable, none is too long, and there is room |
| ExecStack.RemoveArgZero | fs/exec.c:1559-1592 | the layout is that of the remaining arguments |
| ExecStack.StrnlenUser | fs/binfmt_elf.c:317-319 | the length up to the first NUL, or why there is none |
| ExecStack.PointersFind | fs/binfmt_elf.c:311-339 | every pointer leads to its own string |
| ExecStack.PutPointers | fs/binfmt_elf.c:311-339 | the walk over lengths stores the start addresses of all strings in order and ends where they end; a fault if and only if there is no room for all of them |
| ExecStack.PutHolds | fs/binfmt_elf.c:307-343 | every word stored is at its address |
| ExecStack.PutElsewhere | fs/binfmt_elf.c:307-343 | no word outside the block changes |
| ExecStack.CreateElfTables | fs/binfmt_elf.c:285-344 | argc, pointers to all arguments and environment strings, and the auxiliary vector are stored in a block aligned to 16 bytes below the strings (section 3.4.1 of the AMD64 System V ABI), or there is a fault because the stack does not grow or not all words can be stored; arguments and environment end where exec starts |
| CoreNotes.WriteNote | fs/binfmt_elf.c:1421-1431 | from an aligned position a note takes what notesize says, laid out by its header |
| CoreNotes.ReadAll | fs/binfmt_elf.c:1421-1431 | reading a note segment back by its headers gives its notes, in order |
| CoreNotes.CountTypes | fs/binfmt_elf.c:1791-1797 | thread_notes is the number of regsets with a note type |
| CoreNotes.IndexExact | fs/binfmt_elf.c:1791-1820 | every regset with a type has an index below that number if and only if the view has no gap |
| CoreNotes.RoomExact | fs/binfmt_elf.c:1815-1823 | no thread stores a note outside its array, whatever its regsets give, if and only if the view has no gap |
| CoreNotes.CountExact | fs/binfmt_elf.c:1708-1767 | the notes inside the array take what was counted, whatever the thread, if and only if the view has no gap |
| CoreNotes.GapLeavesArray | fs/binfmt_elf.c:1791-1820 | the smallest view with a gap: the note of the third regset is stored outside an array of two |
| CoreNotes.FillThread | fs/binfmt_elf.c:1708-1767 | the array holds exactly the notes of the regsets that give one, and the size counted is theirs; or an index outside the array is about to be stored at |
| CoreNotes.FillNoteInfo | fs/binfmt_elf.c:1769-1862 | refused if and only if regset 0 is not NT_PRSTATUS; otherwise what each thread gives for its first regset and for every other one with a type stands at the index of that regset, and the size is that of all notes in the order they will be written |
| CoreNotes.WriteNoteInfo | fs/binfmt_elf.c:1873-1905 | exactly the notes collected are written, the process-wide ones after the first of the first thread |
| CoreFile.WriteProgramHeaders | fs/binfmt_elf.c:2314-2335 | the headers follow each other, and each has the offset that the sizes before it add up to |
| CoreFile.WriteSegments | fs/binfmt_elf.c:2351-2373 | each segment starts where the sizes before it add up to, and each page lies in its place |
| CoreFile.ElfCoreDump | fs/binfmt_elf.c:2198-2395 | for every view and all threads: the ELF header, the program headers, the notes and every segment are in the file where the first pass put them; notes fill p_filesz exactly and read back in order; a reader who goes by the ELF header, and with extended numbering by the section header at the e_shoff found there, gets the true number of segments; there is a dump unless regset 0 is wrong or a note would leave its array, which no view without a gap allows |

## Left out

- propagate_mnt, next_group and propagate_one, in particular how propagate_one chooses the mount that it copies, other than as the source of mounts without namespace files in `NsLoop`; propagate_mount_busy and propagate_mount_unlock.
- RCU-walk, sequence counter retries and dentry lifetime: the walk is the one with references, on a tree that does not change.
- Mount point crossing, automounts, revalidation, LOOKUP_ROOT, O_CREAT and the jumping links of procfs in path resolution.
- Word-at-a-time hashing and comparison of names.
- Permission, LSM, audit, notification and cgroup hooks, other than as a flag that says whether an operation is permitted.
- The part of umount_tree before and after propagate_umount, namely marking the tree and detaching what was unmounted. What it establishes is the precondition `Ready`.
- The second pass of copy_mnt_ns, which moves the caller's root and working directory.
- Splicing of disconnected trees in the lock order model; dput and the shrinkers.
- Emergency remounts, and the direct store to the mount flags in do_remount.
- Memory barriers: steps are interleaved in the order of the program.
- Packet mode, splice and tee on pipes, and the cached page of a pipe. Sleeping is not modelled: an operation ends where it would wait.
- Cgroup ownership of writeback, and the flusher threads. Times do not wrap around.
- Stacks that grow up, machines without an MMU, fatal signals during exec, and the contents of the auxiliary vector.
- Failed allocations and the order of the thread list in fill_note_info; contents of the headers of core files other than sizes, offsets and counts. fs/coredump.c is not part of this model.
- CopyTree.CopyTree: does not carry the propagation links of the clones, which `PropagationClone.CloneMnt` has, nor MNT_LOCKED.
- UmountFinish.ChangeMountpoint: does not model the hash chain, which propagate_umount does not look at again.
- FdTable.Files.ExpandFiles: no other thread acts while the lock is dropped; the steps of other threads are part of `FdResize`.
- FdTable.Files.AllocFd: no other thread acts while the lock is dropped for growing; the steps of other threads are part of `FdResize`.
- FdTable.Files.Install: models the install under the lock; the lockless one is part of `FdResize`.
