# Blackroo Linux: models and proofs

Blackroo Linux is a Linux 2.4 kernel without memory management unit for the PlayStation, with
its own userland and image tools. This project models its hardest state machines in Dafny and
proves what they keep. Each module follows one source file; `dafny verify dfyconfig.toml`
checks all of them.

| modules | source | subject |
|---|---|---|
| LockTypes, LockWalk, LockSound, LockNormal, LockSystem, LockTable | blackroo/fs/locks.c | POSIX record locks (section 6.5.2 of POSIX.1-1990) |
| SemOps, SemSystem, SemCalls, SemLedger, SemRemoval, SemSet | blackroo/ipc/sem.c, blackroo/ipc/util.h | System V semaphores with undo |
| BufCache, BufOps, BufSystem, BufMarks, BufTable | blackroo/fs/buffer.c | the buffer cache |
| DentryTree, Dcache, DcacheOps, DcacheNames, DcacheTable | blackroo/fs/dcache.c, blackroo/fs/namei.c | dentry counts, the prune loop, directory rename |
| PidAlloc | blackroo/kernel/fork.c | process numbers |
| MsgQueue, MsgSystem, MsgCalls, MsgTable | blackroo/ipc/msg.c | message queues |
| PipeRing, PipeSystem | blackroo/fs/pipe.c | pipes (section 6.4.2 of POSIX.1-1990) |
| BlockRead | blackroo/fs/block_dev.c | reads from block devices |
| Reloc | blackroo/fs/binfmt_flat.c | MIPS relocations of flat binaries |
| LittleEndian, Ext2Image, Mkfs | userland/brsh.c | the ext2 formatter |
| PsExe | tools/elf2psexe.c, tools/addpsexe_initrd.c | the boot image |
| Lists | (helpers) | sequences without repetition |

How it is built:

- A step is a critical section under the source's lock; steps are split where the source
  sleeps. `Exec` runs any sequence of steps by any number of tasks, and the theorems about runs
  hold for all of them. A step that its caller may not take at that point does not happen.
- The `...Table`, `...Set` and similar classes hold the fields and loops of the source and are
  proved equal to the specification functions that the theorems are about.
- Beside the invariants, `...Means` and `...Iff` lemmas say what each call answers and changes in
  terms that do not name its code: byte maps, ledgers, lookups, sums of operations.
- Linked lists are sequences. Integers are unbounded except where a width decides something:
  OFFSET_MAX in locks.c, 16-bit undo adjustments in sem.c, 32-bit words in
  Reloc, Mkfs and PsExe.

Promises that the code does not keep, with the exact condition under which it does:

- locks.c line 916 computes `fl_end + 1`, which wraps for a request to the end of the file. The
  loop then stops at the first own record of the same mode that it should merge
  (LockNormal.NormalIff, LockNormal.EffectIff, LockNormal.WrapExample). Exclusion between
  owners, live waiters and the absence of cycles hold all the same (LockSystem.RunSafe).
- sem.c: a call that `update_queue` has finished meets `BUG()` exactly when the set is removed
  before its task runs and its slot is still empty then (SemRemoval.BugIff,
  SemRemoval.BugReached).
- fork.c: a fork that sleeps between taking its number and becoming visible, while the numbers
  wrap, leads to two tasks of one number (PidAlloc.SleepingForkDuplicates); one whose copied
  group falls out of use meanwhile leads to a task with that group's number
  (PidAlloc.StaleGroupReused). PidAlloc.PublishIff says exactly when a child does harm, and
  PidAlloc.RunFirst that children of the same lap with a live group do none.
- dcache.c: `prune_dcache` counts a second chance without testing the counter, so it can pass
  zero and prune everything; it keeps to its count n exactly when the n-th dentry from
  the old end was not recently referenced (Dcache.PruneIff, Dcache.OneReferencedPrunesAll).
- buffer.c: `getblk` with a size that is no multiple of 512 takes a smaller buffer, and taken
  twice it caches one key twice (BufOps.GetblkIff).
- block_dev.c: a read comes up short at the incomplete last block of a device
  (BlockRead.ReadsAllIff, BlockRead.ShortReadExample).
- binfmt_flat.c: the value kept for a HI16 is shared with 26-bit entries, and jumps move right
  only by word-aligned bases. Reloc.RelocatedIff gives, for every table of distinct words,
  exactly the references that come out right (Reloc.JumpBetweenFails, Reloc.OddBaseFails), and
  Reloc.CompleteIff exactly the tables of which every entry is carried out.
- brsh.c: beyond 8193 blocks the free count is more than the one bitmap has clear bits
  (Mkfs.ConsistentIff), and beyond 261987 blocks the bitmap loop leaves its buffer
  (Mkfs.InsideIff).
- elf2psexe.c: segments on both sides of 0x80000000 do not all load at their addresses
  (PsExe.PlacedIff, PsExe.TwoSidesExample).

Where comment and code differ: the comment in convert_mode of msg.c (lines 711-715) has a negative
type ask for types below its negation; the code, and the model, take those up to it.

## Model

| member | source | states |
|---|---|---|
| LockSound.ApplySound | blackroo/fs/locks.c:896-1010 | On any list of record locks a granted request leaves every other owner's records alone, gives the caller nothing it did not hold or ask for, covers all requested bytes when it is a lock, narrows or drops a record only after waking its waiters, and takes at most two new records |
| LockSound.ApplySpares | blackroo/fs/locks.c:890-1010 | A granted request wakes only tasks that wait for a record of the caller |
| LockNormal.NormalIff | blackroo/fs/locks.c:896-1010 | From a list whose owners are contiguous, sorted, disjoint and coalesced, the result is in that form again if and only if the `fl_end + 1` of line 916 does not wrap over a record that should have been merged |
| LockNormal.EffectIff | blackroo/fs/locks.c:896-1010 | For every owner, mode and byte the granted request changes the byte map exactly on the requested range of the caller, if and only if the wrap does not leave a record of another mode in place |
| LockNormal.SetsOwn | blackroo/fs/locks.c:896-1010 | Without the wrap each byte of the caller is held afterwards in exactly the mode that the byte map specification gives, for locks and for unlocks |
| LockNormal.StaleFails | blackroo/fs/locks.c:911-921 | When the wrap leaves a stale record, some byte keeps its old mode although a new one was granted |
| LockNormal.WrapBreaksNormal | blackroo/fs/locks.c:911-921 | When the wrap misfires the finished list is not in normal form |
| LockNormal.WrapExample | blackroo/fs/locks.c:911-921 | A read lock to the end of the file over own locks on 10..20 and 30..40 leaves byte 35 write-locked and two overlapping read records |
| LockSystem.RunSafe | blackroo/fs/locks.c:846-1021 | After any run of set, wait, signal and close on any files: no byte is write-locked by one owner and held by another, each sleeping request names a record still on its list that still conflicts with it, and no chain of waits returns to its start |
| LockSystem.RunRefines | blackroo/fs/locks.c:846-1021 | Over every run that does not meet the wrap, the lists in normal form behave as the map from (file, owner, byte) to mode |
| LockSystem.StepRefines | blackroo/fs/locks.c:846-1021 | One set, signal or close step changes the byte map as its specification says and keeps every list in normal form |
| LockSystem.VerdictIff | blackroo/fs/locks.c:868-905 | The answer of every request, over the byte map: granted if and only if no other owner holds a conflicting byte of it, and then a lock is held on every requested byte, wrap or no wrap; else EAGAIN if and only if it may not wait, EDEADLK if and only if a sleep would make the caller wait for itself, and a sleep otherwise; an error changes nothing |
| LockSystem.RunVerdict | blackroo/fs/locks.c:868-905 | After any run that does not meet the wrap a request is granted exactly when the byte map of that run has nothing against it |
| LockSystem.DeadlockIff | blackroo/fs/locks.c:652-678 | The search for deadlocks refuses exactly the sleeps that would close a cycle of waits |
| LockSystem.SetWakes | blackroo/fs/locks.c:846-1021 | A request leaves everybody asleep who waits for another owner than the caller, and puts nobody but the caller to sleep |
| LockSystem.CloseWakes | blackroo/fs/locks.c:1647-1675 | A close wakes exactly the requests asleep on a record that it drops |
| LockSystem.SignalWakes | blackroo/fs/locks.c:486-507 | A signal ends exactly the sleep of its task |
| LockSystem.StepKeeps | blackroo/fs/locks.c:846-1021 | Every step keeps exclusion, live waiters, one sleep per owner and finite chains of waits |
| LockSystem.NewWaitEnds | blackroo/fs/locks.c:652-678 | A wait that passes the deadlock search leaves every chain of waits finite |
| LockSystem.NoCycle | blackroo/fs/locks.c:652-678 | Where chains end, no owner waits for itself through any number of others |
| LockSystem.CloseRefines | blackroo/fs/locks.c:1647-1675 | Closing removes exactly the closing owner's bytes from the byte map |
| LockTable.Locks.FindConflict | blackroo/fs/locks.c:868-887 | The scan finds the first record of another owner that overlaps and conflicts |
| LockTable.Locks.DeadlockTest | blackroo/fs/locks.c:652-678 | The restarting search over blocked requests terminates and answers whether the caller is met on the chain of waits |
| LockTable.Locks.WakeBlocks | blackroo/fs/locks.c:486-507 | The loop empties exactly the block list of one record |
| LockTable.Locks.WalkRecords | blackroo/fs/locks.c:890-984 | The two loops compute the specified walk and wake the waiters of every record they narrow, replace or delete |
| LockTable.Locks.ApplyRequest | blackroo/fs/locks.c:890-1010 | The whole granted request, in place, equals the specified outcome on list, block lists and record count |
| LockTable.Locks.LockFile | blackroo/fs/locks.c:846-1021 | One call up to its return or sleep is the specified step with the verdict that LockSystem.VerdictIff describes, and keeps the invariant |
| LockTable.Locks.RemovePosix | blackroo/fs/locks.c:1647-1675 | The closing loop is the specified step and keeps the invariant |
| LockTable.Locks.Interrupted | blackroo/fs/locks.c:486-507 | A signalled sleeper leaves its block list and nothing else changes |
| SemOps.Answer | blackroo/ipc/sem.c:241-299 | The answer is 0 if and only if every prefix of the list is legal: zero tests see zero and running values stay within 0..SEMVMX, repeated semaphores included |
| SemOps.AnswerIff | blackroo/ipc/sem.c:241-299 | In terms of sums of operations: 0 exactly when none has to wait or overflows; otherwise the first that does decides, ERANGE exactly for an overflow, EAGAIN exactly for a wait with IPC_NOWAIT, and 1, to sleep, exactly for a wait without |
| SemOps.TryAtomicSemop | blackroo/ipc/sem.c:241-299 | The in-place attempt answers so, applies the whole list when it succeeds and is no trial, and otherwise leaves all values and adjustments as they were |
| SemOps.Rollback | blackroo/ipc/sem.c:287-298 | Undoing the first n operations restores values and 16-bit adjustments exactly |
| SemOps.ValuesAreSums | blackroo/ipc/sem.c:241-299 | After k operations each value is the old one plus the sum of the operations on it |
| SemOps.AdjustsAreSums | blackroo/ipc/sem.c:241-299 | After k operations each adjustment is the old one minus the sum of the SEM_UNDO operations, cut to 16 bits |
| SemOps.ValuesBounded | blackroo/ipc/sem.c:258-270 | A legal list takes no value below zero, and none above SEMVMX unless it was there untouched |
| SemSystem.RunSerial | blackroo/ipc/sem.c:304-330 | After any run of calls, wake-ups, signals, SETVAL, SETALL and exits: the values are a serial application of the completed lists, each legal in its turn and each the list, with its process, that its call submitted; a call that returned 0 took effect once and one that returned an error never; a sleeping call has had no effect; no value is negative |
| SemCalls.RunAnswers | blackroo/ipc/sem.c:241-299 | Over every run what a call returned is right: EINVAL and EFBIG in exactly their cases; 0, EAGAIN and ERANGE only as the answer on the values at some moment of the log, so EAGAIN needs an operation with IPC_NOWAIT; else EINTR or the end of its task |
| SemCalls.SemopMeans | blackroo/ipc/sem.c:826-890 | A call sleeps exactly when the answer on the values as they are is 1, behind the others if it changes something and in front of them if it only tests; else it returns that answer, and after a change the sleepers have been looked through |
| SemCalls.WakeMeans | blackroo/ipc/sem.c:893-957 | A woken sleeper that was told to try sleeps on exactly when the answer is 1 again, else returns it; one that was not told returns EINTR |
| SemCalls.SetMeans | blackroo/ipc/sem.c:549-638 | SETVAL and SETALL out of range change nothing; else they are the next entry of the log, after which the sleepers have been looked through |
| SemCalls.ExitMeans | blackroo/ipc/sem.c:978-1041 | An exit drops the sleeping call of its process; if the process has an undo structure its exit is the next entry of the log and the others have been looked through |
| SemCalls.PassLeaves | blackroo/ipc/sem.c:304-330 | Where update_queue ends: everybody left asleep ahead of that point could not go ahead in its turn; at it is a sleeper that takes something away, may go ahead now and is sent to try; the rest of the list is as it was |
| SemCalls.PassFinishes | blackroo/ipc/sem.c:304-330 | A call that update_queue finishes was asleep and gets the answer of its turn; it succeeds there only if it takes nothing away |
| SemCalls.ChangeRefines | blackroo/ipc/sem.c:241-1041 | Each entry of the log changes the table of values and the table of what each process owes as it should |
| SemLedger.RunLedger | blackroo/ipc/sem.c:241-1041 | Over every run in which a process makes one call at a time, all values and all 16-bit debts are what the log says when it is read as a ledger: operations add, SEM_UNDO books the debt of its process, a set value cancels debts, an exit pays but not below zero |
| SemRemoval.RunSerialAll | blackroo/ipc/sem.c:379-406 | The same for every set that ever was in an identifier slot, over runs in which sets are also removed and created again: a call that returns EIDRM is in the log zero times, a call stopped at `BUG()` as often as its status says |
| SemRemoval.BugIff | blackroo/ipc/sem.c:893-957 | Over every run of creations, removals, steps within the set and wake-ups: a call is stopped at the `BUG()` of the sleep loop if and only if another task had finished it, the set was removed before it ran, and the slot was empty when it woke; with a new set in the slot it returns, since `ipc_lock` checks no sequence number |
| SemRemoval.BugReached | blackroo/ipc/sem.c:893-957 | A run to it: a wait for zero, SETVAL 0, IPC_RMID, wake-up; with a semget before the wake-up the same call returns |
| SemSystem.OperateBalance | blackroo/ipc/sem.c:241-299 | Value plus what is owed by undo structures changes only by the operations without SEM_UNDO, modulo the 16-bit width of adjustments |
| SemSystem.LeaveBalance | blackroo/ipc/sem.c:978-1041 | An exit keeps that balance if and only if it does not have to clamp the value at zero |
| SemSet.Set.UpdateQueue | blackroo/ipc/sem.c:304-330 | The in-place pass over the pending list is the specified one: completes, tries or skips each sleeper in order |
| SemSet.Set.Semop | blackroo/ipc/sem.c:826-964 | One call up to its return or sleep is the specified step and keeps the structures linked |
| SemSet.Set.Wake | blackroo/ipc/sem.c:893-957 | A woken sleeper retries, returns or sleeps again as specified |
| SemSet.Set.ReturnFinished | blackroo/ipc/sem.c:930-957 | A call finished by another task returns its status and frees nothing else |
| SemSet.Set.SetVal | blackroo/ipc/sem.c:622-638 | SETVAL clears every adjustment of the semaphore, sets it and runs the queue |
| SemSet.Set.SetAll | blackroo/ipc/sem.c:549-587 | SETALL refuses a value out of range without any effect, otherwise sets every semaphore, clears every adjustment and runs the queue |
| SemSet.Set.Exit | blackroo/ipc/sem.c:978-1041 | An exit drops a sleeping call without effect, pays the adjustments clamped at zero, unlinks the undo structure and runs the queue |
| SemSet.Set.FreeAry | blackroo/ipc/sem.c:379-406 | The removal loops leave the specified state: every sleeper is finished with EIDRM, no adjustment is owed to the set, and calls that were finished before keep their status |
| PidAlloc.Allocator.GetPid | blackroo/kernel/fork.c:82-123 | The number returned is the cyclically first one after the last, wrapping to 300, that no task has as pid, process group or session; the cached gap is then free of used numbers |
| PidAlloc.Allocator.Scan | blackroo/kernel/fork.c:95-119 | The restarting scan terminates and finds that number and the next used one above it |
| PidAlloc.CyclicFirstUnique | blackroo/kernel/fork.c:82-123 | That description fixes the number |
| PidAlloc.FreeIff | blackroo/kernel/fork.c:95-119 | The scan has an answer if and only if some reachable number is free |
| PidAlloc.RunFirst | blackroo/kernel/fork.c:723-842 | Over every run of overlapping forks, failed forks, exits and changes of group, in which each child becomes visible in the same lap of the counter as its fork with its group and session still in use: each fork gets the cyclically first number free among the visible tasks, and no two visible tasks share a number |
| PidAlloc.StepOk | blackroo/kernel/fork.c:723-842 | Each such step keeps the cached gap free of used numbers, and a fork returns the cyclically first free one |
| PidAlloc.StepNumbered | blackroo/kernel/fork.c:723-842 | Each such step keeps the numbers of visible tasks and of children on their way distinct |
| PidAlloc.PublishIff | blackroo/kernel/fork.c:832-842 | All forks to come are answered right after a child becomes visible if and only if none of the number, group and session that it copied at its fork lies strictly between the last number and the cached bound |
| PidAlloc.ForkIff | blackroo/kernel/fork.c:82-123 | A fork returns a number in use if and only if it takes the fast path and the number after the last is in use |
| PidAlloc.GapIff | blackroo/kernel/fork.c:82-123 | Every run of forks from here on gets the cyclically first free numbers if and only if the cached gap holds no number in use |
| PidAlloc.SleepingForkDuplicates | blackroo/kernel/fork.c:749-842 | A run from boot in which a fork sleeps over the wrap; it ends with two visible tasks of one number |
| PidAlloc.StaleGroupReused | blackroo/kernel/fork.c:723-842 | A run in which every child becomes visible in the lap of its fork, but one with a group that its parent has left meanwhile; a later fork returns that group number |
| DentryTree.IsSubdir | blackroo/fs/dcache.c:1096-1113 | On a forest the walk up terminates and decides ancestry |
| DentryTree.SwapIff | blackroo/fs/dcache.c:918-947 | The swap of parents keeps a forest with the same roots if and only if neither dentry is an ancestor of the other |
| DentryTree.SwapKeepsForest | blackroo/fs/dcache.c:918-947 | The swap of two unrelated dentries creates no cycle and no new root |
| DentryTree.SwapBelowBreaks | blackroo/fs/dcache.c:918-947 | Moving a dentry below itself makes a cycle or a new root |
| DentryTree.ChildlessNotAncestor | blackroo/fs/namei.c:1702-1736 | A target with nothing below it is nobody's ancestor |
| DentryTree.RenameDir | blackroo/fs/namei.c:1702-1736 | The guarded rename keeps the parent pointers a forest in every case and succeeds exactly when nothing else fails and the target is not below the source |
| Dcache.DputKeeps | blackroo/fs/dcache.c:123-169 | The cascading release keeps every count equal to outside references plus children, and the unused list equal to the dentries of count 0, and drops no dentry that is still referenced |
| Dcache.PruneKeeps | blackroo/fs/dcache.c:331-363 | The prune loop, undisturbed, with its second chances and the parents it puts back, terminates, keeps that and drops no outside reference |
| Dcache.PruneIff | blackroo/fs/dcache.c:331-363 | A request for n dentries of a list at least that long stops after n looks if and only if the n-th dentry from the old end was not recently referenced when the call began; if it was, the whole unused list goes |
| Dcache.PruneLooks | blackroo/fs/dcache.c:331-363 | For any list: a request for n stops at its n-th look when that finds an unreferenced dentry, otherwise the whole unused list goes |
| Dcache.PruneAll | blackroo/fs/dcache.c:331-363 | A counter that is not above zero is never met: the whole unused list goes |
| Dcache.OneReferencedPrunesAll | blackroo/fs/dcache.c:344-360 | A request to free one dentry frees them all when the oldest was recently referenced |
| DcacheOps.AllocKeeps | blackroo/fs/dcache.c:599-646 | A new child counts for its parent |
| DcacheOps.LookupKeeps | blackroo/fs/dcache.c:714-749 | A lookup takes its hit off the unused list when it was there and counts the reference |
| DcacheOps.GetKeeps | blackroo/fs/dcache.c:227-236 | Taking a reference keeps counts and unused list in step |
| DcacheOps.MoveKeeps | blackroo/fs/dcache.c:918-947 | A move changes no count, and counts still match references plus children |
| DcacheNames.LookupStep | blackroo/fs/dcache.c:123-947 | What every step does to every lookup, where only free names are hashed: a hashed dentry is found under its name, a dropped or freed one is not, a moved one is found under the target's parent and name and no longer under its own, the target not at all, and every other lookup answers as before |
| DcacheNames.MoveNames | blackroo/fs/dcache.c:866-947 | d_move of a hashed dentry onto a hashed one, whatever it leaves of the target's name: the lookup of the target's old name finds the dentry, that of the dentry's old name misses, all others are unchanged |
| DcacheNames.RunNames | blackroo/fs/dcache.c:714-749 | Over every run that hashes only free names a lookup finds a dentry if and only if it is hashed under that parent and name |
| DcacheNames.LookMeans | blackroo/fs/dcache.c:714-749 | A hit takes one reference, leaves the unused list and earns a second chance; a miss changes nothing |
| DcacheNames.PutMeans | blackroo/fs/dcache.c:123-169 | A turn of the release loop takes one reference; at the last the dentry goes if its file system wants that or it is not hashed, leaving its parent's reference to put, and else becomes the most recent unused one |
| DcacheNames.ShrinkMeans | blackroo/fs/dcache.c:331-363 | A turn of the prune loop spares the oldest unused dentry if it was used since, as the most recent one, and else frees it and leaves its parent's reference to put |
| DcacheOps.RunCounts | blackroo/fs/dcache.c:123-947 | After any run of alloc, lookup, get, hash, unhash, move, single turns of the release loop and single turns of the prune loop, interleaved between any two kills: each count is references plus children, unused means count 0, `nr_unused` is the list's length, and every dentry has a root |
| DcacheOps.PutKeeps | blackroo/fs/dcache.c:123-169 | One turn of the release loop keeps that, whether the dentry stays referenced, goes to the unused list or is killed and its parent's reference is still to be put |
| DcacheOps.DputTurns | blackroo/fs/dcache.c:123-169 | The whole cascade is such turns, from child to parent |
| DcacheTable.Table.Put | blackroo/fs/dcache.c:123-169 | The `goto repeat` loop is the specified cascade |
| DcacheTable.Table.PruneCache | blackroo/fs/dcache.c:331-363 | The prune loop, in place, is the specified one; its `BUG()` is not reached |
| DcacheTable.Table.Lookup | blackroo/fs/dcache.c:714-749 | The chain walk finds the first match and hands out a counted reference |
| DcacheTable.Table.Move | blackroo/fs/dcache.c:918-947 | d_move in place is the specified move and keeps the invariant |
| BufCache.CachedUnique | blackroo/fs/buffer.c:424-545 | The hash chains are a map: a (device, block, size) has at most one buffer |
| BufCache.IndexRounds | blackroo/fs/buffer.c:55-62 | The size index rounds down and is exact on multiples of 512 |
| BufOps.GetblkRefines | blackroo/fs/buffer.c:978-1017 | getblk is lookup or insert: the answer caches the asked key, is the buffer the key had if there was one, and no other key gains or loses a buffer; it asks for a refill exactly when the key is absent and the free list of its size empty |
| BufOps.GetblkIff | blackroo/fs/buffer.c:978-1017 | For a size the table accepts, the buffer handed out has the asked size if and only if that is a multiple of 512, and the cache stays a map if and only if it is or the rounded key was absent |
| BufOps.OddSizeDuplicates | blackroo/fs/buffer.c:978-1017 | Asked twice for 700 bytes of a block, getblk caches two buffers under one key |
| BufOps.RefileKeeps | blackroo/fs/buffer.c:1106-1122 | Refiling moves a buffer to the list its bits call for and keeps lists, counts and byte totals exact |
| BufOps.MarkEndKeeps | blackroo/fs/buffer.c:1080-1101 | When a marking is over its buffer is where a dirty buffer belongs, whatever happened between the bit and the refile |
| BufMarks.MarkMeans | blackroo/fs/buffer.c:1080-1101 | Marking leaves the buffer dirty and, if it is not protected and no other marking is under way, on the DIRTY list; no other buffer changes |
| BufMarks.FileMeans | blackroo/fs/buffer.c:1106-1122 | Refiling puts the buffer on the list of its bits, protected before dirty before locked |
| BufOps.BforgetKeeps | blackroo/fs/buffer.c:1149-1167 | A forget keeps lists, counts and byte totals exact |
| BufMarks.ForgetMeans | blackroo/fs/buffer.c:1149-1167 | A forget of the last reference to an unlocked buffer uncaches exactly its key and puts it at the end of the free list of its size; any other forget takes a reference and no more |
| BufOps.TryToFreeRefines | blackroo/fs/buffer.c:2354-2399 | Freeing a page is all or nothing: it happens exactly when none of its buffers is referenced, dirty, locked or protected, and then exactly the keys they cached are forgotten |
| BufOps.GrowKeeps | blackroo/fs/buffer.c:2248-2300 | A new page of buffers joins the free list of its size |
| BufMarks.GrowMeans | blackroo/fs/buffer.c:2248-2300 | A page of buffers of a size that fits joins the free list of that size, in front of those that were there; any other size adds nothing |
| BufOps.FlushMissesNone | blackroo/fs/buffer.c:2537-2580 | When a pass over the DIRTY list finds nothing to write, every dirty buffer of the cache is locked, protected or still being marked |
| BufSystem.RunSafe | blackroo/fs/buffer.c:424-545 | After any interleaving of lookups, releases, forgets, two-step markings, cleaning, locking, protecting, growing, freeing and flush scans, for every hash function: one buffer to a key, each cached buffer on the LRU list it names, no buffer on two LRU lists, counters exact, every dirty unprotected buffer whose marking is over on the DIRTY list |
| BufSystem.StepKeeps | blackroo/fs/buffer.c:424-545 | Each of those steps keeps the whole invariant, free lists included |
| BufMarks.StepBits | blackroo/fs/buffer.c:424-2580 | Every step does to every buffer's count, dirty, locked and protected bits what it should and no more |
| BufMarks.RunMarked | blackroo/fs/buffer.c:1080-1101 | Over every run a buffer is dirty if and only if it was marked and since then neither cleaned nor forgotten to its last reference; so no page of a marked buffer is freed |
| BufMarks.RunFlush | blackroo/fs/buffer.c:2537-2580 | Over every run, when a scan finds nothing to write, every buffer marked and not cleaned or forgotten since is locked, protected or still being marked |
| BufTable.Table.Find | blackroo/fs/buffer.c:532-545 | The chain walk finds the first match |
| BufTable.Table.GetBlock | blackroo/fs/buffer.c:978-1017 | getblk in place is the specified lookup or insert |
| BufTable.Table.RefileBuffer | blackroo/fs/buffer.c:1106-1122 | The refile in place is the specified one |
| BufTable.Table.MarkDirty | blackroo/fs/buffer.c:1080-1101 | Marking by one task is the two specified steps in turn |
| BufTable.Table.ForgetBuffer | blackroo/fs/buffer.c:1149-1167 | The forget in place is the specified one |
| BufTable.Table.TryToFreeBuffers | blackroo/fs/buffer.c:2354-2399 | The two loops over the page are the specified all-or-nothing step |
| BufTable.Table.ScanDirty | blackroo/fs/buffer.c:2543-2566 | The scan of the DIRTY list, which moves buffers off the list it walks, is the specified pass |
| MsgQueue.LoadMsg | blackroo/ipc/msg.c:158-208 | The text is cut into a first page and full segments with a last partial one, and joins up to the text |
| MsgQueue.StoreMsg | blackroo/ipc/msg.c:210-235 | Storing n bytes takes exactly the first n of the segmented text |
| MsgQueue.RoundTrip | blackroo/ipc/msg.c:158-235 | Load then store returns exactly the sent prefix, for every length |
| MsgQueue.SearchMessages | blackroo/ipc/msg.c:749-764 | The search loop, which lowers its own bound, is the specified search |
| MsgQueue.SearchRight | blackroo/ipc/msg.c:749-764 | It finds the first match, or for a negative type the first message of the least eligible type, and nothing only when nothing matches |
| MsgQueue.ModeIff | blackroo/ipc/msg.c:708-725 | The converted type and mode test for exactly what msgtyp and MSG_EXCEPT ask for |
| MsgQueue.SearchPromised | blackroo/ipc/msg.c:708-764 | For every msgtyp the search finds exactly the promised message, for a negative one the first of the least type up to its negation, and none only when no message is asked for |
| MsgQueue.RightChoiceUnique | blackroo/ipc/msg.c:749-764 | There is only one such message |
| MsgQueue.PipelinedSend | blackroo/ipc/msg.c:600-624 | The loop is the specified hand-over |
| MsgQueue.PipelinedMeans | blackroo/ipc/msg.c:600-624 | The message goes to the first waiting receiver that it matches and that has room; exactly those ahead of it that match, having no room, are woken with E2BIG, and all others wait on in their order |
| MsgSystem.RunSafe | blackroo/ipc/msg.c:626-842 | After any run on any queues: no waiting receiver matches a queued message, every accepted message is in exactly one of queue, hand, received or freed, a received one is, type and text, the one that was sent, both counters of each queue and both totals are exact, and a removed queue holds nothing |
| MsgSystem.StepGenuine | blackroo/ipc/msg.c:626-842 | Every step keeps each message, wherever it is, as it was sent |
| MsgCalls.RunDue | blackroo/ipc/msg.c:626-842 | Over every run each received message is of a type that its call asked for by msgtyp and MSG_EXCEPT, and no longer than its buffer unless it asked to have it cut |
| MsgCalls.SendMeans | blackroo/ipc/msg.c:626-706 | A message is accepted exactly when it is short enough, of positive type, for a queue that is there and has room; it then goes to the first waiting receiver that matches and has room, or else to the end of the queue; otherwise nothing changes |
| MsgCalls.ReceiveMeans | blackroo/ipc/msg.c:727-806 | In terms of msgtyp: a receive takes the promised message if there is room for it and fails without effect if not; with none there it waits at the end of the line or fails without effect |
| MsgCalls.RemoveMeans | blackroo/ipc/msg.c:266-301 | A removed queue is gone, its messages are freed and every one of its receivers is woken with EIDRM, in order |
| MsgSystem.SendKeeps | blackroo/ipc/msg.c:626-706 | A send keeps that invariant |
| MsgSystem.ReceiveKeeps | blackroo/ipc/msg.c:744-806 | A receive keeps it |
| MsgSystem.RemoveKeeps | blackroo/ipc/msg.c:266-301 | Removal keeps it: receivers are woken with EIDRM, messages freed, totals lowered |
| MsgSystem.WakeKeeps | blackroo/ipc/msg.c:808-838 | A receiver that wakes by itself, to leave or to retry, keeps it |
| MsgSystem.ReceiveTakesOldest | blackroo/ipc/msg.c:749-784 | A receive that returns a message takes the right choice and leaves no older message of its type behind |
| MsgSystem.HandoverOvertakesNone | blackroo/ipc/msg.c:600-624 | A message handed straight to a receiver overtakes no queued message of its type |
| MsgSystem.RetryWaitsAgain | blackroo/ipc/msg.c:808-838 | A wake-up that brought nothing puts the receiver at the end of the line |
| MsgTable.Ipc.Msgsnd | blackroo/ipc/msg.c:626-706 | The call in place is the specified send, and its result is fixed in every case: EINVAL, EIDRM, acceptance, EAGAIN or a wait |
| MsgTable.Ipc.Msgrcv | blackroo/ipc/msg.c:727-806 | The call in place, for msgtyp as given: the promised message, E2BIG, ENOMSG or a wait, each in exactly its case, and the specified step |
| MsgTable.Ipc.Retry | blackroo/ipc/msg.c:741-806 | The part from the label `retry` on is the specified receive |
| MsgTable.Ipc.Freeque | blackroo/ipc/msg.c:281-301 | Removal in place is the specified one |
| MsgTable.Ipc.ExpungeAll | blackroo/ipc/msg.c:266-279 | Every waiting receiver is woken with the error, in order |
| PipeRing.Pipe.Drain | blackroo/fs/pipe.c:86-120 | The copy loop over the ring takes the oldest bytes in order, up to the count, and leaves the rest; the `BUG()` behind it is unreachable |
| PipeRing.Pipe.Fill | blackroo/fs/pipe.c:181-200 | The copy loop puts in as much as fits behind what is there |
| PipeRing.RingTake | blackroo/fs/pipe.c:87-104 | What is read up to the end of the page is the head of the ring |
| PipeRing.RingPut | blackroo/fs/pipe.c:182-199 | What is written up to the end of the page extends the ring |
| PipeSystem.RunFifo | blackroo/fs/pipe.c:60-231 | After any interleaving of readers and writers, sleeps, signals, opens and closes, the bytes read are a prefix of the bytes written, at most one page behind |
| PipeSystem.RunAtomic | blackroo/fs/pipe.c:155-231 | A write of at most PIPE_BUF bytes that has returned lies in the stream whole, contiguous and once, or not at all |
| PipeSystem.RunResults | blackroo/fs/pipe.c:122-231 | A returned read reports exactly the bytes it was given and a returned write exactly how much of its data went in |
| PipeSystem.ReadMeans | blackroo/fs/pipe.c:60-127 | When a read sleeps, reports end of file or EAGAIN, and what it is given |
| PipeSystem.WriteMeans | blackroo/fs/pipe.c:155-231 | When a write sleeps, fails with EPIPE or EAGAIN, and what goes in |
| PipeSystem.WakeReadMeans | blackroo/fs/pipe.c:76-127 | When a sleeping read returns and with what, what it takes, and when it sleeps on |
| PipeSystem.WakeWriteMeans | blackroo/fs/pipe.c:170-231 | When a sleeping write returns and with what, what it puts in, and when it sleeps on |
| PipeSystem.DrainedEmpty | blackroo/fs/pipe.c:112-120 | A read that wants more after its copy has emptied the pipe |
| BlockRead.Read | blackroo/fs/block_dev.c:166-311 | For every pattern of cached, locked and failing blocks and any read-ahead: the bytes delivered are the device's from the position, as many as are in range before the first unreadable or incomplete block, the position moves by that, the result is that number, 0 or EIO, and the buffers released are those taken, each once and in order |
| BlockRead.ReadsAllIff | blackroo/fs/block_dev.c:194-227 | Where all blocks are readable the read delivers all bytes in range exactly when none lies in an incomplete last block; never short on a device of whole blocks |
| BlockRead.ShortReadExample | blackroo/fs/block_dev.c:194-227 | From a device of 3072 bytes in blocks of 2048, a read of 1000 bytes at 2000 delivers 48 |
| BlockRead.Reader.Request | blackroo/fs/block_dev.c:243-261 | The request loop keeps the 64-slot ring in order and leaves something to complete |
| BlockRead.Reader.Complete | blackroo/fs/block_dev.c:267-296 | The completion loop copies blocks in order and stops at an error with a correct prefix |
| BlockRead.Reader.Release | blackroo/fs/block_dev.c:301-306 | What the ring still holds is released |
| BlockRead.Reader.Amount | blackroo/fs/block_dev.c:240-299 | The rounds deliver what a plain read would |
| Reloc.RelocatedIff | blackroo/fs/binfmt_flat.c:165-264 | For every table with distinct target words: each reference that is carried out decodes afterwards to its old value plus its base (mod 2^32, jumps mod 2^28) if and only if it is a plain word, a jump by a multiple of 4, or a pair for which the value kept at its LO16 is still the high half of its HI16, that is, no 26-bit entry between them left another; opcode bits are kept and no other word changes |
| Reloc.EntryDecodes | blackroo/include/asm-mipsnommu/flat.h:31-55 | An entry made for a section, an offset of either sign, a kind and a base is read back as that |
| Reloc.CompleteIff | blackroo/fs/binfmt_flat.c:165-264 | Every word of the table is part of such a reference if and only if each HI16 is followed by its LO16 before the next HI16 and no LO16 comes without one |
| Reloc.Relocated | blackroo/fs/binfmt_flat.c:165-264 | So a table whose halves are paired without jumps between them, with word-aligned bases for its jumps, relocates every target word and no other |
| Reloc.NoneWaits | blackroo/fs/binfmt_flat.c:227-250 | After a table with all HI16 entries answered none is left waiting for the next program |
| Reloc.JumpArith | blackroo/fs/binfmt_flat.c:251-255 | A jump target moves by its base if and only if the base is a multiple of 4 |
| Reloc.PairIff | blackroo/fs/binfmt_flat.c:234-250 | The patched halves decode to the sum, carry of the signed low half included, if and only if the kept value is the high half |
| Reloc.JumpBetweenFails | blackroo/fs/binfmt_flat.c:227-255 | A table with a jump between a HI16 and its LO16 for which the pair comes out wrong |
| Reloc.OddBaseFails | blackroo/fs/binfmt_flat.c:251-255 | A jump by a base that is no multiple of 4 and comes out wrong |
| Reloc.Loader.DoReloc | blackroo/fs/binfmt_flat.c:165-264 | One call in place is the specified step on memory and on the state kept between calls |
| Reloc.Loader.Relocate | blackroo/fs/binfmt_flat.c:477-487 | The loop over the table is the specified run |
| Mkfs.ConsistentIff | userland/brsh.c:1666-1794 | The written image decodes to a consistent empty ext2 rev-0 file system (regions distinct and in range, both bitmaps equal to what is in use, clear bits equal to all four free counts, one directory counted, records tiling the root block, other inodes empty, block 0 untouched) if and only if the device has at most 8193 blocks |
| Mkfs.InsideIff | userland/brsh.c:1735-1752 | The bitmap loop stays inside its buffer if and only if the device has at most 261987 blocks (for counts below 2^26, where no 32-bit sum wraps) |
| Mkfs.BlocksClear | userland/brsh.c:1735-1752 | The clear bits of the block bitmap are the free blocks within one group |
| Mkfs.Geometry | userland/brsh.c:1666-1692 | The inode count fills whole table blocks and the metadata ends before the device does, for every size from 16 |
| Mkfs.Formatter.Format | userland/brsh.c:1609-1794 | For every 32-bit block count: refused exactly below 16 blocks with nothing written; the bitmap loop leaves its buffer exactly when the metadata passes block 8192; otherwise each block is written as required, and no other block |
| Mkfs.Formatter.Put32 | userland/brsh.c:1587-1593 | The four bytes decode to the value and no other byte changes |
| Mkfs.Formatter.Put16 | userland/brsh.c:1581-1585 | The two bytes decode to the low 16 bits and no other byte changes |
| Mkfs.Formatter.Mark | userland/brsh.c:1738-1751 | The loop stays inside the buffer exactly when its range does, and then sets exactly the bits of its range |
| Mkfs.Formatter.WriteBlockMap | userland/brsh.c:1735-1752 | The block bitmap marks the metadata and the padding, or the loop leaves the buffer, exactly when the metadata passes block 8192 |
| Mkfs.Formatter.WriteInodeMap | userland/brsh.c:1754-1760 | The inode bitmap marks the reserved inodes and the padding |
| Mkfs.Formatter.WriteTable | userland/brsh.c:1762-1778 | The inode table holds the root inode and zeros |
| Mkfs.RootDecodes | userland/brsh.c:1780-1794 | The root block parses as the records . and .. and nothing else |
| PsExe.ElfToPsExe | tools/elf2psexe.c:121-198 | The file carries the image of the segments at the KSEG0 address of the lowest one, zero in gaps and padding, with a size that is a multiple of 2048 |
| PsExe.Scan | tools/elf2psexe.c:121-148 | The scan finds the lowest address and the highest end of the loaded segments |
| PsExe.Assemble | tools/elf2psexe.c:157-172 | Each byte of the image is that of the last segment that has one there, or zero |
| PsExe.ImageLoads | tools/elf2psexe.c:121-198 | After loading, each byte that the ELF file places is at its KSEG0 address |
| PsExe.PlacedIff | tools/elf2psexe.c:184-198 | Each byte of the image is in the file, and lands at its own KSEG0 address if and only if it is on the side of 0x80000000 where the lowest segment is |
| PsExe.TwoSidesExample | tools/elf2psexe.c:184-198 | Of two bytes at 0x7fffffff and 0x80000000 the second is loaded behind the end of the address space |
| PsExe.AddInitrd | tools/addpsexe_initrd.c:105-184 | The output is the kernel unchanged, zeros, the initrd with its header, zeros, under the new size; it is built exactly for files with the magic that are as long as their size field says, a file without the magic is refused, and a shorter one is read past its end |
| PsExe.FirstPage | tools/addpsexe_initrd.c:121-124 | The initrd starts at the least page boundary that leaves 8 bytes for its header at or after the kernel's end |
| PsExe.InitrdLoads | tools/addpsexe_initrd.c:105-184 | After loading, the initrd is there byte for byte, on the first page boundary that leaves room for its header behind the kernel's image and its _end symbol, inside a `t_size` that is a multiple of 2048 |
| PsExe.KernelLoads | tools/addpsexe_initrd.c:160-184 | With the initrd in place every byte of the ELF file is still at its KSEG0 address |

## Left out

- locks.c: FLOCK locks, leases, mandatory locking, the lockd and file-system hooks and the /proc listing; they use the same lists with simpler claims.
- locks.c, fcntl argument copying: byte ranges arrive as start and end.
- sem.c: `sempid`, time stamps, permissions, identifiers and the E2BIG limit on the number of operations; they do not take part in the protocol.
- SemSystem.RunSerial: does not claim that no runnable sleeper remains, because `update_queue` makes one pass; nor a bound of SEMVMX after an exit, which clamps only below.
- buffer.c: page-cache input and output, the queues of dirty buffers per inode, bdflush timing, `set_blocksize` and the flush-time ordering of the DIRTY list; they depend on code outside the file or add easy members.
- BufOps.TryToFreeRefines: one attempt, without the write-back and retry that `wait` asks for.
- BufTable.Table.TryToFreeBuffers: likewise one attempt.
- BufTable.Table.ScanDirty: does not model the exits for buffers whose flush time has not come and for enough buffers written; they end the pass early.
- BufTable: sizes for which the index table has no entry read outside the free lists and are excluded.
- dcache.c: names are numbers, the hash table is one chain, d_delete and d_release are a set of dentries that want to go, and inodes and negative dentries are not distinguished.
- Dcache.PruneKeeps: a whole call undisturbed by other tasks (DcacheOps.RunCounts interleaves its turns); the counter is an unbounded integer, so its wrap after 2^32 prunes is not modelled.
- DentryTree.RenameDir: permissions, quota, the zombie locks and the file system's own rename are one flag, and a target that is an ancestor of the source is taken to be refused by the file system as not empty, as namei.c relies on.
- DcacheNames.LookupStep: does not claim that names stay unique when a caller hashes a name that is taken; dcache.c leaves that to its callers.
- SemLedger.RunLedger: runs in which a process is asleep in two calls at once, which no task can be, are outside it.
- PidAlloc.Allocator.GetPid: CLONE_PID and an exhausted number space, for which the source loops for ever, are excluded by its precondition (see PidAlloc.FreeIff).
- msg.c: identifiers, permissions, time stamps and allocation failures; the list of waiting senders, who only retry; user-copy faults.
- pipe.c: user-copy faults, FIFOs opened by name, and how many readers and writers there are (any change of the counts may happen between steps).
- block_dev.c: block_write, the branches for a null buffer, which getblk does not return, and block sizes that are not powers of two, for which the source's shifts and masks do not divide.
- Reloc.Relocated: assumes target words that are mapped and no HI16 left waiting by an earlier program, as after a load of a complete table (Reloc.NoneWaits); tables that name one word twice are outside Reloc.RelocatedIff.
- brsh.c: argument parsing, the size query, failing writes, and what happens after the bitmap loop has left its buffer.
- elf2psexe.c: ELF header checks, short reads, and the data, bss and stack fields of the PS-EXE header, which any values may fill.
- PsExe.AddInitrd: sizes and addresses whose sums pass 2^32 are excluded by its precondition, and what a read past the end of a short file finds is not modelled.
- The rest of the repository: other drivers, file systems and commands.
