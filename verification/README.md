# BUENOS: models and proofs

BUENOS is a small teaching kernel for a multiprocessor MIPS simulator. This project states what its
file systems, its user heap, its threads, its virtual filesystem layer, its page tables and a few
supporting routines do, in Dafny, and proves it.

**FlatFS** (`FlatLayout`, `FlatGrowth`, `FlatVolume`, `FlatData`, `FlatWriting`, `FlatFailures`, `FlatStray`,
`FlatTail`, `FlatCases`, `FlatFullDisk`, `FlatDirectory`, `FlatRemoval`, `FlatFs`, `FlatTheorems`). The disk is
a sequence of 512-byte blocks. A file is found through seven direct pointers, a single-indirect table and a
double-indirect tree of tables; the object `FlatFs` has the driver's buffers as fields and its methods follow
the driver's loops. `Contents` decodes the disk into a map from names to bytes, and create, read, write and
remove are proved to be the obvious operations on that map. Tables are numbered in file order, so block b is
entry (b - 7) mod 128 of table (b - 7) / 128. The ghost map `own` gives every block at most one use. The write
loop is stated over whatever the buffers hold (`FlatWriting`), so that writes that run out of blocks are covered
too (`FlatFailures`, `FlatStray`, `FlatTail`, `FlatCases`).

**TFS** (`TfsVolume`, `Tfs`). The same for the file system with a flat pointer table, where the bitmap is
proved to be exact.

**User heap** (`HeapLayout`, `Heap`). The heap is an array of bytes; size and link words are decoded from
it. The invariant says that blocks tile the heap, the free list is linked in address order and no two free
blocks touch. Then the blocks are a function of the allocations alone.

**Threads** (`ThreadSystem`, `ThreadTheorems`, `ThreadWakeups`, `ThreadLives`, `ThreadKernel`, `Semaphores`). A
transition system whose steps are the regions run under a spinlock, on four CPUs. A wakeup is two steps, taking
a thread off its chain and making it ready, with steps of other CPUs in between. The class `Kernel` has the
thread table in columns (`threads`, `next`), the ready list's ends and the hash table, and its methods refine
the steps.

**VFS** (`VfsTables`, `VfsProtocol`, `VfsCalls`, `VfsRaces`, `VfsOwners`, `VfsRuns`, `VfsDoubleClose`,
`VfsShutdown`). The mount table and open-file table with the searches on them, and operations, unmounting and
any number of shutdowns as interleaved steps of any number of threads between semaphore operations. Callers may
pass any file number; finding its entry empty stops the kernel, and open, read and write keep the filesystem
they found until they call its driver. Modules of their own say what a single call does among all others, what
callers that own their files may rely on, and what becomes of several shutdowns at once.

**Supporting parts** (`Words`, `Bitmap`, `CStrings`, `Directory`, `Cyclic`, `PagePool`, `PageTable`, `Decimal`).
Big-endian words in blocks, the bitmap and its two searches, the kernel's string copy, the directory block of
both file systems, searches that wrap around a table, the physical page pool, page tables as maps, and printing
and reading of integers.

Machine arithmetic is written out where it matters: the unsigned and signed comparison in malloc, the
unsigned countdown in flatfs_remove, the negation of the least integer in the %d directive, the absence of
overflow in atoi.

## Findings

Properties the code does not have, each with what holds instead.

- A driver can be called on an unmounted filesystem. Nothing ties a file number to who opened it
  (buenos/fs/vfs.c:601-643), and buenos/proc/syscall.c:99 itself closes the entry three below the one it opened.
  `VfsDoubleClose.DriverCalledUnmounted` is such a run; `VfsRaces.DriversMountedExactly` and
  `VfsRaces.DriverFindsUnmounted` say exactly when it happens, and `VfsOwners.OwnersAreSafe` that it does not
  among callers that own their files.
- flatfs_write ignores the answer of the allocator (buenos/fs/flatfs.c:645). For growth that ends within the first
  135 blocks, or within the last table a file has, `FlatCases.GrowthCases` says exactly when that matters. If a
  pointer gets no block, the answer is VFS_ERROR but the bytes before the old end are overwritten, so an error
  changes the file exactly if the data differs from them (`FlatFailures.ErrorChangesExactly`). That error is the
  answer for a block device that refuses a request past its end; the only driver, buenos/drivers/disk.c:306-309,
  stops the kernel instead. If the blocks run out in the last table, which is when fewer are free than the write
  adds (`FlatCases.WithinLast`), the answer is success, the new data is in the header, and no well-formed volume
  is left (`FlatTail.LastTableBreaks`; a disk on which this happens is in `FlatFullDisk`). If they run out in a
  first table, the loop follows what the block taken for it held (`FlatStray.StrayDone`); a write that answers
  success leaves no well-formed volume, unless an entry names the bitmap or the directory
  (`FlatStray.NewTableBreaks`), and on free blocks that hold zeros it always does (`FlatStray.BlankTableBreaks`).
- The empty name, which vfs_parse_pathname passes on (buenos/fs/vfs.c:344-350), matches a free directory entry
  (buenos/fs/flatfs.c:354, buenos/fs/tfs.c:449), exactly as `Directories.FindEntryExactly` says. Open then
  answers block 0. Remove takes the header for an inode and clears the bits its words name. It frees the header,
  after which the disk is no well-formed volume, exactly if all of these are positions of the bitmap
  (`HeaderFreedExactly` of both file systems); otherwise bitmap_set (buenos/lib/bitmap.c:112-134) writes outside
  its buffer or fails its assertion, by the first word that is not one (`Bitmaps.ListFateExactly`). On a volume
  with a stored name, as on every one vfs_mount_all mounts, the first of these words holds that name: if its first
  byte is below 0x80 remove writes outside the bitmap, otherwise the kernel stops, and it never gets to the disk
  (`NamedVolumeFate` of both).
- flatfs_remove (buenos/fs/flatfs.c:397) counts an unsigned number down by 128 and stops at zero only, which it
  meets exactly for multiples of 128 (`FlatRemoval.CountdownReachesZero`, `FlatRemoval.RemovableExactly`). For any
  other file the round after its last table reads block 0 as a table, whose first word, the magic number, makes
  bitmap_set write outside the bitmap (`FlatRemoval.PastTheTables`). Pointer blocks are never freed, so in FlatFS
  an owned block is allocated but not the other way round; in TFS both hold.
- vfs_deinit can be called by several threads, as any process may halt the machine (buenos/proc/syscall.c:170). All
  of them wait for the operations in progress, and the last of these signals once (buenos/fs/vfs.c:399): one
  shutdown goes on, and the others wait for ever (`VfsShutdown.OneSignalForAll`, `VfsShutdown.StuckForever`; a
  run is `VfsShutdown.TwoShutdowns`). This happens exactly if two or more shutdowns had to wait
  (`VfsShutdown.WaitsForEverExactly`). halt_kernel switches the machine off once one has come to its end.
- A mountpoint name stays in its row after unmount, so mounting the same name again fails with VFS_ERROR
  although it is not in use (`VfsTables.RemountRefused`); `VfsTables.MountSucceedsExactly` has the exact
  condition.
- A mountpoint name of 16 or more characters is compared whole and stored cut (buenos/fs/vfs.c:445-454): it is
  not found and can be mounted twice (`VfsTables.MountIsFound`, `VfsTables.LongNameMountsTwice`,
  `VfsTables.NamesStayUnique`).
- tfs_remove reads the pointer before it tests the bound (buenos/fs/tfs.c:484), one word past the inode, exactly
  for files of 127 blocks and without effect on the result (`TrivialFileSystem.Tfs.ClearBits`,
  `TrivialFileSystem.Tfs.Remove`).
- stringcopy is documented to pad the target with nulls; it writes the one terminator again and again
  (buenos/lib/libc.c:149-160), and pads exactly if the bytes were zero already (`CStrings.PaddedExactly`).

## Model

The first 66 rows are the main results; the others, component by component, are the operations and the lemmas
those rest on.

| member | source | states |
|---|---|---|
| FlatFileSystem.FlatFs.AllocBlocks | buenos/fs/flatfs.c:903-976 | on a file of n blocks: succeeds exactly if the free blocks pay for num data blocks and the tables they need; blocks below n stay mapped, n..n+num map to distinct fresh zeroed blocks, pointer blocks are there exactly when the length needs them, unused pointers are zero, only free blocks and the file's pointer blocks were written; if a file without a table runs out in the first 135 blocks, the inode buffer holds -1 at that pointer, or a table that was not written; if any file runs out in its last table, blocks in use and buffers are as before |
| FlatFileSystem.FlatFs.Read | buenos/fs/flatfs.c:445-539 | any read returns exactly the slice of the file from the offset, cut at its end, or the error code, over direct, single and double-indirect blocks; the number right behind the last block, which the bound lets through, is an error too |
| FlatFileSystem.FlatFs.Write | buenos/fs/flatfs.c:545-717 | with room, or found full at the first allocations: the bytes become old[..offset] + data + old[offset+len..], every other file and the directory stay, the invariant holds, the result is the exact code; a bit is set afterwards exactly if it was before or its block is the file's now and was nobody's before, the free blocks fall by just the data, table and double-indirect blocks of the growth, and a write that does not grow the file, or is refused, leaves the bitmap alone; if a pointer gets no block: VFS_ERROR, a volume, and the data is in the file up to its old end; if the blocks run out in a first table: the new blocks went where that table says; if they run out in the last table of the file: full success, with the data up to the old end in the file and the rest in the header |
| FlatFileSystem.FlatFs.Create | buenos/fs/flatfs.c:239-331 | succeeds exactly if the name is new and not empty, the size fits, an entry is free and the free blocks suffice for inode, data, tables and double-indirect block; then the file reads as that many zeros, nothing else changed, and just these blocks are taken; on failure every system block and every owned block, hence the whole volume, is unchanged |
| FlatFileSystem.FlatFs.Remove | buenos/fs/flatfs.c:334-441 | for every file and name, how far it gets: to its end, out of the bitmap buffer, or to the assertion in bitmap_set, the last two before anything is written to the disk; at its end the name is gone, every other file stays, the bits of the inode block and of the data blocks are clear and no other bit has changed, and a well-formed volume is left exactly unless the name is empty and an entry is free, when bit 0 and those the header names are cleared |
| FlatFileSystem.WriteThenRead | buenos/fs/flatfs.c:445-717 | what was written is what a read of the same place returns |
| FlatCases.GrowthCases | buenos/fs/flatfs.c:601-652 | growth that ends within the first 135 blocks or within the last table of the file finds room (or is refused at once) exactly if none of the three failures happens, and these exclude each other |
| FlatFailures.ErrorChangesExactly | buenos/fs/flatfs.c:644-700 | after such an error users see a change exactly if the data differs from the bytes it replaced |
| FlatTail.LastTableBreaks | buenos/fs/flatfs.c:644-714 | growth of a file of any length that runs out within its last table, and so has sent the new data to the header and answered full success, leaves no well-formed volume for any ownership of blocks |
| FlatStray.NewTableBreaks | buenos/fs/flatfs.c:644-714 | if a first table runs out and the write answers success, no well-formed volume is left for any ownership, whatever the free blocks held, unless an entry the loop got to names the bitmap or the directory |
| FlatRemoval.HeaderFreedExactly | buenos/fs/flatfs.c:374-441 | remove of the empty name frees the header exactly if words 1 to 7 of the header are below 4096 (or no entry is free, and nothing happens) |
| FlatRemoval.NamedVolumeFate | buenos/fs/flatfs.c:374-441 | on a volume with a stored name it never does: the kernel writes outside the bitmap if the first character is below 0x80, and stops otherwise |
| FlatFullDisk.WriteOnFullDisk | buenos/fs/flatfs.c:545-717 | on a full disk of 13 blocks with a file of 8 blocks, writing one byte at its end answers success, and the byte is in the header |
| FlatTheorems.BlocksAreDisjoint | buenos/fs/flatfs.c:239-441 | inode, data and pointer blocks of all live files are pairwise distinct, outside the system blocks, and have their bits set |
| TfsVolume.AllocatedExactly | buenos/fs/tfs.c:281-516 | a bit is set exactly if its block is a system block or the inode or a data block of a file in the directory |
| TrivialFileSystem.Tfs.Create | buenos/fs/tfs.c:281-409 | succeeds exactly if the name is new and not empty, the size fits 127 blocks, an entry is free and 1 + n blocks are free; then the file reads as zeros, nothing else changed and exactly 1 + n blocks were taken; otherwise the disk is not touched at all |
| TrivialFileSystem.Tfs.Remove | buenos/fs/tfs.c:426-516 | for every name, how far it gets: to its end, out of the bitmap buffer, or to the assertion in bitmap_set, the last two before anything is written to the disk; at its end the name and exactly its blocks are gone, every other file stays, and the inode is read past its end exactly for files of 127 blocks, and a well-formed volume is left exactly unless the name is empty and an entry is free, when bit 0 and those the header names are cleared |
| TfsVolume.HeaderFreedExactly | buenos/fs/tfs.c:482-516 | remove of the empty name frees the header exactly if the words of the header from word 1 to the first zero one are below 4096 (or no entry is free, and nothing happens) |
| TfsVolume.NamedVolumeFate | buenos/fs/tfs.c:482-516 | on a volume with a stored name it never does: the kernel writes outside the bitmap if the first character is below 0x80, and stops otherwise |
| TrivialFileSystem.Tfs.Write | buenos/fs/tfs.c:654-785 | the data, cut at the end of the file, is spliced into its bytes; header, bitmap, directory and all other files stay; the result is the exact count or code, also for the number right behind the last block |
| TrivialFileSystem.CreateThenRemove | buenos/fs/tfs.c:281-516 | create followed by remove of the same name restores the bitmap word for word and all files; a failed create leaves the disk as it is |
| HeapLayout.Canonical | buenos/tests/lib.c:728-820 | the blocks of a heap in which no free blocks touch are determined by the allocations alone, whatever calls led there |
| UserHeap.Heap.Malloc | buenos/tests/lib.c:738-777 | NULL exactly for size 0 or if no free block holds the rounded size and header; otherwise the first one by address is cut or taken, the payload is at least the request, no other allocation changes a byte, the invariant holds |
| UserHeap.MallocTakesExactly | buenos/tests/lib.c:738-777 | with m the least multiple of 4 that is at least the size and at least 8: what malloc takes is m + 4 bytes off the end of the first free block that has them, or the whole of that block if less than 12 bytes would be left, and every other block is as before |
| UserHeap.MallocFailsExactly | buenos/tests/lib.c:738-777 | with m as there: NULL exactly for size 0 or if every free block is smaller than m + 4 |
| UserHeap.Heap.Free | buenos/tests/lib.c:780-820 | exactly the freed block leaves the allocations, the others keep all their bytes, the list is sorted and joined again |
| UserHeap.Heap.Realloc | buenos/tests/lib.c:834-858 | a NULL pointer allocates, size 0 frees; otherwise NULL and nothing changed exactly if nothing fits, or the first min(old, new) bytes are at the new place, the old block is freed and no other allocation changes |
| UserHeap.FreeUndoesMalloc | buenos/tests/lib.c:738-820 | freeing what malloc has just returned restores every block of the heap |
| UserHeap.PayloadOnly | buenos/tests/lib.c:738-858 | a program writing within its allocation disturbs neither the heap nor other allocations |
| ThreadTheorems.Reachable | buenos/kernel/sleepq.c:99-263 | the invariant holds in every state reachable by any interleaving on up to four CPUs |
| ThreadTheorems.UnlinkDequeues | buenos/kernel/sleepq.c:148-176 | a wake takes the earliest waiter of its resource, or changes nothing if there is none, and leaves all other queues |
| ThreadWakeups.NoWakeupIsLost | buenos/kernel/sleepq.c:148-197 | from the moment a waiter is taken off its queue, with any steps of other CPUs in between: when roused it joins the ready list at its end, or it still runs and after its CPU's next switch is ready or running |
| ThreadWakeups.SweepOverRun | buenos/kernel/sleepq.c:206-263 | a sweep with any steps of other CPUs between its wakes: nobody waits any more, and on the ready list the woken sleepers come in the order they waited |
| ThreadTheorems.RoundRobin | buenos/kernel/scheduler.c:83-211 | a thread at position k of the ready list is chosen by exactly the (k+1)-th following switch, whatever happens in between |
| ThreadLives.FinishedIsFreed | buenos/kernel/thread.c:304-324 | a thread that finishes stays on its CPU, and on no other, through any steps of other CPUs until that CPU switches; from then on its row is free and it is on no list and no CPU, so no switch chooses it, until a creation takes the row |
| ThreadLives.CreatedKeepsRow | buenos/kernel/thread.c:121-175 | over any run a created thread keeps its row, which no creation is given again, until it finishes |
| ThreadTheorems.WakesInOrder | buenos/kernel/sleepq.c:206-263 | n wakes take exactly the first n waiters whatever else is interleaved, so a sweep ends with none |
| ThreadKernel.Kernel.SleepqWakeAll | buenos/kernel/sleepq.c:206-263 | refines the sweep, in one walk that never goes back, and terminates |
| Semaphores.MutualExclusion | buenos/kernel/semaphore.c:142-185 | with initial value 1 and threads that call V only after a P of theirs was let through, at most one thread is inside in every state of every run, and nobody exactly if the value is 1 |
| Semaphores.GrantedCounts | buenos/kernel/semaphore.c:142-185 | over any run exactly min(P calls, initial + V calls) P calls are let through |
| Semaphores.ServedInOrder | buenos/kernel/semaphore.c:142-185 | the waiter at position j is woken by exactly the (j+1)-th following V |
| VfsProtocol.Reachable | buenos/fs/vfs.c:157-643 | so the invariant holds in every state reachable by any number of threads in any interleaving, any number of them in a shutdown |
| VfsProtocol.Progress | buenos/fs/vfs.c:157-643 | there is no other deadlock: while any call or shutdown is in progress, but for shutdowns that wait for a signal already given to another, and no kernel assertion has failed, some thread can go on |
| VfsCalls.DecidedOnce | buenos/fs/vfs.c:366-772 | over any run, with any steps of other threads: a call is decided by at most one step of its thread, and when it is over by exactly one, unless it came too late to be let in |
| VfsCalls.OpenAnswered | buenos/fs/vfs.c:527-589 | an open from its reservation on, over any run: it calls the driver of the filesystem the name had; if the driver says yes it ends with the handle of the entry, which names that filesystem unless another call has released it; if it says no it ends with none, and at one step it has cleared the entry, which was its own still unless another call had released it and stays free until another open reserves it |
| VfsCalls.PanicsExactly | buenos/fs/vfs.c:601-772 | the kernel stops at a step exactly if the step verifies a file number whose entry is not in use |
| VfsProtocol.ShutdownFindsNoOperation | buenos/fs/vfs.c:157-192 | vfs_ops is the number of operations in progress, and 0 whenever any shutdown goes on: its assertion never fails |
| VfsProtocol.CountNeverRises | buenos/fs/vfs.c:366-402 | once the filesystem is unusable the count never rises again, over any run |
| VfsProtocol.SignalledOnce | buenos/fs/vfs.c:157-192 | one signal is given once the operations have ended if they delayed any shutdown, however many, and none otherwise; all that were delayed still wait, but for the one that has taken it |
| VfsShutdown.OneSignalForAll | buenos/fs/vfs.c:157-402 | the end of the last operation gives one signal to all shutdowns that wait: some shutdown then waits for ever, on every run, exactly if another one was waiting too |
| VfsShutdown.WaitsForEverExactly | buenos/fs/vfs.c:157-402 | once no operation is left, some shutdown waits in every state of every run from there exactly if two or more were delayed |
| VfsShutdown.TwoShutdowns | buenos/fs/vfs.c:157-402 | a run from the start state with three threads in which two shutdowns wait for one operation, and after it one of them ends and the other is stuck |
| VfsRaces.DriversMountedExactly | buenos/fs/vfs.c:474-772 | over any run, all driver calls go to mounted filesystems exactly if no unmount is accepted while a call is on its way to that filesystem |
| VfsRaces.DriverFindsUnmounted | buenos/fs/vfs.c:474-589 | a call that has found its filesystem in an entry reaches the driver after it was unmounted exactly if in between another call released that entry and then an unmount was accepted |
| VfsOwners.OwnersAreSafe | buenos/fs/vfs.c:474-772 | callers that pass only handles they got and have not closed, each in one call at a time, never make the kernel panic, and all their driver calls go to mounted filesystems, over any run |
| VfsDoubleClose.DriverCalledUnmounted | buenos/fs/vfs.c:121-643 | such a run from the start state, with two threads, for any filesystem and name |
| VfsTables.NamesStayUnique | buenos/fs/vfs.c:444-454 | names stay unique exactly if no other row bears the name as stored; the code compares the name as given |
| Bitmaps.Bitmap.FindnSet | buenos/lib/bitmap.c:142-173 | the kernel's word-skipping search answers the least clear bit below the bound, or -1 if there is none, and changes just that bit |
| Bitmaps.SearchesAgree | buenos/util/tfstool.c:670-685 | run on copies of one bitmap of any length, both searches give the same answer and leave the same words |
| PageTables.PageTable.Map | buenos/vm/vm.c:138-208 | the panic for re-mapping exactly for pages of the map, that for a full table exactly for new pages whose pair has no entry while all 340 are used; any other page is mapped, just that binding is added, and one more entry is in use exactly if the pair had none |
| PageTables.MapThenMiss | buenos/vm/tlb.c:55-76 | after a mapping every address of the page misses on an entry that the hardware translates to the frame, and every address of another page as before |
| PageTables.PageTable.OnMiss | buenos/vm/tlb.c:55-76 | on a miss the entry found is the only one for the address and translates it as the map does, even and odd; panics exactly for an unmapped page |
| CStrings.PaddedExactly | buenos/lib/libc.c:125-165 | the padding with nulls that is documented holds exactly if the bytes after the terminator were zero before |
| Decimal.PrintInt | buenos/lib/xprintf.c:317-336 | snprintf of %d for every 32-bit integer, the least one included: the whole text and its length, or the cut text and -1 |
| Decimal.Atoi | buenos/lib/libc.c:249-278 | blanks, sign and digits give the number; if it fits 32 bits no intermediate value overflows |
| Decimal.PrintThenRead | buenos/lib/libc.c:249-278 | printing into 12 or more characters and reading back gives the number |
| FlatGrowth.TreeCoreFrame | buenos/fs/flatfs.c:864-976 | a tree survives every change of the disk that spares its own blocks |
| FlatLayout.PointerWalk | buenos/fs/flatfs.c:997-1026 | where the pointer of a logical block is, word by word: 7 in the inode, 128 in the table of word 8, the others through the block of word 9 |
| FlatLayout.TablesExactly | buenos/fs/flatfs.c:903-976 | the tables counted for a file are the fewest whose entries hold the blocks past the seventh |
| FlatLayout.NumBlocksExactly | buenos/fs/flatfs.c:264-276 | the blocks counted for a size are the fewest that hold it |
| FlatGrowth.ExtendTable | buenos/fs/flatfs.c:864-901 | filling the rest of a table extends the tree by the filled entries, over the boundary between tables as well |
| FlatGrowth.GrowingTable | buenos/fs/flatfs.c:864-901 | the whole of one table's allocation, including a table block taken on the way, is one such growth |
| FlatFileSystem.FlatFs.BmAlloc | buenos/fs/flatfs.c:855-862 | the lowest free block is taken, -1 exactly if none is free |
| FlatFileSystem.FlatFs.AllocIndir | buenos/fs/flatfs.c:864-901 | succeeds exactly if the free blocks suffice for the data blocks and, when its pointer is zero, the table; then old logical blocks stay, the new ones are fresh and zero, entries past the end are zero; on failure the table block on disk is as it was |
| FlatFileSystem.FlatFs.AllocDirect | buenos/fs/flatfs.c:909-929 | the direct part; on success all direct pointers past the end are zero, on failure the pointer that got no block holds -1 and those before it fresh blocks |
| FlatFileSystem.FlatFs.AllocDoubles | buenos/fs/flatfs.c:940-970 | the double-indirect part, table by table; terminates and succeeds exactly if the free blocks suffice; if they run out in the table the file ended in, blocks in use and buffers are as before |
| FlatFileSystem.FlatFs.GetBlock | buenos/fs/flatfs.c:997-1026 | with the table buffer reloaded or truly cached, the answer is the block a fresh walk of inode and tables gives; a table that cannot be read gives an error code as the block number |
| FlatFileSystem.FlatFs.ReadBlock | buenos/fs/flatfs.c:498-539 | in every iteration the reload-at-table-start rule keeps the cache true, and the bytes appended are those of the file |
| FlatFileSystem.FlatFs.WriteBlock | buenos/fs/flatfs.c:654-700 | one iteration, whatever the buffers hold: the block the search answers is overlaid with its part of the data, or nothing is written and the write fails because that number is past the end of the disk |
| FlatFileSystem.FlatFs.Expand | buenos/fs/flatfs.c:601-652 | before anything is written the file is grown to cover the write if there is room; the first allocations report a full disk, and what a later failure leaves is stated, in the first 135 blocks and in the last table, as its answer is ignored |
| FlatFileSystem.FlatFs.Open | buenos/fs/flatfs.c:189-213 | finds exactly the names of the directory, or the header for the empty name while an entry is free, and that is when it differs from the map; otherwise the inode whose bytes the name stands for |
| FlatFileSystem.FlatFs.CreateTree | buenos/fs/flatfs.c:264-310 | succeeds exactly if the free blocks suffice; on failure no block in use was written |
| FlatFileSystem.FlatFs.RemoveIndir | buenos/fs/flatfs.c:978-995 | whatever the table holds: clears exactly the bits of its nonzero entries if all are positions of the bitmap, and otherwise what bitmap_set does at the first that is not |
| FlatFileSystem.FlatFs.RemoveDoubles | buenos/fs/flatfs.c:389-405 | the countdown loop frees exactly the data blocks of the tables under the double-indirect block if their number is a multiple of 128, and otherwise ends outside the bitmap |
| FlatRemoval.RemovableExactly | buenos/fs/flatfs.c:386-405 | the countdown meets zero, or is not entered, exactly for files of at most 135 blocks and those with whole tables beyond |
| FlatRemoval.PastTheTables | buenos/fs/flatfs.c:396-405 | the pointer behind the last table of any other file is zero, and block 0 taken for a table has bitmap_set write outside the bitmap |
| FlatRemoval.HeaderAsTable | buenos/fs/flatfs.c:978-995 | because its first word is the magic number |
| FlatFileSystem.FlatFs.GetFree | buenos/fs/flatfs.c:720-745 | 512 times the number of clear bits |
| FlatVolume.FileFrame | buenos/fs/flatfs.c:445-539 | a file whose blocks were not written is well formed and has the same bytes |
| FlatVolume.VolumeFrame | buenos/fs/flatfs.c:239-331 | writing only blocks nobody owns, outside bitmap and directory, changes nothing a user can see |
| FlatData.PartialOverlay | buenos/fs/flatfs.c:661-694 | keeping the ends of the first and last block and replacing the rest is laying the data over the block |
| FlatData.FinalBytes | buenos/fs/flatfs.c:545-717 | blocks overlaid one by one add up to the spliced byte sequence |
| FlatData.SpliceBytes | buenos/fs/flatfs.c:545-717 | byte by byte: data from the offset on, everywhere else what was there, no shorter than before |
| FlatData.WriteDone | buenos/fs/flatfs.c:545-717 | loop, inode update and growth together: the volume is well formed, one file changed as stated, and the bitmap gained just the blocks of the growth |
| FlatDirectory.CreateDone | buenos/fs/flatfs.c:264-331 | allocation, bitmap, directory and inode writes together make the volume with the new file of zeros |
| FlatRemoval.CountdownReachesZero | buenos/fs/flatfs.c:396-405 | the unsigned countdown by 128 ever reaches zero exactly if it starts at a multiple of 128 |
| FlatTheorems.FormattedVolume | buenos/fs/flatfs.c:85-170 | an empty directory with the system bits set is a volume without files |
| FlatFileSystem.FlatFs.WriteLoop | buenos/fs/flatfs.c:654-700 | over targets that are steady the loop overlays them in order, to the last or up to the first that is not on the disk |
| FlatCases.WithinDirect | buenos/fs/flatfs.c:601-652 | a file ending within its direct blocks fails that way exactly if the first allocations find blocks and all of them do not |
| FlatCases.WithinLast | buenos/fs/flatfs.c:601-652 | growth within the last table of a file finds room exactly if as many blocks are free as it adds, and fails in that table otherwise |
| FlatTail.TailDone | buenos/fs/flatfs.c:644-714 | when it fails there: full success, the data is in the file up to its old end, what was meant for the missing blocks is in the header, and bitmap, directory, tables and all other files are as before |
| FlatTail.TailSteady | buenos/fs/flatfs.c:654-660 | because the pointers past the end are zero and no table is overwritten before the loop loads it |
| FlatStray.BlankTableBreaks | buenos/fs/flatfs.c:644-714 | if the free blocks hold zeros such a write always succeeds, its data is in the header, and no well-formed volume is left |
| FlatFullDisk.FullVolume | buenos/fs/flatfs.h:52-60 | that disk is a well-formed volume |
| FlatFullDisk.FullDiskFails | buenos/fs/flatfs.c:601-652 | and that write runs out of blocks in the last table |
| FlatStray.StrayDone | buenos/fs/flatfs.c:644-714 | a first table that ran out: the new blocks go where that block pointed before; failure exactly if an entry is past the end of the disk, the data of the last block naming a place is there, and system blocks, other files and the table change only if an entry names them |
| FlatFailures.CutShortDone | buenos/fs/flatfs.c:644-700 | a pointer without a block: the loop stops there with VFS_ERROR, the volume is well formed and the file has the data up to its old end |
| FlatWriting.StepAnswer | buenos/fs/flatfs.c:654-660 | the reload-at-table-start rule answers the target in every iteration, if the loop does not overwrite a table before loading it |
| FlatWriting.OpenOutcome | buenos/fs/flatfs.c:654-700 | for a file with all its blocks the targets are its data blocks, so the loop writes all of the data and nothing else |
| FlatRemoval.FreedHeader | buenos/fs/flatfs.c:374-441 | clearing bit 0 and the bits of what the header names, if these are positions of the bitmap, changes no file |
| FlatRemoval.HeaderFreeIsNoVolume | buenos/fs/flatfs.c:374-441 | but no ownership makes the result a volume |
| TfsVolume.BlocksAreDisjoint | buenos/fs/tfs.c:281-516 | no block is part of two files or twice of one |
| TfsVolume.FreeExactly | buenos/fs/tfs.c:796-822 | the free blocks number the total minus 3 minus the owned blocks |
| TfsVolume.CreatedVolume | buenos/fs/tfs.c:281-409 | bitmap, directory, inode and zero writes together make the volume with the new file of zeros |
| TfsVolume.RemovedVolume | buenos/fs/tfs.c:426-516 | the volume without the file is well formed and lists every other file as before |
| TfsVolume.BitmapRestored | buenos/fs/tfs.c:281-516 | allocation for a new file and removal of it cancel, word for word |
| TfsVolume.ProgressBytes | buenos/fs/tfs.c:654-785 | blocks overlaid one by one add up to the spliced byte sequence |
| TfsVolume.WrittenByLoop | buenos/fs/tfs.c:654-785 | after the write loop the volume is well formed and one file changed as stated |
| TfsVolume.FormattedVolume | buenos/fs/tfs.c:90-180 | an empty directory with exactly the system bits set is a volume without files |
| TfsVolume.RunOfFile | buenos/fs/tfs.c:482-489 | the pointers before the first zero one are those of the file's data blocks |
| TfsVolume.ClearedFile | buenos/fs/tfs.c:482-489 | clearing the bits the inode names clears exactly those of the file |
| TfsVolume.HeaderFreeIsNoVolume | buenos/fs/tfs.c:482-516 | with the header free no ownership makes the disk a volume, so block ownership is broken |
| TrivialFileSystem.Tfs.TakeData | buenos/fs/tfs.c:349-361 | succeeds exactly if n blocks are free, in memory only |
| TrivialFileSystem.Tfs.ClearBits | buenos/fs/tfs.c:482-489 | the loop as written, whatever the inode block holds: what bitmap_set does at the first pointer that is no position of the bitmap, if there is one before the first zero pointer; otherwise exactly the bits of that block and of those pointers are cleared, and it reads past the inode exactly if all 127 are nonzero, without effect |
| TrivialFileSystem.Tfs.Open | buenos/fs/tfs.c:217-250 | as for FlatFS: exactly the names of the directory, and the header for the empty name while an entry is free |
| TrivialFileSystem.Tfs.Read | buenos/fs/tfs.c:534-635 | exactly the slice of the file from the offset, cut at its end, or the error code, also for the number right behind the last block |
| TrivialFileSystem.Tfs.GetFree | buenos/fs/tfs.c:796-822 | 512 times the total minus 3 minus the owned blocks |
| TrivialFileSystem.WriteThenRead | buenos/fs/tfs.c:534-785 | what was written is what a read of the same place returns |
| Directories.FindEntryExactly | buenos/fs/flatfs.c:352-362 | over every directory: a search by name ends at an entry exactly if a file has the name, or the name is empty and some entry is free |
| Directories.WithEntryOk | buenos/fs/flatfs.c:314-331 | a directory with distinct names and inodes keeps both when an unused name and inode enter a free entry; the names grow by that name alone |
| Directories.WithoutEntryOk | buenos/fs/flatfs.c:422-424 | freeing an entry removes its name and no other |
| Directories.FindSlot | buenos/fs/flatfs.c:262-276 | finds the name exactly if a file has it, or it is empty and an entry is free; otherwise it gives the last free entry unless there is none |
| Directories.FindFile | buenos/fs/flatfs.c:352-362 | the entry of a name; -1 exactly if no file has it and, for the empty name, no entry is free |
| Directories.ListingAdd | buenos/fs/flatfs.c:239-331 | the map from names to bytes gains exactly the new name |
| Directories.ListingRemove | buenos/fs/flatfs.c:334-441 | the map loses exactly the removed name |
| Directories.ListingUpdate | buenos/fs/flatfs.c:545-717 | when one file's bytes change, the map changes at that file's name only |
| Directories.SetEntryNameReads | buenos/lib/libc.c:143-165 | a copied name reads back, and every other entry reads as before |
| Directories.SetEntryNameCopies | buenos/fs/flatfs.c:279 | what create stores is that copy into the 16 bytes of the entry |
| CStrings.StringCopy | buenos/lib/libc.c:143-165 | the pointer loop writes the string, cut to one less than the length, and one terminator, and leaves the rest of the buffer as it is |
| CStrings.CopiedReads | buenos/lib/libc.c:143-165 | the copy reads back as the string, cut |
| HeapLayout.CoveredOnce | buenos/tests/lib.c:728-820 | and in only one: free blocks and allocations partition the heap |
| HeapLayout.AllFreed | buenos/tests/lib.c:728-820 | once nothing is allocated the list is one block of the full heap size |
| HeapLayout.CutOk | buenos/tests/lib.c:755-766 | cutting a request off the end of a free block keeps tiling, list order and links, and every allocation's bytes |
| HeapLayout.InsertedOk | buenos/tests/lib.c:793-804 | so does linking a freed block in by address, but that it may now touch its neighbours |
| HeapLayout.JoinedOk | buenos/tests/lib.c:805-817 | so does a free block taking over the free block behind it, and that neighbour no longer counts as touching |
| UserHeap.Heap.HeapInit | buenos/tests/lib.c:728-734 | one free block of the whole heap, for any size that is a multiple of 4 |
| UserHeap.Heap.TryBlock | buenos/tests/lib.c:751-775 | the split test in unsigned and signed 32-bit arithmetic takes the block exactly if it is large enough |
| UserHeap.NewBlock | buenos/tests/lib.c:738-777 | the block returned was not allocated before, is aligned and large enough |
| UserHeap.Heap.JoinPrevious | buenos/tests/lib.c:805-812 | after the test against the block before, at most the block that now holds the freed one touches the next free block |
| UserHeap.Heap.JoinFollowing | buenos/tests/lib.c:814-819 | after the test against the block behind, no free block touches another: the invariant is back |
| UserHeap.FreeIsDetermined | buenos/tests/lib.c:780-820 | free has only one possible outcome |
| UserHeap.Heap.Calloc | buenos/tests/lib.c:822-832 | as malloc of the product, and the bytes are zero |
| UserHeap.ProductCounts | buenos/tests/lib.c:822-832 | that product: one element more is size bytes more |
| ThreadSystem.InvStart | buenos/kernel/scheduler.c:68-72 | the invariant holds after the three initialisers |
| ThreadSystem.InvSchedule | buenos/kernel/scheduler.c:186-211 | a switch on any CPU keeps the invariant: ready list and chains duplicate-free, Ready exactly on the list, waiting exactly on the chain of the hash, no thread on two CPUs |
| ThreadSystem.InvStep | buenos/kernel/thread.c:121-324 | every step keeps the invariant |
| ThreadTheorems.ListsAreDisjoint | buenos/kernel/sleepq.c:60-263 | one next field suffices: no thread is on the ready list and a chain, or on two chains |
| ThreadTheorems.AddEnqueues | buenos/kernel/sleepq.c:99-135 | the hashed chains are one queue per resource: sleepq_add appends the caller to its resource's queue and leaves all others, colliding ones included |
| ThreadTheorems.OthersKeepQueues | buenos/kernel/sleepq.c:99-263 | no other step changes any queue |
| ThreadTheorems.SleeperIsFound | buenos/kernel/sleepq.c:99-197 | a sleeping thread is in the queue of its resource or is just being woken |
| ThreadTheorems.WokenBeforeSwitch | buenos/kernel/sleepq.c:99-197 | a thread woken before its CPU switched it out is on the ready list or running after that switch, whatever other CPUs did in between |
| ThreadTheorems.SweepEffect | buenos/kernel/sleepq.c:206-263 | wake_all without interruption empties the queue, leaves all others, and appends the sleeping waiters to the ready list in the order they waited; it terminates |
| ThreadTheorems.TurnComes | buenos/kernel/scheduler.c:83-211 | each switch brings a ready thread one place forward and nothing else moves it |
| ThreadTheorems.IdleOnlyIfNoneReady | buenos/kernel/scheduler.c:114-139 | idle is chosen exactly if the list is empty and the current thread cannot go on |
| ThreadTheorems.SwitchedOutAwake | buenos/kernel/scheduler.c:186-211 | a running thread that does not wait goes to the end of the list, or runs on if the list is empty |
| ThreadLives.EndsWhereItRan | buenos/kernel/thread.c:304-324 | a thread that has finished stays current on its CPU alone until that CPU switches |
| ThreadLives.GoneUntilCreated | buenos/kernel/scheduler.c:186-211 | a free row stays free, its thread on no list and no CPU, until a creation takes it |
| ThreadLives.CreatedWaitsForRun | buenos/kernel/thread.c:121-175 | a created thread is on no list and no CPU until it is run |
| ThreadLives.RunIsChosen | buenos/kernel/scheduler.c:151-166 | once run it is chosen by the switch that follows one for each thread that was ready before |
| ThreadKernel.Kernel.AddToReadyList | buenos/kernel/scheduler.c:83-102 | head, tail and next column describe the list with the thread appended; no other list is disturbed |
| ThreadKernel.Kernel.RemoveFirstReady | buenos/kernel/scheduler.c:114-139 | the first thread leaves the list, idle if it is empty; the kernel's assertions hold |
| ThreadKernel.Kernel.Schedule | buenos/kernel/scheduler.c:186-211 | refines the switch step |
| ThreadKernel.Kernel.AddReady | buenos/kernel/scheduler.c:151-166 | refines the step that queues a created thread |
| ThreadKernel.Kernel.SleepqAdd | buenos/kernel/sleepq.c:99-135 | refines the sleep step; the walk to the chain's end terminates |
| ThreadKernel.Kernel.UnlinkAt | buenos/kernel/sleepq.c:166-175 | relinking past the first match refines the unlink step and keeps the walk's place |
| ThreadKernel.Kernel.RouseThread | buenos/kernel/sleepq.c:178-190 | refines the second half of a wakeup |
| ThreadKernel.Kernel.SleepqWake | buenos/kernel/sleepq.c:148-197 | refines one wake |
| ThreadKernel.Kernel.constructor | buenos/kernel/thread.c:70-110 | refines the start state |
| ThreadKernel.Kernel.ThreadCreate | buenos/kernel/thread.c:121-175 | negative exactly if no row but idle's is free; otherwise the first free row in cyclic order, reserved, and the search moves past it |
| ThreadKernel.Kernel.ThreadFinish | buenos/kernel/thread.c:304-324 | refines the end of a thread, whose effect over runs is ThreadLives.FinishedIsFreed |
| ThreadWakeups.SweptInOrder | buenos/kernel/sleepq.c:206-263 | the same while the sweep goes on, for the waiters taken so far |
| ThreadWakeups.ReadyIsQueue | buenos/kernel/scheduler.c:83-211 | over any run the ready list is the old one and all who joined, in order, less those the switches took from its front |
| Semaphores.SemInvStep | buenos/kernel/semaphore.c:142-185 | every step keeps: a semaphore has as many waiters as its value is below 0 |
| Semaphores.StepP | buenos/kernel/semaphore.c:142-159 | P appends the caller to the semaphore's waiters exactly if the value was not positive, and no other semaphore's waiters change |
| Semaphores.StepV | buenos/kernel/semaphore.c:171-185 | V takes the earliest waiter exactly if the value was negative |
| Semaphores.ValueCounts | buenos/kernel/semaphore.c:142-185 | over any run the value is initial + V calls - P calls and the waiters number max(0, -value) |
| Semaphores.GrantsExceedByOne | buenos/kernel/semaphore.c:142-185 | with initial value 1 the P calls let through exceed the V calls by at most one, and by one exactly if the value is not positive |
| Semaphores.SemaphoreTable.SemP | buenos/kernel/semaphore.c:142-159 | refines P |
| Semaphores.SemaphoreTable.SemV | buenos/kernel/semaphore.c:171-185 | refines V and, if it took a waiter, the step that makes it ready |
| Semaphores.SemaphoreTable.FindUnused | buenos/kernel/semaphore.c:94-103 | the first unused row in cyclic order, none exactly if all are in use |
| Semaphores.SemaphoreTable.Create | buenos/kernel/semaphore.c:82-117 | takes that row and sets its value; fails exactly if all rows are in use; every other semaphore is as before |
| VfsTables.Tables.Mount | buenos/fs/vfs.c:425-455 | VFS_LIMIT exactly if no row is free, VFS_ERROR exactly if one is and some row has the name, and nothing changes; otherwise VFS_OK, and the first free row holds the filesystem under the name cut to 15 characters |
| VfsTables.MountOutcome | buenos/fs/vfs.c:425-455 | the same of the functions the protocol uses |
| VfsTables.Tables.FindMounted | buenos/fs/vfs.c:481-492 | the first row with the name if something is mounted there, otherwise -1 |
| VfsTables.Tables.Unmount | buenos/fs/vfs.c:494-508 | refused exactly if an open file refers to the filesystem, otherwise just that row is cleared |
| VfsTables.Tables.Reserve | buenos/fs/vfs.c:541-568 | the first free entry now refers to the named filesystem, or the exact error |
| VfsTables.Tables.UnmountAll | buenos/fs/vfs.c:177-187 | every row is cleared |
| VfsTables.MountSucceedsExactly | buenos/fs/vfs.c:418-460 | mount succeeds exactly if a row is free and no row, used or not, bears the name |
| VfsTables.MountedIsFound | buenos/fs/vfs.c:287-299 | while stored names are unique, every mounted filesystem is found under its stored name |
| VfsTables.UnmountKeepsRows | buenos/fs/vfs.c:474-514 | unmounting removes just that filesystem, and names stay unique |
| VfsTables.RemountRefused | buenos/fs/vfs.c:418-514 | so after unmounting a name, mounting it again fails although it is not in use; a finding |
| VfsProtocol.InvStep | buenos/fs/vfs.c:157-643 | every step of every thread keeps locks, counters, shutdown and mount table in order, whatever file numbers callers pass |
| VfsCalls.DecidingStep | buenos/fs/vfs.c:418-772 | what the deciding step of each kind of call does to mount table and open files, and where the call goes on: mount, unmount, open, close, seek, read or write, and calls on a volume |
| VfsCalls.EarlierStep | buenos/fs/vfs.c:366-382 | no step of a call before the deciding one changes a table, and the call is turned away exactly if the system is not usable when it is to be counted |
| VfsCalls.LaterStep | buenos/fs/vfs.c:527-589 | after it only an open whose driver said no changes one: it clears the entry it reserved |
| VfsCalls.AccessAnswered | buenos/fs/vfs.c:694-770 | a read or write hands its file back whatever its driver says, and has taken the open files once if bytes were moved |
| VfsProtocol.OpenFilesAreMounted | buenos/fs/vfs.c:474-589 | before the shutdown no open file refers to an unmounted filesystem |
| VfsProtocol.DriversAreMounted | buenos/fs/vfs.c:474-643 | driver calls made under a table go to a mounted filesystem; the others, for open, read and write, to one that is mounted or was unmounted since the call found it |
| VfsProtocol.CountersFollowTheKernel | buenos/fs/vfs.c:366-402 | the protocol counts as vfs_start_op and vfs_end_op do, and never below 0 |
| VfsShutdown.StuckExactly | buenos/fs/vfs.c:157-402 | once no operation is left, some shutdown is stuck exactly if two or more were delayed and the signal is taken |
| VfsShutdown.StuckForever | buenos/fs/vfs.c:157-402 | a stuck thread stays where it is and takes no step, over any run |
| VfsShutdown.ShutdownUnmountsAll | buenos/fs/vfs.c:157-192 | over any run, once a thread has done its shutdown no filesystem is mounted |
| VfsTables.MountAddsOne | buenos/fs/vfs.c:418-460 | mounting a new filesystem adds just that one, and no filesystem is mounted twice |
| VfsTables.MountIsFound | buenos/fs/vfs.c:444-454 | what was mounted is found under its name exactly if the name has fewer than 16 characters |
| VfsTables.LongNameMountsTwice | buenos/fs/vfs.c:444-454 | a longer name can be mounted twice at once and leaves two rows with the same name |
| VfsDoubleClose.ClosedTwice | buenos/fs/vfs.c:474-643 | two closes of one handle, an open that reserves the entry between them, then an unmount: no step is refused and the open calls the driver of an unmounted filesystem |
| Bitmaps.WordSetBitValue | buenos/lib/bitmap.c:112-134 | setting or clearing bit j of a word adds or subtracts 2^j, or nothing if the bit was so already |
| Bitmaps.WordGetSet | buenos/lib/bitmap.c:89-134 | after a write to one bit of a word, that bit reads as written and every other bit as before |
| Bitmaps.BitWithBit | buenos/lib/bitmap.c:89-134 | the same over the whole array of words, for every pair of positions |
| Bitmaps.Bitmap.Init | buenos/lib/bitmap.c:70-82 | every bit of the words that hold the first size bits is clear; later words are untouched |
| Bitmaps.Bitmap.Set | buenos/lib/bitmap.c:112-134 | the named bit has the new value and every other bit its old one |
| Bitmaps.Bitmap.SetInt | buenos/lib/bitmap.c:112-134 | for any signed position: set as above, a write outside the words, or the failed assertion, exactly by where the position lies |
| Bitmaps.ListFateExactly | buenos/lib/bitmap.c:112-134 | clearing the bits of a list of words, zeros skipped, gets to the end exactly if all are below 4096; otherwise it leaves the buffer or stops by the first that is not |
| Bitmaps.FreeCountWithBit | buenos/lib/bitmap.c:142-173 | flipping a bit moves the number of clear bits by exactly one |
| Bitmaps.Bitmap.FindnSetBitwise | buenos/util/tfstool.c:670-685 | the disk tool's bit-at-a-time search meets the same specification |
| Words.EncodeDecode | buenos/fs/flatfs.c:839-852 | a block read as words and written back is the same 512 bytes |
| PagePools.PagePool.constructor | buenos/vm/pagepool.c:74-99 | the kernel's pages are reserved, all others free, and the counter says how many |
| PagePools.PagePool.GetPhysPage | buenos/vm/pagepool.c:109-131 | 0 exactly if the counter is 0; otherwise the lowest page neither reserved nor out, now out, the counter one less; the kernel's assertion holds |
| PagePools.PagePool.FreePhysPage | buenos/vm/pagepool.c:139-165 | a page that is out is taken back and the counter is one more; both of the kernel's assertions hold |
| PagePools.PagePool.TakeAndReturn | buenos/vm/pagepool.c:109-165 | taking a page and giving it back restores the pages out and the counter |
| PagePools.FreeCountByComplement | buenos/vm/pagepool.c:74-165 | for any bitmap that holds the reserved pages and the pages out, the clear bits number the total minus both |
| PageTables.PageTable.constructor | buenos/vm/vm.c:85-106 | an empty map |
| PageTables.CreatePagetable | buenos/vm/vm.c:85-106 | NULL exactly if no page is free; otherwise an empty table in a page taken from the pool |
| PageTables.PageTable.SetDirty | buenos/vm/vm.c:239-270 | changes exactly the write bit of a mapped page; panics exactly for an unmapped one |
| PageTables.FrameAddress | buenos/vm/tlb.c:88-96 | the physical address is the frame's, on a page boundary |
| Decimal.DigitsMean | buenos/lib/xprintf.c:178-187 | the digits stand for the number in any base up to 16, without leading zeros |
| Decimal.FitsScratch | buenos/lib/xprintf.c:173-187 | in every base from 8 a 32-bit number has at most 11 digits |
| Decimal.Reverse | buenos/lib/xprintf.c:178-187 | the scratch array of 11 holds the digits backwards; no write is outside |
| Decimal.PrintUint | buenos/lib/xprintf.c:166-215 | writes the digits in order, padded to precision and width, as far as the size goes, and nothing else; no write is outside the scratch array |
| Decimal.FieldExactly | buenos/lib/xprintf.c:190-205 | that padding, character by character: blanks up to the width, zeros up to the precision, at most 11 of all, and the digits |
| Decimal.TextValue | buenos/lib/xprintf.c:317-336 | the text of every 32-bit integer reads back as the number and has at most 11 characters |
| Decimal.ReadDigits | buenos/lib/libc.c:249-278 | accumulating the digits of n, wherever they end a text, gives n |
| Decimal.ValueReads | buenos/lib/libc.c:249-278 | blanks, a sign or none, the digits of n and then anything but a digit are read as n or -n |
| Decimal.ValueOfNone | buenos/lib/libc.c:249-278 | without digits after blanks and sign the answer is 0 |

## Left out

- FlatFileSystem.FlatFs.Write: a write that gets past the checks stays within the largest file; past it the driver would index beyond its buffer. Growth that ends beyond the first 135 blocks, needs a new table and runs out of blocks otherwise than at a direct pointer or the pointer of the single-indirect table is promised nothing, and neither is a failing allocation on a disk of 2^32 - 1 blocks, where an error code would be a block number.
- FlatFileSystem.WriteThenRead: for writes that find room, or are refused at once; what other writes leave is said by FlatFailures, FlatStray and FlatTail.
- FlatFileSystem.FlatFs.WriteBlock: a request past the end of the disk fails, as the block device interface has it; the driver in buenos/drivers/disk.c would stop the kernel.
- FlatFileSystem.FlatFs.Remove: the header holds the magic number, as flatfs_init checks at buenos/fs/flatfs.c:125, and Create, Remove and every Write that leaves a volume keep block 0 as it is; for the empty name, only where words 8 and 9 of the header are zero, as on every volume the disk tool formats. What a write outside the bitmap buffer does to the memory there is not modelled, for either file system.
- FlatFileSystem.FlatFs.Create: sizes are not negative and below 2^31 less 511, and names have at most 15 characters and no zero, as for the other calls that take a name.
- FlatFileSystem.FlatFs.Read: a file id within the volume is the inode of a file; reading through a stale id is not modelled. On a disk of more than 4096 blocks the bound also lets block 4096 through, which would be read as an inode; that is not modelled either. The same holds for FlatFs.Write, Tfs.Read and Tfs.Write.
- UserHeap.Heap.Malloc: requests are at most 0x7ffffff0 bytes and the heap is smaller than 2^31, so the rounding does not overflow; likewise Heap.Calloc's product.
- UserHeap.Heap.Free: the pointer is a live allocation; free(NULL) is outside, since the guard at buenos/tests/lib.c:782 tests the name of the function instead of the pointer and so never holds.
- UserHeap.Heap.Realloc: the size bytes it reads from the old pointer on lie within the heap; bytes past the old block may be copied in any state.
- ThreadKernel.Kernel.Schedule: the CPU's entry changes with the switch, not after the lock is released; no other CPU reads it. Context switching, timeslices and stacks are not modelled.
- ThreadKernel.Kernel.SleepqAdd: the resource is not NULL and the caller neither waits nor ends; after it the thread is expected to switch. Its writes to its own row before the lock are part of the step.
- ThreadKernel.Kernel.SleepqWakeAll: the method is one uninterrupted walk; steps of other CPUs between its wakes are covered on the thread system, by ThreadWakeups.SweepOverRun.
- Semaphores.SemaphoreTable.Create: a row marked unused has no waiters; destroying a semaphore is not modelled. Values are unbounded integers.
- Decimal.PrintInt: the directive without modifiers; format strings, widths from the format and output to the terminal are not modelled.
- Disk requests for blocks of the disk always succeed, and block I/O is one step; error paths of the disk driver are left out.
- Buffers passed by callers are values, so a caller's buffer never overlaps the driver's.
- The locks of the file systems and the spinlocks appear as the atomicity of the operations.
- VfsProtocol.Reachable: a filesystem is a driver instance, not an address that may be used again; seek positions and their assertions, path parsing and the drivers behind it are not modelled, and neither is the power-off that follows a shutdown.
- vm_unmap is not implemented by the kernel; the cache bits of entries play no part.
- NewFS is unfinished; networking, the terminal and disk drivers, processes, ELF loading, system calls, exception handling and assembler are hardware level or thin; kmalloc is a simple bump allocator whose reservation is a parameter of the page pool.
