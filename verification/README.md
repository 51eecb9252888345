# A verified model of xv6 for RISC-V

This project models the protocols, allocators and refinement layers of the xv6 kernel
and of two of its user programs, and proves what they promise. `dafny verify
dfyconfig.toml` checks all of it.

- **Write-ahead log** (`Log`, `LogMachine`, `LogRuns`, `LogDriver`). The disk is a
  sequence of blocks, one block write is atomic, and a crash loses everything else at
  any point, recovery included. The protocol refines a store with a durable and a
  current version. `LogDriver.Log` is the code with its loops, proved to run the protocol.
- **Buffer cache** (`BioSpec`, `Bio`). The list is pointers; the contents of every block
  are tracked beside the disk, and only the holder of a buffer changes them.
- **Files** (`FsSpec`, `FsCost`, `Fs`, `FsImage`, `FsTrunc`, `FsLog`). Bitmap bytes, direct and
  indirect addresses, files as byte sequences, and exactly which blocks each operation logs;
  what an operation logs then runs in the log protocol without a panic.
- **Directories and link counts** (`LinkSpec`, `Links`).
- **Page tables** (`Sv39`, `PageTable`, `VmSpec`, `PageCost`, `UserMem`, `Vm`, `Exec`,
  `Procs`). The three-level tree in allocated pages refines a flat map, with every managed
  page accounted for and every request granted exactly when the free pages suffice; fork,
  exec, the user copies and whole populations of processes are built on it. Formats follow
  section 4.4 (Sv39) of the RISC-V Privileged Architecture, version 20211203.
- **Sleeping locks** (`Sleeplock`) and **exit and wait** (`ExitWait`, `WaitRuns`) as
  interleavings of processes at the granularity of lock operations.
- **Virtio disk rings** (`VirtioSpec`, `Virtio`), with a device that completes requests
  in any order, as sections 2.6 and 5.2 of Virtio 1.1 allow.
- **Pipes** (`Pipe`), the **heap allocator** (`Umalloc`) and the **shell parser**
  (`ShellSpec`, `ShellRoundTrip`, `ShellLaws`, `Shell`).

Where the code differs from what one would like to claim, the model follows the code and a
lemma says exactly when the claim holds: an append to the log within budget can panic
exactly when the log has fewer than LOGSIZE data blocks, as mkfs makes it; in a larger log
only a write it would absorb can panic, exactly when it is full; a write larger than
filewrite's chunk can exceed an operation's budget, and so can a truncation, exactly when
the file's blocks lie in MAXOPBLOCKS bitmap blocks or more; a killed writer can leave a
pipe's reader asleep beside unread bytes; a process killed between wait's look at killed and
its sleep sleeps all the same, and so for no other reason; creating or linking in a
directory that was already unlinked, or counting past the range of a short, breaks nlink;
malloc asks sbrk for the wrong amount above 0x7fffffe0 bytes; copyout ignores PTE_W, and
stays within pages that have it exactly when all pages it reaches do.

Classes stand for the structures the code updates in place; their ghost fields record
what is owned by whom. Concurrency is a state machine, or a class whose methods are the
critical sections of the code, callable in any order. Outcomes of code outside the model
(a failing copy, a killed process, sbrk, the completion order of the device, path lookup)
are parameters.

## Model

| member | source | states |
|---|---|---|
| LogDisk.HeadRoundTrip | kernel/log.c:85-114 | write_head stores the count in word 0 and block i in word i + 1 and leaves the other words; the header read_head loads is the one stored, for every list of block numbers that fits |
| LogDisk.InstallAt | kernel/log.c:68-83 | installing the first k logged blocks overwrites exactly the home blocks they are logged for |
| LogDisk.SlotKeepsDurable | kernel/log.c:178-191 | while the header on disk is empty, writing a log slot changes nothing that recovery would see |
| LogDisk.HeadWriteCommits | kernel/log.c:99-114 | one header write makes all logged updates durable at once |
| LogDisk.InstallKeepsDurable | kernel/log.c:68-83 | installing a block, first time or again after a crash, leaves the durable contents alone |
| LogDisk.EraseKeepsDurable | kernel/log.c:116-123 | once every logged block is home, clearing the header changes nothing durable |
| LogMachine.BeginRefines | kernel/log.c:126-142 | admitting an operation is the begin of an abstract store with atomic commits |
| LogMachine.WriteRefines | kernel/log.c:214-235 | log_write, absorbing or appending, is one update of the current version and leaves the durable one alone |
| LogMachine.EndRefines | kernel/log.c:146-175 | ending an operation is an end step of the store and keeps the invariant, part of which is that with no operation in progress and nobody in commit the log is empty |
| LogMachine.WriteLogRefines | kernel/log.c:178-191 | each block copied to the log is invisible to the store |
| LogMachine.WriteHeadRefines | kernel/log.c:99-114 | the first header write is the commit: the durable version becomes the current one |
| LogMachine.InstallTransRefines | kernel/log.c:68-83 | each installed and unpinned block is invisible to the store |
| LogMachine.EraseRefines | kernel/log.c:193-203 | erasing the header is invisible to the store |
| LogMachine.CrashRefines | kernel/log.c:54-65 | a crash at any point loses the current version and keeps the durable one |
| LogMachine.RecoverRefines | kernel/log.c:116-123 | each step of recovery, itself interruptible, is invisible to the store |
| LogMachine.StepRefines | kernel/log.c:68-235 | every step of the log protocol, block writes and crashes included, is a step of the store or none |
| LogRuns.RunRefines | kernel/log.c:68-235 | every run of any length, with any interleaving of operations and crashes, is a run of the store |
| LogRuns.PowerOnRefines | kernel/log.c:54-65 | the same from power-on with any disk whose header is sane, as a crash leaves it |
| LogRuns.NoSecondCommit | kernel/log.c:193-203 | after the commit point no further header write commits anything until operations begin again |
| LogRuns.DurableAfter | kernel/log.c:116-123 | after any sequence of block writes and crashes the durable contents are the old or the new ones, the new exactly when the header write happened |
| LogRuns.CrashAtomicity | kernel/log.c:68-203 | commit interrupted anywhere, recovery interrupted any number of times: the home blocks end as all of the old or all of the new, the new exactly when the header write reached the disk |
| LogRuns.RecoveryCompletes | kernel/log.c:116-123 | recovery left alone finishes and leaves exactly the durable contents at home |
| LogRuns.ReservedStep | kernel/log.c:126-142 | blocks logged plus unused reservations never exceed LOGSIZE |
| LogRuns.GroupCommit | kernel/log.c:126-235 | over every run within budget: commit runs with no operation outstanding and none admitted, logged numbers are distinct and pinned once each, and the log never overflows |
| LogRuns.DurableAtRest | kernel/log.c:146-175 | over every run, crashes included: whenever no operation is in progress and nobody is in commit, the durable version is the current one |
| LogRuns.CommitCompletes | kernel/log.c:193-203 | from every point of it, commit left alone ends after a counted number of steps, with the current version in the home blocks |
| LogRuns.LastEndCommits | kernel/log.c:146-175 | the last end_op starts a commit that makes all that was written durable and ends at rest; any other starts none and leaves the disk alone |
| LogRuns.AdmitIff | kernel/log.c:126-142 | begin_op admits exactly when nobody is in commit and the log would hold what is in it and MAXOPBLOCKS for every operation, the new one included; alone it is always admitted |
| LogRuns.NoPanic | kernel/log.c:214-235 | with log.size - 1 >= LOGSIZE no operation of the log panics while its reservation is not used up |
| LogRuns.AppendPanicsIff | kernel/log.c:220-221 | an appending log_write within budget can panic exactly when log.size - 1 < LOGSIZE, which is how mkfs sizes the log |
| LogRuns.LogWritePanicsIff | kernel/log.c:214-235 | with log.size - 1 >= LOGSIZE, a log_write within budget panics exactly when the log is full; then the block is in the log already, the operation has used up its reservation and no other has any left |
| LogRuns.AbsorbingWriteCanPanic | kernel/log.c:220-228 | a run within budget that reaches such a panic, because the size test comes before the search |
| LogDriver.CommitPhases | kernel/log.c:193-203 | the 2n + 2 block writes of commit in order, with what is durable after each |
| LogDriver.CommitResult | kernel/log.c:193-203 | an undisturbed commit puts every update home, unpins every block and leaves an empty log |
| LogDriver.RecoveryResult | kernel/log.c:116-123 | every disk that recovery passes through recovers to the same contents |
| LogDriver.Log.constructor | kernel/log.c:54-65 | a log at power-on in the shape the protocol starts from |
| LogDriver.Log.Bwrite | kernel/bio.c:106-112 | the one way the log writes a block: the disk changes there and the new disk is recorded |
| LogDriver.Log.BeginOp | kernel/log.c:126-142 | admits exactly when no commit is going on and n + (outstanding + 1) * MAXOPBLOCKS is at most LOGSIZE, and changes nothing otherwise |
| LogDriver.Log.LogWrite | kernel/log.c:214-235 | panics exactly when the protocol does; otherwise the new state is the protocol step, the search loop having found the one slot |
| LogDriver.Log.EndOp | kernel/log.c:146-164 | panics exactly during a commit; otherwise one operation less is outstanding, and it asks for a commit exactly when none is left |
| LogDriver.Log.EndAndCommit | kernel/log.c:146-175 | the whole of end_op: after the last operation the home blocks on disk hold all that was written since the last commit and the log is empty; after any other nothing on disk has changed |
| LogDriver.Log.WriteLog | kernel/log.c:178-191 | its loop performs the n slot writes of the protocol, one disk state after the other |
| LogDriver.Log.WriteHead | kernel/log.c:99-114 | its loop and one block write put the in-memory header on disk |
| LogDriver.Log.InstallTrans | kernel/log.c:68-83 | its loop performs the n installation writes of the protocol, unpinning outside recovery |
| LogDriver.Log.ReadHead | kernel/log.c:85-97 | the in-memory header becomes the one on disk |
| LogDriver.Log.Commit | kernel/log.c:193-203 | a run of the protocol: afterwards home blocks hold all updates, every disk written on the way is in the run, which ends in the present state, and each holds durably the old or the new contents, split at the header write |
| LogDriver.Log.RecoverFromLog | kernel/log.c:116-123 | home blocks become the durable contents of the disk found; every disk written on the way is in the run, which ends in the present state, and still recovers to them |
| LruList.Unlink | kernel/bio.c:128-129 | the two pointer writes take one buffer out of the circular doubly linked list and leave the rest in order |
| LruList.LinkFront | kernel/bio.c:130-133 | the four pointer writes put a buffer at the front |
| BioSpec.UnreferencedIsClean | kernel/bio.c:59-89 | a valid buffer nobody refers to equals its disk block |
| BioSpec.HitGood | kernel/bio.c:66-73 | finding a block keeps all invariants: reference counts, one holder, one buffer per block, agreement with the disk |
| BioSpec.RecycleGood | kernel/bio.c:77-86 | so does taking over an unused buffer for a block no buffer holds |
| BioSpec.AcquireGood | kernel/bio.c:59-90 | taking a buffer's lock keeps all invariants |
| BioSpec.ReleaseIff | kernel/bio.c:117-122 | giving it up keeps them exactly when changed data is pinned |
| BioSpec.FillGood | kernel/bio.c:93-103 | so does reading a block from disk |
| BioSpec.ModifyGood | kernel/bio.c:106-112 | changing the data of a held buffer changes the contents of that block and no other, and keeps all invariants |
| BioSpec.WriteGood | kernel/bio.c:107-112 | bwrite makes the disk agree with the buffer |
| BioSpec.LeaveGood | kernel/bio.c:124-136 | dropping a reference keeps all invariants |
| BioSpec.UnpinIff | kernel/bio.c:147-151 | unpinning keeps them exactly when the block is as on disk, pinned more than once, or held |
| Bio.Cache.constructor | kernel/bio.c:37-54 | binit links all buffers into one circular list |
| Bio.Cache.FindBlock | kernel/bio.c:66-73 | the first loop of bget finds the block exactly when some buffer holds it |
| Bio.Cache.FindUnused | kernel/bio.c:77-88 | the second loop finds the least recently used buffer without references |
| Bio.Cache.Bget | kernel/bio.c:59-90 | returns the buffer of the block or recycles an unreferenced one; no buffer in use changes its block or its data |
| Bio.Cache.Fill | kernel/bio.c:93-103 | after bread the holder sees the contents of the block, and no other buffer changes |
| Bio.Cache.Modify | kernel/bio.c:106-112 | the one action that changes what a block contains, for buffers of any device |
| Bio.Cache.Bwrite | kernel/bio.c:107-112 | the disk block becomes the contents of the block |
| Bio.Cache.Brelse | kernel/bio.c:117-137 | drops the reference and moves the buffer to the front exactly when it was the last; the list stays a permutation of all buffers |
| Bio.Cache.Bpin | kernel/bio.c:140-144 | one more pin, one more reference |
| Bio.Cache.Bunpin | kernel/bio.c:147-151 | one pin and one reference less; the invariants hold exactly when the block is as on disk, still pinned or held |
| FsSpec.MarkUsedBit | kernel/fs.c:66-88 | setting the bit of a block changes no other block's bit |
| FsSpec.MarkFreeBit | kernel/fs.c:92-105 | clearing the bit of a block changes no other block's bit |
| FsSpec.SetWordAt | kernel/fs.c:402-416 | an entry of an indirect block reads back as it was written |
| FsSpec.OneOwner | kernel/fs.c:383-421 | no block number stands in two slots, be they direct, indirect pointers or indirect entries, of any inodes |
| FsSpec.AllocatedIsOwned | kernel/fs.c:66-105 | a data block is marked in the bitmap exactly when some slot refers to it |
| FsSpec.AddedInv | kernel/fs.c:383-421 | one new reference to a fresh block keeps the ownership invariant |
| FsSpec.RemovedInv | kernel/fs.c:426-453 | dropping references together with their bits keeps the ownership invariant |
| FsSpec.DataWriteInv | kernel/fs.c:516-530 | writing a file's own data block disturbs neither bitmap nor references |
| FsSpec.WrittenFiles | kernel/fs.c:506-539 | after writei the file is its old contents with the written bytes laid over, also when the copy stops in mid-block, and every other file is unchanged |
| FsSpec.LaidIs | kernel/fs.c:506-539 | byte by byte, the contents laid over a file are the new bytes in their range and the old ones elsewhere |
| FsSpec.FileBlock | kernel/fs.c:382-421 | the first twelve blocks of a file are in its inode, block bn beyond them is word bn - 12 of its indirect block |
| FsSpec.LaidIff | kernel/fs.c:516-539 | a write that stops at a bad source address leaves the file as a write of the bytes it reports exactly when none were copied beyond them or they lie past the old end |
| FsImage.ChunkExact | kernel/file.c:148-175 | of all sizes, filewrite's chunk is the largest for which writei, at any offset of any file of any valid volume, logs at most MAXOPBLOCKS blocks: above it there is a volume where every outcome logs more |
| FsCost.LogsSize | kernel/fs.c:506-539 | writei logs at most its data blocks, one bitmap block for each new one, and the indirect block with its bitmap block |
| FsCost.WriteFits | kernel/file.c:148-175 | within one chunk the log_write calls of writei, inode included, fit one operation at every moment |
| FsImage.ImageOk | kernel/fs.h:7-37 | there is a valid volume, with a file that ends where its indirect block would begin |
| FsImage.ImageOverBudget | kernel/file.c:148-175 | on that volume every write longer than a chunk at the end of that file logs more than MAXOPBLOCKS blocks |
| FsImage.WriteTooMuch | kernel/fs.c:506-539 | the code itself does so |
| FsLog.Used | kernel/log.c:126-235 | in every interleaving an operation's reservation is used at most by its own blocks that were not logged before |
| FsLog.CallsNeverPanic | kernel/log.c:214-235 | every log_write of an operation that fits, absorbed ones included, is within budget and does not panic, whatever other operations do in between |
| FsSpec.TruncDone | kernel/fs.c:426-453 | the two halves of itrunc together clear all of one file's blocks and leave the other files' contents alone |
| Fs.Fs.constructor | kernel/fs.c:40-48 | a file system on any disk that satisfies the invariant |
| Fs.Fs.Balloc | kernel/fs.c:66-88 | takes the first free block, zeroed, never a metadata block; 0 exactly when every bit is set |
| Fs.Fs.Bfree | kernel/fs.c:92-105 | panics exactly when the block is free already |
| Fs.Fs.Bmap | kernel/fs.c:383-421 | the block of a file, allocated if missing, with the ownership invariant kept when the disk is full as well; logs exactly what the allocations need |
| Fs.Fs.Writei | kernel/fs.c:506-539 | lays the copied bytes over the one file, refuses exactly the offsets and sizes it should, falls short only when the disk is full or the source ends, and logs exactly the blocks it changed, its inode last |
| Fs.Fs.Readi | kernel/fs.c:472-496 | returns 0 for offsets beyond the file, -1 exactly when the destination has no room for a byte of the file it should get, and otherwise all bytes asked for that lie in the file; the bytes delivered are those of the file, across block and direct/indirect boundaries |
| Fs.Fs.Itrunc | kernel/fs.c:426-453 | frees exactly the file's blocks, each of them allocated when bfree looks, empties it, changes no other file, and logs exactly the bitmap blocks of these blocks and then the inode |
| FsCost.TruncFitsIff | kernel/fs.c:426-453 | the log_write calls of a truncation fit one operation exactly when the file's blocks lie in fewer than MAXOPBLOCKS bitmap blocks |
| FsCost.SmallVolume | kernel/fs.c:92-105 | which they always do on a volume of at most nine bitmap blocks |
| FsTrunc.TruncateOp | kernel/sysfile.c:363-370 | an operation that truncates such a file ends within its reservation |
| FsTrunc.ImageOk | kernel/fs.h:7-37 | there is a valid volume with a file whose ten blocks lie in ten bitmap blocks |
| FsTrunc.TruncTooMuch | kernel/fs.c:426-453 | truncating that file logs more than MAXOPBLOCKS blocks |
| Fs.Fs.WriteChunk | kernel/file.c:162-168 | one begin_op to end_op: its log_write calls fit an operation and the chunk is written as writei promises |
| Fs.Fs.FileWrite | kernel/file.c:135-181 | one operation per chunk, each of whose log_write calls fits MAXOPBLOCKS; the file receives exactly the bytes accounted for by the new offset, and -1 has one of four stated reasons |
| Fs.Fs.RunCalls | kernel/fs.c:426-539 | any sequence of writei and itrunc calls, out of space or not, makes of the files what the same calls make of plain byte sequences; each call fails exactly when it should, and a short write means a full disk |
| LinkSpec.LinksAdd | kernel/fs.c:577-606 | a new entry adds one link to its target exactly when its directory is linked |
| LinkSpec.LinkBeginsIff | kernel/sysfile.c:138-147 | the first half of sys_link keeps nlink right exactly when the 16-bit count does not overflow |
| LinkSpec.LinkFails | kernel/sysfile.c:163-169 | the rollback of sys_link restores the count |
| LinkSpec.LinkEndsIff | kernel/sysfile.c:149-157 | the second half keeps every nlink equal to the number of links exactly when the directory is still linked |
| LinkSpec.CreateIff | kernel/sysfile.c:245-302 | create keeps every nlink right exactly when its directory is still linked and, for a new directory, has fewer than 32767 links |
| LinkSpec.EmptyDirOneLink | kernel/sysfile.c:217-233 | a directory that isdirempty accepts has exactly one link, so unlink takes its count to 0 |
| LinkSpec.ParentStays | kernel/sysfile.c:225-228 | the parent of an unlinked directory keeps at least one link |
| LinkSpec.UnlinkGood | kernel/sysfile.c:205-237 | unlink keeps every nlink right, whatever it removes, and never meets nlink < 1 |
| LinkSpec.PutGood | kernel/fs.c:336-362 | freeing an inode without links and references leaves no dangling entry in a linked directory |
| Links.Namespace.constructor | mkfs/mkfs.c:117-128 | a file system with only its root satisfies the invariant |
| Links.Namespace.DirLookup | kernel/fs.c:551-575 | finds a live entry of the name exactly when there is one |
| Links.Namespace.DirLink | kernel/fs.c:577-606 | adds the entry to the first empty slot unless the name exists or there is no room; no two live entries share a name |
| Links.Namespace.IsDirEmpty | kernel/sysfile.c:172-186 | true exactly when no entry after the first two names an inode |
| Links.Namespace.Iput | kernel/fs.c:336-362 | frees the inode exactly when the last reference goes and it has no links |
| Links.Namespace.LinkStart | kernel/sysfile.c:132-147 | refuses directories and otherwise counts the link to come; the invariant holds exactly when the count was below 32767 |
| Links.Namespace.LinkFinish | kernel/sysfile.c:149-169 | succeeds exactly when the directory was found, the name is new there and there is room, and adds the entry or takes the count back; nlink equals links plus links to come exactly when the directory is still linked or nothing was added |
| Links.Namespace.Unlink | kernel/sysfile.c:188-243 | succeeds exactly for an existing name other than . and .. that is a file or an empty directory, and then the name is gone |
| Links.Namespace.Create | kernel/sysfile.c:245-302 | unless it panics, returns an inode exactly when the name exists, a file is wanted and it is not a directory's, or the name is new and an inode and room for the entries are left; an existing file is returned as it is, a new inode is fully linked, and a failure changes nothing; the invariant holds exactly when CreateIff says, and the panic is exactly a lookup of .. whose directory is gone |
| Links.RemovedDirectory | kernel/sysfile.c:188-243 | a run that reaches a directory in use without links |
| Links.CreateInRemoved | kernel/sysfile.c:245-302 | create there makes a file of count 1 with no link |
| Links.LinkInRemoved | kernel/sysfile.c:149-157 | link there makes a file of count 2 with one link |
| Links.TooManyLinks | kernel/sysfile.c:138-147 | a run of 32767 links to one file, whose count the next sys_link makes -32768 |
| Sv39.PackRoundTrip | kernel/riscv.h:347-352 | physical page and flags can be read back from an entry |
| Sv39.ClearUKeeps | kernel/vm.c:338-346 | clearing the user bit keeps page and validity and leaves no inner entry behind |
| PageTable.PlacesDiffer | kernel/vm.c:85-103 | no two table pages of a tree have the same place |
| PageTable.SetLeafFlat | kernel/vm.c:143-192 | one leaf entry written in the tree is one insert or delete in the flat map |
| PageTable.GraftFlat | kernel/vm.c:92-99 | hanging a zeroed table page into the tree leaves the flat map as it was |
| PageTable.FrameSpace | kernel/vm.c:85-103 | an address space depends on its own table pages only |
| VmSpec.SameSlot | kernel/vm.c:85-103 | walk leads two addresses to the same slot of the same table page exactly when they lie in the same page |
| Sv39.IndexDigits | kernel/riscv.h:354-357 | the three indices and the page offset are the digits of an address below MAXVA, nine bits each and twelve |
| PageCost.NotPlaced | kernel/vm.c:85-103 | an entry that walk looks at is valid exactly when the table below it exists |
| PageCost.NeedJoin | kernel/vm.c:226-249 | growing in two steps takes as many pages, tables included, as growing in one |
| PageCost.NewSpaceNeed | kernel/proc.c:176-206 | a new address space fits exactly when there are free pages for its first three tables, its user pages, a table for each 512 of them and one above those |
| VmSpec.UserBound | kernel/vm.c:226-249 | no user address space outgrows physical memory |
| VmSpec.RolledBack | kernel/vm.c:236-246 | giving back the pages taken undoes a failed growth up to table pages |
| VmSpec.CopyRolledBack | kernel/vm.c:329-333 | a failed uvmcopy leaves the parent and all other memory as before |
| VmSpec.ImageFreed | kernel/proc.c:208-216 | freeing an address space restores the memory there was before it |
| VmSpec.ImageShrunk | kernel/vm.c:256-267 | shrinking keeps the account of an address space's pages |
| VmSpec.ExchangedImage | kernel/exec.c:123-136 | exec's new image stands unchanged when the old one is freed |
| UserMem.StoredMore | kernel/vm.c:352-371 | one more chunk of copyout, up to the end of its page, changes the addressed bytes only |
| UserMem.ReadBack | kernel/vm.c:352-396 | what was stored reads back |
| UserMem.RespectsWIff | kernel/vm.c:352-371 | whatever it stores, copyout changes only pages with the W bit exactly when every page of the range, up to the first inaccessible one, has that bit |
| UserMem.NoString | kernel/vm.c:403-439 | no string ends before an inaccessible page that comes before any NUL |
| Vm.Vm.constructor | kernel/kalloc.c:26-40 | every page of the range is free, once |
| Vm.Vm.Kalloc | kernel/kalloc.c:69-82 | a page that was free, or 0 exactly when none is; every managed page stays either free or in use |
| Vm.Vm.Kfree | kernel/kalloc.c:47-63 | the page is free again, once |
| Vm.Vm.Walk | kernel/vm.c:85-103 | leads to the leaf table of the address, growing the tree if asked, with the flat map unchanged; fails exactly when fewer pages are free than tables missing, or at a missing table |
| Vm.Vm.MapPages | kernel/vm.c:143-165 | inserts the range into the flat map, or stops exactly at a mapped page or for want of table pages, and takes exactly the missing tables |
| Vm.Vm.UvmUnmap | kernel/vm.c:171-192 | deletes the range from the flat map and frees exactly its pages when asked, without a panic |
| Vm.Vm.FreeWalk | kernel/vm.c:272-287 | frees exactly the table pages of a subtree that maps nothing |
| Vm.Vm.UvmFree | kernel/vm.c:292-297 | frees exactly the tables and pages of an address space |
| Vm.Vm.UvmCreate | kernel/vm.c:197-205 | an address space that maps nothing, or 0 exactly when no page is free |
| Vm.Vm.UvmAlloc | kernel/vm.c:226-249 | grows the user map by zeroed pages exactly when pages and missing tables fit the free ones, and otherwise leaves it as it was with no page lost |
| Vm.Vm.UvmDealloc | kernel/vm.c:256-267 | shrinks the user map and frees exactly the pages above the new end |
| Vm.Vm.UvmCopy | kernel/vm.c:306-333 | the child maps the same addresses with equal flags and equal bytes on pages of its own, exactly when they and the missing tables fit the free pages; on failure nothing remains |
| Vm.Vm.UvmClear | kernel/vm.c:338-346 | one entry loses its user bit, nothing else changes |
| Vm.Vm.ProcPagetable | kernel/proc.c:176-206 | an address space of the two supervisor pages exactly when three pages are free, and otherwise no change at all |
| VmSpec.ProcFlatBits | kernel/proc.c:176-206 | the kernel may read and execute the trampoline and read and write the trapframe, nothing else, and the user neither |
| Vm.Vm.ProcFreePagetable | kernel/proc.c:208-216 | frees exactly the address space |
| Vm.Vm.GrowProc | kernel/proc.c:257-275 | grows by zeroed pages, exactly when they fit, or shrinks by the bytes asked for, keeping mapping and bytes of all other pages; failure and a shrink below zero leave the map as it was |
| Vm.Vm.Lifetime | kernel/proc.c:176-275 | create, any sequence of growths and shrinks, free: every page is back and the free set is what it was |
| Exec.Exec | kernel/exec.c:23-144 | succeeds exactly when the segments are sound, the arguments fit the stack page and the new image fits the free pages; otherwise all memory is exactly as before; on success only the old image is gone, every segment's bytes and zeroes are in place, each page is writable exactly when bit 1 and executable exactly when bit 0 is set in the flags of the first segment that reached it, the page under the stack is guarded, and strings and argv are on the stack, each right below the one before but for alignment |
| ExecSpec.ProgramLoads | kernel/exec.c:52-70 | one more segment loaded gives the memory that the segments describe, later ones over earlier ones |
| ExecSpec.WordAt | kernel/exec.c:104-110 | each word of the argv array reads back from its eight bytes |
| Exec.LoadSeg | kernel/exec.c:147-166 | stores exactly the bytes of the segment, never at an unmapped page |
| Exec.LoadSegments | kernel/exec.c:52-70 | grows the image and loads every segment, exactly when all are sound and memory suffices; the user pages hold what the segments describe, and each has the W and X bits that the flags of the first segment to reach it ask for |
| Exec.PushArgs | kernel/exec.c:90-110 | strings with their NULs, each at the highest multiple of 16 that leaves it room under the one before, and so the array of their addresses below them, exactly when all that is at most a page |
| ExecSpec.PermsMore | kernel/exec.c:11-20 | a segment added gives its permissions to the pages it adds and leaves those of the others |
| ExecSpec.PermOfFirst | kernel/exec.c:52-70 | the permissions of a page are those of the first segment whose end lies beyond the start of that page |
| ExecSpec.PermBits | kernel/exec.c:11-20 | bit by bit: such a page is valid, readable and the user's, executable exactly when ELF flag bit 0 is set and writable exactly when bit 1 is |
| ExecSpec.ImageSizeIs | kernel/exec.c:52-70 | the image is as large as the segment that reaches furthest |
| Exec.WriteReadOnly | kernel/vm.c:352-371 | copyout to a page whose first segment has no W flag succeeds and stores the byte, although the page is not writable |
| ProcSpec.WorldChange | kernel/proc.c:257-275 | when one process changes in its own or free pages, every other keeps mapping and bytes and no page gets two owners |
| ProcSpec.WorldAdd | kernel/proc.c:279-297 | so it is when a process is added |
| ProcSpec.WorldRemove | kernel/proc.c:208-216 | and when one is removed |
| Procs.Fork | kernel/proc.c:279-297 | exactly when it fits the free pages, the child has the parent's map, flags and bytes on pages of its own; otherwise all memory is exactly as before |
| Procs.RunProcesses | kernel/proc.c:176-386 | any sequence of creating, growing, forking, replacing and ending any number of processes, up to the present state: each request is granted exactly when the pages that are left suffice and its program is sound, does to its process what it should and nothing to the others, and every page in use has one owner throughout |
| Procs.StopAll | kernel/proc.c:208-216 | when all processes have ended, memory and the free set are what they were before any |
| Vm.Vm.WalkAddr | kernel/vm.c:109-126 | an address is found exactly when its page is mapped valid for the user |
| Vm.Vm.CopyOut | kernel/vm.c:352-371 | succeeds exactly when the whole range is accessible and changes exactly the addressed bytes; on failure the bytes before the bad page |
| Vm.Vm.CopyIn | kernel/vm.c:377-396 | succeeds exactly when the whole range is accessible and returns its bytes |
| Vm.Vm.CopyOutThenIn | kernel/vm.c:352-396 | copyin after copyout returns what was written |
| Vm.Vm.CopyToProc | kernel/vm.c:352-371 | copyout to a process: succeeds exactly when the range lies in its accessible pages, which then hold the bytes |
| Vm.Vm.CopyInStr | kernel/vm.c:403-439 | succeeds exactly when a NUL occurs within max bytes before the first inaccessible page, and returns the string |
| Sleeplock.StepKeeps | kernel/sleeplock.c:21-41 | every lock-operation step of every process keeps the invariant |
| Sleeplock.NoLostWakeup | kernel/proc.c:535-580 | in every run a process asleep on the lock has another process holding it, or a releaser whose wakeup scan has yet to reach it |
| Sleeplock.MutualExclusion | kernel/sleeplock.c:21-41 | in every run at most one process is between acquiresleep and releasesleep, and the lock fields name it |
| Sleeplock.StepRefinesLock | kernel/sleeplock.c:21-41 | each step is invisible, takes the free lock, or gives up the lock its process had |
| Sleeplock.AcquireLeaves | kernel/sleeplock.c:21-32 | acquiresleep is left only with the lock, which was free before; its test takes the lock exactly when it is free and goes to sleep otherwise |
| Sleeplock.ReleaseLeaves | kernel/sleeplock.c:34-41 | releasesleep is entered only by the holder and left only after a wakeup scan of the whole table, without the lock |
| Sleeplock.WokenBy | kernel/proc.c:566-580 | a process asleep on the lock is woken exactly by kill or by a scan that looks at it |
| Sleeplock.HoldingSleepExact | kernel/sleeplock.c:43-52 | holdingsleep answers yes exactly to the holder |
| ExitWait.StepSlots | kernel/proc.c:280-435 | every lock-operation step of fork, exit, reparent, wait, kill and the scheduler keeps the invariant of all processes |
| ExitWait.ParentAlive | kernel/proc.c:328-386 | in every run each process past fork but init has a parent, and every parent is alive |
| ExitWait.NoZombieMissed | kernel/proc.c:343-435 | in every run, with wait_lock free no process is asleep in wait while a child of it has exited |
| ExitWait.CollectedOnce | kernel/proc.c:388-424 | in every run each exit is collected at most once, with its own status, and until then its zombie remains; processes are told apart by when they were allocated |
| ExitWait.SamePidIff | kernel/proc.c:92-103 | two processes have the same int pid exactly when a multiple of 2^32 allocations lies between them |
| ExitWait.WaitFinds | kernel/proc.c:388-435 | wait frees only a child that has left its stack for good, and the end of its scan finds no children only when there are none |
| ExitWait.StepPids | kernel/proc.c:110-172 | processes in use differ, and every exit is either collected or still a zombie |
| WaitRuns.ScanEnds | kernel/proc.c:397-434 | in every run, at the end of wait's scan no child is a zombie, and wait goes on to sleep exactly when it has a child and was not killed; otherwise it returns |
| WaitRuns.ReturnsEmpty | kernel/proc.c:408-430 | in every run a wait that returns without a child was killed, could not copy the status out, or has no child |
| WaitRuns.StatusReported | kernel/proc.c:347-435 | in every run the status reported for a pid is the one that very process called exit with, earlier in the run |
| WaitRuns.WokenBy | kernel/proc.c:566-606 | a sleeping process is woken exactly by kill, by its own event elsewhere, or by a wakeup of its channel that looks at it |
| WaitRuns.KillWakes | kernel/proc.c:585-606 | kill marks its process, leaves it awake and changes nothing else |
| WaitRuns.KilledAsleepIff | kernel/proc.c:428-433 | a process comes to sleep in wait although killed exactly when it is killed between its last look at killed and its going to sleep |
| WaitRuns.KilledSleeper | kernel/proc.c:428-433 | a run that gets there |
| WaitRuns.Collected | kernel/proc.c:347-435 | for every status, a run of fork, exit and wait in which wait returns it and the slot is free again |
| VirtioSpec.RingRoom | kernel/virtio_disk.c:271-277 | a ring has room for a chain head that is not in it, so no pending entry is overwritten |
| VirtioSpec.RingPush | kernel/virtio_disk.c:271-277 | adding a head keeps the ring equal to the heads in its phase, each once |
| VirtioSpec.RingIndex | kernel/virtio_disk.c:271-323 | the 16-bit indices pick the right slots and tell an empty ring from any other, also across wrap-around |
| VirtioSpec.ChainsAdd | kernel/virtio_disk.c:235-269 | a new chain of three free descriptors leaves every other chain alone |
| VirtioSpec.ChainsRemove | kernel/virtio_disk.c:184-197 | freeing a chain frees exactly its three descriptors |
| VirtioSpec.SubmitGood | kernel/virtio_disk.c:215-281 | a submitted request keeps the partition of descriptors, both rings and the disk flags in order |
| VirtioSpec.CompleteGood | kernel/virtio_disk.c:309-324 | so does a completion, in any order and with any status |
| VirtioSpec.NoticeGood | kernel/virtio_disk.c:312-324 | the handler finds the status the device gave and the buffer that submitted the request |
| Virtio.Disk.constructor | kernel/virtio_disk.c:22-59 | all descriptors free, rings empty |
| Virtio.Disk.AllocDesc | kernel/virtio_disk.c:155-166 | the first free descriptor, or -1 exactly when none is free |
| Virtio.Disk.FreeChain | kernel/virtio_disk.c:184-197 | terminates without either panic and frees exactly the chain |
| Virtio.Disk.Alloc3Desc | kernel/virtio_disk.c:199-213 | three different free descriptors, or none taken when fewer than three are free |
| Virtio.Disk.Submit | kernel/virtio_disk.c:215-281 | a new three-element chain in the avail ring with its buffer marked busy, or no change |
| Virtio.Disk.DeviceTake | kernel/virtio_disk.c:271-281 | the device gets the oldest pending head |
| Virtio.Disk.DeviceComplete | kernel/virtio_disk.c:222-266 | following the descriptors, whose flags, lengths and directions it checks, the device moves exactly the data the request asked for, or reports a failure |
| Virtio.Disk.NoticeOne | kernel/virtio_disk.c:312-324 | panics exactly when the device reported a failure; otherwise clears the disk flag of exactly the buffer that submitted the request |
| Virtio.Disk.Intr | kernel/virtio_disk.c:294-327 | every completed request up to the first failed one is noticed, and no other; a panic is exactly such a failure |
| Virtio.Disk.Finish | kernel/virtio_disk.c:283-292 | the chain of the finished request, which succeeded, and nothing else, becomes free |
| PipeSpec.WritersSleepWhenFull | kernel/pipe.c:83-98 | in every run a writer sleeps only while the pipe is full and its read end open |
| PipeSpec.CloseAndKill | kernel/pipe.c:58-74 | closing an end wakes everyone asleep at the other, kill wakes its target, and neither touches the bytes |
| PipeSpec.ReadersSleepWhenEmpty | kernel/pipe.c:112-119 | in every run without a stranding exit a reader sleeps only while the pipe is empty and its write end open |
| PipeSpec.ReadersKeptIff | kernel/pipe.c:83-99 | one step breaks that promise exactly when a killed writer leaves after storing bytes while a reader sleeps |
| PipeSpec.KilledWriterStrandsReader | kernel/pipe.c:84-87 | a run in which it happens: the reader sleeps beside an unread byte |
| PipeSpec.FirstInFirstOut | kernel/pipe.c:76-130 | in every run occupancy stays within PIPESIZE, bytes leave in the order they were stored, and each writer's bytes stay in its order |
| Pipe.CountersMean | kernel/pipe.c:88-121 | the wrapping counters are equal exactly when the pipe is empty and PIPESIZE apart exactly when it is full |
| Pipe.Buffer.constructor | kernel/pipe.c:33-36 | an empty pipe with both ends open |
| Pipe.Buffer.Put | kernel/pipe.c:95-96 | the ring slot written is free, so no unread byte is lost |
| Pipe.Buffer.Get | kernel/pipe.c:121-123 | the byte read is the oldest unread one |
| Pipe.Buffer.WriteBytes | kernel/pipe.c:76-103 | a turn of pipewrite stores a prefix of what is left, every byte of it copied in while the read end was open and nobody had killed the writer, and ends exactly as the read end, kill, fullness and copyin decide |
| Pipe.Buffer.ReadBytes | kernel/pipe.c:105-130 | a turn of piperead takes the oldest bytes; one that cannot be copied out is consumed but not counted |
| Pipe.Buffer.Close | kernel/pipe.c:58-74 | closes the one end, and says the pipe is to be freed exactly when both are closed |
| FreeList.InsertWf | user/umalloc.c:24-47 | after free the list is address-ordered, non-overlapping and fully coalesced |
| FreeList.InsertSum | user/umalloc.c:24-47 | free adds exactly the units of its block |
| FreeList.Canonical | user/umalloc.c:24-47 | a coalesced list is determined by the units it covers |
| FreeList.FreeOrder | user/umalloc.c:24-47 | the order of two frees does not matter |
| FreeList.FreeUndoesTake | user/umalloc.c:24-90 | freeing what malloc took from a block gives back the list malloc started from |
| Umalloc.SplicedLinks | user/umalloc.c:33-45 | the pointer and size updates of free turn the circular list into the coalesced one |
| Umalloc.UnlinkLinks | user/umalloc.c:78-79 | an exact fit is taken out of the circular list |
| Umalloc.CutLinks | user/umalloc.c:80-84 | a larger block stays in the list with its tail cut off |
| Umalloc.SearchTest | user/umalloc.c:30-32 | the test that ends free's search holds at the predecessor of the block and nowhere else |
| Umalloc.SbrkRequestExactIff | user/umalloc.c:49-58 | sbrk sees the increment morecore means exactly up to 0x7fffffe0 requested bytes |
| Umalloc.Heap.constructor | user/umalloc.c:21-22 | no memory, no blocks |
| Umalloc.Heap.LinkIn | user/umalloc.c:24-47 | the search terminates at the right place and the block is merged there |
| Umalloc.Heap.Free | user/umalloc.c:24-47 | the block leaves the live blocks, units are conserved and live blocks stay disjoint |
| Umalloc.Heap.MoreCore | user/umalloc.c:49-64 | adds at least the units asked for, or changes nothing |
| Umalloc.Heap.TakeFrom | user/umalloc.c:76-87 | hands out exactly the units asked for and keeps the rest listed |
| Umalloc.Heap.Malloc | user/umalloc.c:66-90 | terminates with at most one morecore; the new block is large enough and disjoint from all others; fails exactly when no block is large enough and sbrk fails or is asked for the wrong amount, which happens exactly above 0x7fffffe0 bytes |
| ShellSpec.GetToken | user/sh.c:266-309 | every token but the end consumes at least one character |
| ShellSpec.ParseLine | user/sh.c:345-360 | parsing terminates on every line and never moves back |
| ShellRoundTrip.RedirsBack | user/sh.c:375-398 | printed redirections parse back in order |
| ShellRoundTrip.ArgsBack | user/sh.c:416-447 | printed words and redirections after them parse back |
| ShellRoundTrip.ExecBack | user/sh.c:400-447 | a command printed as an operand of a pipe, in parentheses if needed, parses back |
| ShellRoundTrip.LineBack | user/sh.c:345-373 | a printed line parses back before the end of the text or a closing parenthesis |
| ShellRoundTrip.RoundTrip | user/sh.c:328-447 | printing any command tree of at most nine plain words per command and parsing it gives the same tree |
| ShellLaws.MixedBack | user/sh.c:416-447 | words and redirections in any order, redirections first included: with fewer than MAXARGS words they parse to the words in order inside the redirections in order, and with more to the panic over too many arguments |
| ShellLaws.LeftOver | user/sh.c:328-343 | a closing parenthesis after any printable line is a syntax error |
| ShellLaws.Unclosed | user/sh.c:400-414 | so is one missing at the end |
| ShellLaws.NoFile | user/sh.c:375-398 | a redirection with no word after it is an error |
| ShellTokens.ParsedTokens | user/sh.c:266-447 | every word and file name of a parsed line is one of its tokens, with a delimiter or the end after it |
| ShellTokens.PrintableAgain | user/sh.c:328-447 | the parser returns only trees that can be printed again |
| ShellTokens.WordsStandAlone | user/sh.c:449-494 | after nulterminate every word reads as exactly its token |
| Shell.GetTok | user/sh.c:266-309 | the cursor loops return the token of the grammar |
| Shell.Redirs | user/sh.c:375-398 | the loop of parseredirs parses as the grammar says |
| Shell.Args | user/sh.c:427-446 | the loop of parseexec parses as the grammar says, with its limit on arguments |
| Shell.ExecCmd | user/sh.c:416-447 | parseexec parses as the grammar says |
| Shell.Block | user/sh.c:400-414 | parseblock parses as the grammar says |
| Shell.PipeCmd | user/sh.c:362-373 | parsepipe parses as the grammar says |
| Shell.Line | user/sh.c:345-360 | parseline parses as the grammar says |
| Shell.Parse | user/sh.c:328-343 | parsecmd yields the tree of the grammar and leaves a buffer in which each word is its own NUL-terminated token |
| Shell.Nulterminate | user/sh.c:449-494 | writes NULs after the words of the tree and nowhere else |

## Left out

- Boot, traps, assembly, UART, PLIC, console and system-call dispatch: plumbing.
- Memory ordering: steps are sequentially consistent, and acquire and release are atomic.
- Liveness, fairness and the choices of the scheduler.
- `kernel/vm.c` kvmmake, kvmmap and uvmfirst: the kernel's own page table and the first process.
- `kernel/fs.c` iget, ilock, skipelem and namex: the inode table and path lookup; operations take the resolved inode and name.
- Exhaustion panics of bget and iget, which depend on load; bget's is reported as a result.
- Inodes leaked by a crash while unlinked but open.
- LogDriver.Log.LogWrite: the buffer's contents are an argument, since the cache is a separate model.
- FsLog.CallsNeverPanic: needs a log with LOGSIZE data blocks; AppendPanicsIff shows why.
- Fs.Fs.Writei: bytes of a copy that fails in mid-block are in the file at once, although their buffer is not logged and may be dropped before it is written.
- Fs.Fs.FileWrite: the file's blocks below its size are allocated, which writei keeps but an image from mkfs may miss by one block.
- Vm.Vm.MapPages: size 0 and addresses from MAXVA on, where the code panics, are excluded.
- Vm.Vm.UvmUnmap: ranges that are not mapped, where the code panics, are excluded.
- Exec.Exec: the ELF headers are given as segments and files as bytes; arguments are fewer than MAXARG and shorter than a page, as sys_exec makes them.
- Procs.RunProcesses: registers, open files and the trapframe page itself are not part of it.
- ExitWait.StepSlots: open files, the current directory and memory in fork and exit are not part of it.
- Sleeplock.MutualExclusion: only holders release.
- Virtio.Disk.DeviceComplete: a request that fails moves no data, and block numbers times two fit 32 bits.
- Virtio.Disk.Submit: a process that finds no descriptors tries again later; the sleep itself is not modelled.
- PipeSpec.WritersSleepWhenFull: sleeping is atomic with the release of the lock, which Sleeplock justifies for its own lock.
- Umalloc.Heap.MoreCore: addresses are in units of a header, so sbrk's result counts as aligned and above the static base.
- Umalloc.Heap.Malloc: stops where sbrk is asked for the wrong amount and does not follow what the heap becomes.
- Shell.ExecCmd: the command node that parseexec fills while redirections already wrap it is built at the end.
- Shell.Parse: the line holds no NUL before its end.
