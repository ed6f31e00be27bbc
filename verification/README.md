# A model of a 32-bit RISC-V xv6, with proofs

A Dafny model of the parts of this small Unix where the reasoning is hard: the block cache and the
redo log, files on disk, address spaces, the process and locking protocols, the disk queue, and
three user programs. Each module follows one part of the system.

- Storage: `LruRing`, `BufferCache`, `BufferOrder`, `RedoLog`, `Transaction`, `LogRun`, `Log` and `LogAdmission` are
  kernel/bio.c and kernel/log.c. `FsImage`, `FsFiles`, `FsLogging` and `FsProgram` are the block and
  inode layer of kernel/fs.c, `MkfsSpace` and `Mkfs` the image that mkfs builds, `FileWrite` and
  `FileTable` kernel/file.c, and `Syscalls` the transactions of the system calls.
- Memory: `PageTable` and `AddressSpace` say what page tables and the free list mean and how each
  step changes them, `UserBytes` what a user sees, and `VirtualMemory` is the code of
  kernel/vm.c and kernel/kalloc.c. `ProcMemory`, `ExecImage`, `ExecContents`, `ExecPlan` and
  `ProcTable` are the memory side of kernel/proc.c and kernel/exec.c.
- Concurrency: `ExitWait`, `SleepLock` and `Pipe` quantify over all interleavings; `VirtioQueue`
  and `Virtio` are the driver against a device that completes requests in any order, with any status.
- User programs: `FreeList` and `Umalloc`, `GrepMatch` and `GrepLines`, `ShellGrammar`,
  `ShellTokens` and `ShellParser`.
- `Params` has the kernel's limits and `Collections` what several modules share.

Code that changes state is a class or a method with loops, proved against functions on values or
directly against what it promises; runs and interleavings are proved on the values. A panic is a
failed precondition, so a proof that a method's callers meet its preconditions is a proof that they
do not panic. Loop bounds, constants and 16- and 32-bit wrap-around are those of the code. What comes
from outside the modelled code is a parameter: how far a copy gets before it faults, what sbrk
returns, how reads cut their input, which step comes next.

Where the code promises less than one might expect, the model follows the code.

- The log has LOGSIZE = 16 blocks with its header, so a transaction has at most 15, and with
  NBUF = 16 commit has exactly the one spare buffer it needs (`LogRun.CommitNeedsOneBuffer`).
- Since LOGSIZE equals MAXOPBLOCKS, begin_op admits one operation at a time, not several as its
  comments say (`LogAdmission.OneOperationAtATime`).
- mkfs rounds the root directory up to the next block even when it ends on one. With `.` and `..` and
  n files the image breaks the kernel's invariant exactly when n + 2 is a multiple of 32 (`Mkfs.Mkfs`),
  as it is for 30 files (`Mkfs.ThirtyFiles`).
- An sbrk whose sum wraps around 2^32 leaves the size alone and returns success
  (`ProcTable.Kernel.Growproc`).
- A failed uvmalloc restores every mapping and data page but keeps the page-table pages that it added
  for the pages below the one that failed (`VirtualMemory.Memory.Uvmalloc`); it keeps none exactly
  when those tables were there already (`AddressSpace.NoNewTables`).
- A kill that comes after wait has looked at the flag and before it is asleep wakes nobody, so a killed
  process can be asleep in wait; this is the only way (`ExitWait.KillMissed`, `ExitWait.KillMissedOnce`).
- kill compares pids without asking whether the slot is in use, and allocproc does not clear the flag,
  so a process made in a slot that was marked while free starts out killed (`ExitWait.BornKilled`).
- bmap changes its inode in memory and leaves writing it back to its caller: what it logs itself is
  enough exactly when the pointer in the inode was there or the disk is full
  (`FsLogging.BmapNeedsIupdate`, `FsLogging.BmapAlone`).
- Of several redirections of one command the first is the innermost and the last to take effect
  (`ShellTokens.RedirsNest`).
- exec fails when a loadable segment is empty and at address 0 while the image is empty, because
  uvmalloc then returns 0; `ProcTable.Kernel.Exec` has the exact condition of its success.
- The interrupt handler of the disk panics exactly when a completion that waits has a status other
  than 0 (`Virtio.Disk.Interrupt`). disk_rw reads the status of its request again after it has released
  the lock; it panics exactly when its head has by then been given to a request that is not completed
  with status 0 (`Virtio.Disk.LateCheck`), even though its own went well (`VirtioQueue.LatePanic`).
- The second failure path of proc_pagetable cannot be taken: the table that maps the trampoline maps
  the trapframe too (`VirtualMemory.Memory.ProcPagetable`).
- grep stops at the first line that does not fit its buffer or has a NUL in it, and prints the
  matching lines before it whatever the reads (`GrepLines.Grep`). It prints all matching lines, whatever
  the pattern, exactly when there is no such line (`GrepLines.PrintsAllAlways`); a last line without a
  newline is no line to it.
- In a pattern a star applies to whatever precedes it, `$` included, a star at the start stands for
  itself, and `$` is special only at the end (`GrepMatch.Match`).

## Model

| member | source | states |
|---|---|---|
| `LruRing.Ring.constructor` | kernel/bio.c:37-54 | after binit the links form one ring through all NBUF buffers, walkable in both directions |
| `LruRing.Ring.MoveToFront` | kernel/bio.c:126-135 | unlinking a buffer and pushing it behind the head leaves one ring: that buffer first, the others in their old order |
| `LruRing.Ring.Unlink` | kernel/bio.c:129-130 | the ring loses exactly the buffer at that place |
| `LruRing.VisitsAll` | kernel/bio.c:66-86 | a list of NBUF distinct buffers contains every buffer, so a walk round the ring misses none |
| `BufferCache.Bcache.ScanHit` | kernel/bio.c:65-74 | the walk along next finds the buffer of the block if and only if one is cached |
| `BufferCache.Bcache.ScanFree` | kernel/bio.c:76-86 | the walk along prev finds the least recently used buffer that nobody holds, if there is one |
| `BufferCache.Bcache.Bget` | kernel/bio.c:59-90 | hit or recycled slot, with the reference counted and the buffer locked; nothing else changes |
| `BufferCache.Bcache.Bread` | kernel/bio.c:92-104 | bget, and a disk read only when the buffer was not valid |
| `BufferCache.Bcache.Brelse` | kernel/bio.c:115-138 | unlock, drop the reference, and move to the front of the ring when it was the last |
| `BufferCache.SlotFound` | kernel/bio.c:59-90 | bget panics exactly when the block is not cached and every buffer is referenced |
| `BufferOrder.LastFree` | kernel/bio.c:76-86 | no free buffer stands after the chosen one in the order of use |
| `BufferOrder.ApplySorted` | kernel/bio.c:117-138 | each operation keeps the list sorted by the time a buffer was last released |
| `BufferOrder.RecyclesOldest` | kernel/bio.c:65-138 | in every run of bread, brelse, bpin, bunpin and bwrite, a recycled buffer is a free one that was released longest ago |
| `RedoLog.ReadOk` | kernel/bio.c:92-104 | reading keeps the cache coherent with the flat block map and yields that map's contents, even when a buffer is recycled |
| `RedoLog.LogWriteOk` | kernel/log.c:214-235 | logging a modified buffer makes its contents the logical ones and leaves exactly one pin per logged block |
| `RedoLog.FillOk` | kernel/bio.c:92-104 | modifying a locked buffer marks only that buffer as differing from the block map |
| `RedoLog.FreeUnlessFull` | kernel/bio.c:76-89 | with no buffer locked, one can be recycled exactly when fewer blocks are pinned than there are buffers |
| `RedoLog.ReplayAt` | kernel/log.c:68-83 | after k rounds of install_trans each of the first k home blocks has its logged contents and every other block its own |
| `RedoLog.RecoverAgain` | kernel/log.c:116-123 | recovery begun again after any number of its installs gives the same home blocks |
| `RedoLog.RecoverySurvivesCrashes` | kernel/log.c:68-123 | any number of crashes between any two block writes of recovery, recovery of recovery included, end in the same home blocks |
| `Transaction.WriteLogOk` | kernel/log.c:178-191 | the disk passes through exactly the states in which one more block has reached the log area |
| `Transaction.CommitOk` | kernel/log.c:193-203 | a commit of n blocks makes 2n+2 disk writes, passes through exactly the listed states, and leaves every pin released |
| `Transaction.CommitPointRecovers` | kernel/log.c:99-114 | once the header is on disk, recovery yields the new home blocks |
| `Transaction.CommitStateRecovers` | kernel/log.c:178-203 | crash atomicity: a crash after any of the commit's writes recovers to all old home blocks up to the header write and to all new ones from it on |
| `Transaction.RecoverOk` | kernel/log.c:116-123 | recover_from_log leaves on disk what the log says, clears the header, and releases every buffer |
| `Transaction.RecoverStates` | kernel/log.c:68-123 | every disk state that recovery passes through is one that recovery can start from again |
| `LogRun.BootEstablishesInv` | kernel/log.c:54-65 | initlog from any well-formed disk starts the run with cache, log and block map in agreement, at the recovered contents |
| `LogRun.CommitWriteStep` | kernel/log.c:178-203 | each single disk write of a commit keeps cache, pins, disk and snapshots in agreement while others hold buffers of any home block but the one being copied |
| `LogRun.RunRefines` | kernel/bio.c:92-152 | in every run of bread, modify, log_write, brelse and the single writes of commits, bread returns the last logged contents, between two writes of a commit too, and a crash at any moment recovers the snapshot of the last commit whose header was written |
| `LogRun.CommitRuns` | kernel/log.c:193-203 | left to itself a commit can make all of its writes, and they are those of the code |
| `LogRun.CrashAndReboot` | kernel/log.c:54-123 | boot, any run, a crash after any disk write, any number of boots cut short, and one that completes: the system starts from the snapshot due at the crash |
| `LogRun.CommitNeedsOneBuffer` | kernel/log.c:178-191 | commit needs one buffer that is not pinned: it can begin if and only if fewer blocks are logged than there are buffers, which a log of at most NBUF blocks ensures |
| `Log.LogState.constructor` | kernel/log.c:54-65 | the log comes up empty over the recovered disk |
| `Log.LogState.RecoverFromLog` | kernel/log.c:116-123 | the loops over the header and the log area compute the recovered disk |
| `Log.LogState.ReadHead` | kernel/log.c:86-97 | lh is the list in the on-disk header |
| `Log.LogState.WriteHead` | kernel/log.c:102-114 | the on-disk header is the list in lh |
| `Log.LogState.InstallTrans` | kernel/log.c:68-83 | the loop installs every logged block and drops its pin |
| `Log.LogState.WriteLog` | kernel/log.c:178-191 | the loop copies every modified block from the cache to the log area |
| `Log.LogState.Commit` | kernel/log.c:193-203 | write_log, write_head, install_trans and write_head again, with lh empty after |
| `Log.LogState.LogWrite` | kernel/log.c:214-235 | absorption or a new entry with a pin, as one step of the run |
| `LogAdmission.StepKeepsInv` | kernel/log.c:126-175 | each critical section of begin_op and end_op keeps the admission invariant; end_op never finds the log committing |
| `LogAdmission.OneOperationAtATime` | kernel/log.c:126-175 | with LOGSIZE equal to MAXOPBLOCKS at most one operation is outstanding in every interleaving, commit runs with none, and no process stays asleep once the log is free |
| `LogAdmission.EntersExactly` | kernel/log.c:127-175 | in every interleaving begin_op enters exactly when no operation and no commit is under way, the end of an operation starts its commit, and the end of a commit leaves the log open and nobody asleep |
| `FsImage.FirstFree` | kernel/fs.c:71-80 | the first clear bit at or after a position, or the length when all are set |
| `FsImage.BallocOk` | kernel/fs.c:65-88 | balloc takes a block that was free, zeroes it, and changes no file |
| `FsImage.GrowOk` | kernel/fs.c:382-421 | a block attached to an empty slot keeps every block reached exactly once; nothing changes when the disk is full |
| `FsFiles.BmapOk` | kernel/fs.c:382-421 | bmap keeps ownership and data, returns the slot's block, and returns 0 only on a full disk |
| `FsFiles.WriteiOk` | kernel/fs.c:505-539 | writei splices the bytes into the file across direct and indirect blocks, leaves other files alone, and is short only on a full disk or an unreadable source; -1 exactly on the range check |
| `FsFiles.ReadiOk` | kernel/fs.c:471-496 | readi returns the requested slice clipped to the size, and changes nothing: no block is missing, so none is allocated |
| `FsFiles.ItruncOk` | kernel/fs.c:425-453 | itrunc empties the file and only it |
| `FsFiles.ItruncFrees` | kernel/fs.c:425-453 | a data block stays in use after itrunc exactly when it was in use and not the file's |
| `FsFiles.TruncIndirectOk` | kernel/fs.c:437-449 | freeing the listed blocks and the indirect block leaves all others owned exactly once |
| `FsFiles.IallocOk` | kernel/fs.c:198-219 | ialloc takes a free inode and clears it, or reports that there is none |
| `FsFiles.IfreeOk` | kernel/fs.c:336-362 | the last iput of an unlinked inode truncates it and marks it free |
| `FsFiles.RunKeepsInv` | kernel/fs.c:65-539 | every run of ialloc, writei, itrunc, iput and link changes keeps the bitmap equal to metadata plus the blocks reached, each once, and every file without holes; readi then allocates nothing |
| `FsProgram.FileSystem.Balloc` | kernel/fs.c:65-88 | the nested loops over bitmap blocks and bits find the first free block |
| `FsProgram.FileSystem.Bfree` | kernel/fs.c:91-105 | the bit is cleared; it is set at every call |
| `FsProgram.FileSystem.Bmap` | kernel/fs.c:382-421 | the branches of bmap compute the mapping function of the image, log exactly the blocks that its logging function names, and leave nothing unlogged but the inode |
| `FsProgram.FileSystem.Writei` | kernel/fs.c:505-539 | the block loop computes the write function of the image, count included, and logs every block, bitmap block and inode that it changes |
| `FsProgram.FileSystem.Readi` | kernel/fs.c:471-496 | the block loop computes the read function, leaves the image as it was and logs nothing |
| `FsProgram.FileSystem.Ialloc` | kernel/fs.c:198-219 | the loop over inodes finds the first free one, and its block is logged |
| `FsProgram.FileSystem.Itrunc` | kernel/fs.c:425-453 | the loops over direct and indirect entries free what the function frees, no bit is cleared twice, all that changes is logged, and besides the inode only bitmap blocks are |
| `FsProgram.FileSystem.Iupdate` | kernel/fs.c:225-241 | a changed inode goes to its own block, which is logged |
| `FsProgram.FileSystem.Ifree` | kernel/fs.c:341-355 | the freeing branch of iput logs all that it changes |
| `FsProgram.FileSystem.Transaction` | kernel/fs.c:46-540 | after any calls between begin_op and end_op the log has every block, bitmap block and inode in which the image differs from the one at begin_op |
| `FsLogging.WriteiRecorded` | kernel/fs.c:506-540 | whatever writei changes in the image is in a block that it logs, on every path |
| `FsLogging.BmapRecorded` | kernel/fs.c:383-421 | bmap logs every block and bit that it changes, and changes its inode exactly when a pointer in it is missing and the disk is not full |
| `FsLogging.BmapNeedsIupdate` | kernel/fs.c:383-421 | bmap alone logs all that it changes if and only if it leaves the inode alone |
| `FsLogging.BmapAlone` | kernel/fs.c:383-395 | the first block of a file on a new image: the inode has changed and is not logged |
| `Mkfs.LayoutOk` | mkfs/mkfs.c:23-103 | log, inode, bitmap and data blocks do not overlap, and the log leaves the cache one buffer to spare |
| `Mkfs.Image.constructor` | mkfs/mkfs.c:92-112 | the fresh image satisfies the file-system invariant |
| `Mkfs.Image.Ialloc` | mkfs/mkfs.c:220-232 | the counter hands out the inode that the kernel's ialloc would, with one link |
| `Mkfs.Image.Iappend` | mkfs/mkfs.c:252-294 | appending is the kernel's writei at the end of the file, so the image stays sound |
| `Mkfs.Image.WriteBitmap` | mkfs/mkfs.c:234-248 | the bitmap written at the end has exactly the blocks in use |
| `MkfsSpace.AppendPacked` | mkfs/mkfs.c:252-294 | appending succeeds when the free blocks cover what the file then needs, takes exactly those blocks, leaves every other file alone, and leaves zeros after the last byte |
| `MkfsSpace.AllocPacked` | mkfs/mkfs.c:220-232 | a new inode changes neither the files nor the blocks in use |
| `Mkfs.FixRootOk` | mkfs/mkfs.c:163-168 | rounding the root directory's size up keeps the invariant if and only if the size is not already a multiple of BSIZE or a block beyond the end is mapped |
| `Mkfs.Image.AddEntry` | mkfs/mkfs.c:150-155 | the next inode and its directory entry, everything else as it was |
| `Mkfs.Image.CopyIn` | mkfs/mkfs.c:157-158 | the file has the bytes that the reads returned, in order |
| `Mkfs.BuiltOk` | mkfs/mkfs.c:163-170 | the finished image has every file and directory entry, and satisfies the invariant if and only if the number of entries is not a multiple of 32 |
| `Mkfs.EntryAt` | mkfs/mkfs.c:120-155 | entry k of the root has inode number k, read least significant byte first, and the name of file k - 2 cut to 14 characters; the first two are the root itself |
| `Mkfs.Mkfs` | mkfs/mkfs.c:92-172 | for all files that fit, the run of mkfs ends in such an image: the invariant holds if and only if (2 + files) % 32 is not 0, and the bitmap marks exactly the blocks needed |
| `Mkfs.ThirtyFiles` | mkfs/mkfs.c:163-168 | with 30 files the second block of the root has no address and the invariant fails |
| `FileWrite.ChunksOk` | kernel/file.c:148-175 | after any number of chunks the file has the written prefix in place and every other file is as it was; a short count means a file too big, a source that cannot be read, or a full disk |
| `FileWrite.FilewriteOk` | kernel/file.c:148-175 | filewrite returns n with all bytes in place, or -1 with fewer; and -1 only if the file would be too big, the source cannot be read, the disk is full, or the offset is beyond the end |
| `FileWrite.File.Write` | kernel/file.c:148-175 | the chunk loop does so and advances the offset by exactly what was written; no transaction of it logs more than 10 distinct blocks, and each logs all that it changes |
| `FileWrite.ChunkFitsLog` | kernel/file.c:155-174 | one chunk logs at most 10 distinct blocks, fewer than the log holds, so log_write cannot panic |
| `FileTable.Ftable.Filealloc` | kernel/file.c:29-44 | a file that nobody held and that is of nothing; none exactly when all are held |
| `FileTable.Ftable.Filedup` | kernel/file.c:47-56 | one more holder, of a file that somebody holds |
| `FileTable.Ftable.Fileclose` | kernel/file.c:59-83 | the count follows the holders, and only the last close returns what to close or put |
| `FileTable.Ftable.AllocAndClose` | kernel/sysfile.c:335-341 | closing a file just allocated finds no inode, so no transaction is begun inside sys_open's |
| `Syscalls.CheckSound` | kernel/sysfile.c:122-432 | a bracket check of control flow is sound for every run of it, loops and calls included |
| `Syscalls.CallsBracket` | kernel/sysfile.c:122-432 | on every path of link, unlink, open, mkdir, mknod, chdir, close, write, exec and exit, transactions do not nest, nothing is logged outside one, and none is left open |
| `PageTable.KfreeOk` | kernel/kalloc.c:49-66 | kfree of a page in use moves it, and only it, to the free list |
| `PageTable.WalkOk` | kernel/vm.c:80-98 | a table added by walk changes no translation and costs one free page |
| `PageTable.SetLeaf` | kernel/vm.c:80-98 | storing one entry changes the translation of one page alone |
| `AddressSpace.UserBound` | kernel/vm.c:223-247 | pages of a space have frames of their own, so their number is bounded by memory |
| `AddressSpace.AddUser` | kernel/vm.c:233-245 | one mapped page more: owned pages and translations change by that page and at most one table |
| `AddressSpace.DropUser` | kernel/vm.c:177-189 | freeing the frame and clearing the entry removes that page and keeps all others, byte for byte |
| `AddressSpace.DropTable` | kernel/vm.c:269-285 | a lower table that freewalk meets has no leaf; freeing it loses no other page |
| `AddressSpace.Untouched` | kernel/vm.c:303-331 | a space none of whose pages moved keeps its mappings and contents |
| `AddressSpace.FreshNeed` | kernel/vm.c:223-331 | the first n pages of a new space cost n pages and one table per 1024 |
| `VirtualMemory.Memory.constructor` | kernel/kalloc.c:27-43 | kinit puts every managed page on the free list once |
| `VirtualMemory.Memory.Kalloc` | kernel/kalloc.c:71-85 | the head of the free list, or nothing when it is empty |
| `VirtualMemory.Memory.Kfree` | kernel/kalloc.c:49-66 | a page in use goes to the head of the free list |
| `VirtualMemory.Memory.Walk` | kernel/vm.c:80-98 | the table of a page, allocated on demand; a failure changes nothing |
| `VirtualMemory.Memory.Mappages` | kernel/vm.c:137-163 | one new leaf with its accessed and dirty flags, or nothing at all |
| `VirtualMemory.Memory.Uvmunmap` | kernel/vm.c:168-190 | exactly the range is unmapped; no page is missing or a table, and each frame is freed once |
| `VirtualMemory.Memory.Uvmalloc` | kernel/vm.c:223-247 | succeeds if and only if the free pages cover the new pages and missing tables; then the new pages are zeroed and mapped at that cost, otherwise every leaf and data page is as before and exactly the tables added below the page that failed are kept |
| `AddressSpace.NoNewTables` | kernel/vm.c:223-247 | mapping a range adds no table exactly when each of its pages has one |
| `VirtualMemory.Memory.Uvmdealloc` | kernel/vm.c:253-265 | the pages above the new size are gone, the rest unchanged |
| `VirtualMemory.Memory.Uvmcopy` | kernel/vm.c:303-331 | succeeds if and only if memory covers it; then every page has the parent's bytes and flags in a frame of its own, otherwise nothing stays mapped |
| `VirtualMemory.Memory.Freewalk` | kernel/vm.c:269-285 | all tables of a space without leaves return to the free list, and no leaf is met |
| `VirtualMemory.Memory.Uvmfree` | kernel/vm.c:289-295 | every page that the space owns returns to the free list |
| `VirtualMemory.Memory.Uvmclear` | kernel/vm.c:335-344 | the page loses its user flag and nothing else changes |
| `VirtualMemory.Memory.ProcPagetable` | kernel/proc.c:176-206 | trampoline and trapframe mapped at the cost of two pages, exactly when there are two; otherwise the free pages are as before |
| `VirtualMemory.Memory.ProcFreepagetable` | kernel/proc.c:210-216 | unmaps both, then frees all user pages and tables; no panic is reachable |
| `VirtualMemory.Memory.Walkaddr` | kernel/vm.c:103-121 | the frame of a page that is valid and open to the user, else nothing |
| `VirtualMemory.Memory.Copyin` | kernel/vm.c:374-394 | the bytes at the addresses one by one, modulo 2^32; it fails exactly when one of them cannot be read |
| `VirtualMemory.Memory.Copyinstr` | kernel/vm.c:400-437 | returns a terminated string of at most max bytes whenever one can be read, and fails only when none can |
| `VirtualMemory.Memory.Copyout` | kernel/vm.c:349-369 | the bytes before the first unreachable address are written, no other byte changes, and success means all of them |
| `VirtualMemory.Memory.Loadseg` | kernel/exec.c:147-166 | the file's bytes are at the segment's addresses; no page is missing, and it fails exactly when the file is too short |
| `ProcMemory.Replace` | kernel/proc.c:109-172 | when only one process's pages moved, the table stays sound: no page shared, none lost, and all other processes byte for byte the same |
| `ProcMemory.AllBack` | kernel/proc.c:155-172 | with no process left, all memory but the kernel's own is free |
| `ProcTable.Kernel.Allocproc` | kernel/proc.c:109-150 | succeeds exactly when three pages are free; a failure leaves no page behind |
| `ProcTable.Kernel.Freeproc` | kernel/proc.c:155-172 | the process's pages, and no others, return to the free list |
| `ProcTable.Kernel.Growproc` | kernel/proc.c:259-275 | grows exactly when memory covers all of it, with zeroed pages that can be written, shrinks always, keeps what remains; a sum that wraps leaves the size alone and reports success |
| `ProcTable.Kernel.Fork` | kernel/proc.c:279-326 | succeeds exactly when the free pages cover the closed-form cost; then the child has the parent's image and a cleared a0, otherwise nothing changed |
| `ExecPlan.TabledNeed` | kernel/exec.c:49-70 | growing the new image costs the difference of two closed-form costs, so the order and sizes of the steps do not matter |
| `ExecImage.ArgvHeld` | kernel/exec.c:100-109 | the words at the stack pointer, read least significant byte first, are the addresses of the arguments in order and then 0 |
| `ExecContents.LaidGrown` | kernel/exec.c:65 | the pages that a segment adds are zero and have its permissions |
| `ExecContents.LaidWrote` | kernel/exec.c:68 | loading a segment changes none but its file bytes, so all others stay zero |
| `ExecContents.ImageMade` | kernel/exec.c:81-88 | with the guard page and a stack page that can be written, the image below is as the segments made it |
| `ProcTable.Kernel.LoadSegments` | kernel/exec.c:49-70 | succeeds exactly when every header is in order and the free pages cover the image; none makes it panic, and segments that do not overlap are all in memory |
| `ProcTable.Kernel.PushArgs` | kernel/exec.c:89-113 | succeeds exactly when strings and array fit the page; the strings are then on the stack page, not overlapping, and the array at the stack pointer, aligned to 16 bytes, has their addresses in order and a null |
| `ProcTable.Kernel.Build` | kernel/exec.c:46-113 | the whole new image with guard page and arguments exactly when segments, arguments and free pages allow it, or every page given back |
| `ProcTable.Kernel.Exec` | kernel/exec.c:22-141 | succeeds exactly when the file is an ELF file, its headers are in order, the arguments fit a page and the free pages cover the image; then the old image is freed, the new one has its segments, their permissions and zeros elsewhere, argv in order, and epc, sp and a1 with the right values; otherwise the old image and the free pages are as they were |
| `ProcTable.Kernel.Store` | kernel/vm.c:349-369 | goes through exactly when the process can reach every byte, and leaves every other process the same |
| `ProcTable.Kernel.Take` | kernel/kalloc.c:71-85 | a page for the rest of the kernel changes nothing that a process sees |
| `ProcTable.Kernel.Give` | kernel/kalloc.c:49-66 | nor does its return |
| `ProcTable.Kernel.Serve` | kernel/proc.c:109-326 | after any run of spawning, forking, sbrk, exec, stores, reaping, and the rest of the kernel taking and returning pages, with memory running out anywhere, mappings are exactly [0, sz) plus trapframe and trampoline, no page is shared or lost, and with no process left all but the kernel's are free |
| `ExecImage.Switch` | kernel/exec.c:127-132 | swapping the images frees the old one and keeps the new one and the trapframe |
| `ExecImage.Isolated` | kernel/vm.c:303-394 | while only one process changes, what any other can read does not |
| `ExitWait.KeepsInv` | kernel/proc.c:279-435 | every step of fork, exit, reparent, wait, sleep, wakeup and kill keeps the invariant |
| `ExitWait.ReparentProgress` | kernel/proc.c:330-341 | handing a zombie to init and waking init keeps the promise that init will be woken |
| `ExitWait.WakeProgress` | kernel/proc.c:330-341 | the wakeup of init after a child was handed to it reaches init if it sleeps |
| `ExitWait.ExitProgress` | kernel/proc.c:346-386 | a process becomes a zombie only after its parent was woken and its children are gone |
| `ExitWait.WaitProgress` | kernel/proc.c:535-562 | going to sleep with p->lock taken before wait_lock is released misses no exit |
| `ExitWait.RunKeepsInv` | kernel/proc.c:279-604 | the invariant holds after any sequence of steps |
| `ExitWait.NoZombieUnnoticed` | kernel/proc.c:390-435 | whenever wait_lock is free, no process asleep in wait has a zombie child |
| `ExitWait.NoOrphans` | kernel/proc.c:330-386 | every started process but init has a parent that has started and is no zombie |
| `ExitWait.ReapedOnce` | kernel/proc.c:400-419 | no exit is reaped twice, and each is returned with its own pid and status |
| `ExitWait.ChildlessIsTrue` | kernel/proc.c:421-426 | wait gives up for want of children only when there are none |
| `ExitWait.SleepersHaveChildren` | kernel/proc.c:427-433 | a process on its way to sleep in wait, or asleep there, has a child |
| `ExitWait.GivesUpExactly` | kernel/proc.c:427-433 | at the end of its scan wait gives up if and only if the caller has no child or has been killed, and sleeps otherwise |
| `ExitWait.ZombieReaped` | kernel/proc.c:400-421 | a scan that comes to a zombie child returns its pid and the status it exited with, and frees the slot |
| `ExitWait.WaitEnds` | kernel/proc.c:391-435 | wait ends only with a zombie reaped, a status that cannot be copied out, no child, or the caller killed |
| `ExitWait.ForkedRuns` | kernel/proc.c:310-326 | fork leaves a runnable child of the caller with a pid that nobody else has |
| `ExitWait.ExitAndForkEnd` | kernel/proc.c:279-386 | exit ends only in a zombie, and a fork that has a slot only with its child runnable |
| `ExitWait.OnlyKillMarks` | kernel/proc.c:586-604 | a process becomes killed exactly by kill, and stops being so only when its slot is freed |
| `ExitWait.KilledForever` | kernel/proc.c:586-604 | in every run a process once killed is killed as long as its pid lives |
| `ExitWait.KillMissed` | kernel/proc.c:427-432 | a killed process comes to sleep in wait exactly by falling asleep after the kill |
| `ExitWait.KillMissedOnce` | kernel/proc.c:427-432 | a run in which this happens |
| `ExitWait.BornKilled` | kernel/proc.c:109-150 | a run in which a new process starts out killed |
| `SleepLock.KeepsInv` | kernel/sleeplock.c:21-41 | every step of acquiring, sleeping, releasing, waking and killing keeps the invariant |
| `SleepLock.MutualExclusion` | kernel/sleeplock.c:21-52 | at most one holder in every interleaving, and holdingsleep tells it from the others |
| `SleepLock.NoLostWakeup` | kernel/sleeplock.c:33-41 | whenever the inner spin lock is free, a process asleep on the lock means that another holds it |
| `SleepLock.TakenIfFree` | kernel/sleeplock.c:21-41 | in every run a process that tests the lock takes it if and only if nobody has it, and a release leaves it to nobody |
| `SleepLock.AcquireEnds` | kernel/sleeplock.c:21-41 | acquiresleep ends only with the lock taken, and only releasesleep gives it up |
| `SleepLock.WakesAll` | kernel/sleeplock.c:33-41 | the wakeup loop of releasesleep leaves nobody whom it has come to asleep on the lock |
| `Pipe.Pipe.constructor` | kernel/pipe.c:22-56 | an empty pipe with both ends open |
| `Pipe.Pipe.Counters` | kernel/pipe.c:88-94 | counters modulo 2^32 tell empty and full apart and give the right slot, however often they have wrapped |
| `Pipe.Pipe.WriteStretch` | kernel/pipe.c:76-103 | a stretch puts in as many bytes as source, room, fault and kill allow; it fails if and only if the read end is closed or the writer killed with bytes left, and sleeps if and only if it could go on but the pipe is full |
| `Pipe.Pipe.ReadStretch` | kernel/pipe.c:105-130 | the oldest bytes come out in order; on an empty pipe with its write end open it fails if killed and sleeps if not, and 0 bytes otherwise mean drained and closed |
| `Pipe.Pipe.Close` | kernel/pipe.c:58-74 | the page is freed when the second end is closed |
| `Pipe.Traffic.Goes` | kernel/pipe.c:76-103 | what each writer has put in is a prefix of its buffer, in order, among those of others |
| `Pipe.Traffic.Play` | kernel/pipe.c:58-130 | over any interleaving of calls the bytes read are a prefix of the bytes written and occupancy stays within 512 |
| `VirtioQueue.PostOk` | platform/qemu/platform.c:220-262 | a new request owns three descriptors that were free and overwrites no ring entry the device has yet to take |
| `VirtioQueue.CompleteOk` | platform/qemu/platform.c:362-385 | a completion in any order overwrites no used entry the driver has yet to see |
| `VirtioQueue.NextOk` | platform/qemu/platform.c:372-377 | the handler comes to the request whose head the device returned next, and reads the status that the device gave that very request |
| `VirtioQueue.SeeOk` | platform/qemu/platform.c:372-382 | with status 0 that request, and no other, is marked done |
| `VirtioQueue.FinishOk` | platform/qemu/platform.c:264-268 | giving the chain back leaves every other request its own |
| `VirtioQueue.Disjoint` | platform/qemu/platform.c:206-218 | requests in flight share no descriptor |
| `VirtioQueue.ParseOk` | platform/qemu/platform.c:232-252 | until it is freed, following a chain as its flags say reads back the request and where its status goes, with the buffer open to the device exactly on a read |
| `VirtioQueue.RunOk` | platform/qemu/platform.c:164-385 | all of this holds in every order of requests, device steps and interrupts, with 16-bit indices wrapping |
| `VirtioQueue.LateStatus` | platform/qemu/platform.c:272-273 | in every reachable queue the status of a head is bad if and only if a request has that head and was not completed with status 0 |
| `VirtioQueue.LatePanic` | platform/qemu/platform.c:264-273 | a run in which a request goes well and its requester, reading late, finds the status of the next one |
| `Virtio.Disk.AllocDesc` | platform/qemu/platform.c:164-174 | the lowest free descriptor, or none when none is free |
| `Virtio.Disk.Alloc3` | platform/qemu/platform.c:206-218 | three descriptors exactly when three are free; otherwise the free set and table are as before |
| `Virtio.Disk.Submit` | platform/qemu/platform.c:220-262 | a posted request, or nothing changed for want of descriptors |
| `Virtio.Disk.Interrupt` | platform/qemu/platform.c:362-385 | panics if and only if a waiting completion has a status other than 0; the completions before it, or all of them, are marked done for their own requests |
| `Virtio.Disk.FreeChain` | platform/qemu/platform.c:192-204 | following the links frees exactly the three descriptors, none of them free already |
| `Virtio.Disk.Reclaim` | platform/qemu/platform.c:264-268 | a requester goes on exactly when its request is done, and then its status is 0 |
| `Virtio.Disk.LateCheck` | platform/qemu/platform.c:272-273 | the check after the lock is released panics if and only if the head then belongs to a request without status 0 |
| `Virtio.Disk.DeviceTake` | platform/qemu/platform.c:254-259 | what the device reads through the next available head is what was asked for |
| `Virtio.Disk.DeviceComplete` | platform/qemu/platform.c:371-377 | the device returns any request it has, in any order and with any status, which is then what the driver finds |
| `FreeList.MergeOk` | user/umalloc.c:33-41 | joining two touching free blocks keeps the blocks a partition of all units |
| `FreeList.ReleaseOk` | user/umalloc.c:24-44 | after free the ring is sorted and coalesced again, live blocks keep their sizes, and no unit is lost |
| `FreeList.SplitOk` | user/umalloc.c:77-82 | taking the tail of a block makes a block where there was none |
| `FreeList.GrowOk` | user/umalloc.c:46-61 | memory from sbrk is a block of its own above all others |
| `FreeList.Disjoint` | user/umalloc.c:24-90 | blocks, live or free, do not overlap |
| `Umalloc.Allocator.Find` | user/umalloc.c:30-32 | from anywhere in the ring the search ends, at the last free block below the one given |
| `Umalloc.Allocator.Free` | user/umalloc.c:24-44 | one circular, address-ordered, fully coalesced ring, with exactly that block's units added |
| `Umalloc.Allocator.Morecore` | user/umalloc.c:46-61 | the new units join the ring at or right after the block returned |
| `Umalloc.Allocator.Malloc` | user/umalloc.c:63-90 | terminates with at most one call of morecore, and none if a free block fits; returns a new block that has room for the bytes asked for, without touching the others, or fails only when nothing fits and sbrk fails |
| `GrepMatch.MatchHere` | user/grep.c:83-95 | true exactly when the text begins with a string that the expression denotes, and is that string under a final $ |
| `GrepMatch.MatchStar` | user/grep.c:97-105 | the same for a starred character before the expression |
| `GrepMatch.Match` | user/grep.c:71-81 | true exactly when some position, the start only under ^, begins such a string |
| `GrepMatch.BeginsStar` | user/grep.c:97-105 | a star denotes any number of fitting characters before the rest |
| `GrepLines.Grep` | user/grep.c:10-34 | the output is a function of the input alone, however reads cut it up: the matching lines up to the first that does not fit the buffer or has a NUL in it |
| `GrepLines.Lines` | user/grep.c:20-27 | complete lines in the buffer are printed if they match, whatever follows |
| `GrepLines.PrintedOrUnseen` | user/grep.c:10-34 | the matching lines are those printed and those after the place where grep stops |
| `GrepLines.PrintsAll` | user/grep.c:10-34 | for one pattern, grep prints every matching line if and only if no line after that place matches |
| `GrepLines.PrintsAllAlways` | user/grep.c:10-34 | grep prints every matching line whatever the pattern if and only if every line fits the buffer and has no NUL in it |
| `GrepLines.LongLineLost` | user/grep.c:17 | a matching line of 1024 characters with its newline is not printed |
| `ShellGrammar.RoundTrip` | user/sh.c:328-447 | parsing the parenthesised printing of any legal command gives the command back |
| `ShellGrammar.ReadsBack` | user/sh.c:345-447 | the same inside parentheses, with what follows left unread |
| `ShellGrammar.AcceptedIsLegal` | user/sh.c:328-447 | whatever is accepted is a legal command, and printing it and parsing again gives the same |
| `ShellGrammar.Expressible` | user/sh.c:328-447 | a command is the meaning of some input if and only if it is legal |
| `ShellTokens.ParseAlike` | user/sh.c:266-447 | the parse depends on the tokens alone |
| `ShellTokens.WhiteSpaceIgnored` | user/sh.c:263-309 | white space may be added, dropped or changed wherever no token is cut |
| `ShellTokens.NewlineIgnored` | user/sh.c:263-309 | the newline at the end of a line does not change the parse |
| `ShellTokens.RedirsNest` | user/sh.c:375-398 | the redirections after a command nest in the order written, the first innermost |
| `ShellParser.GetToken` | user/sh.c:266-309 | the kind and extent of the next token, and where the one after it begins |
| `ShellParser.Peek` | user/sh.c:311-321 | skips white space and tests the next character |
| `ShellParser.ParseRedirs` | user/sh.c:375-398 | the loop reads the redirections of the grammar, or finds a file missing |
| `ShellParser.ParseArgs` | user/sh.c:428-446 | the loop reads the words and redirections of a simple command, with at most nine words |
| `ShellParser.ParseExec` | user/sh.c:416-447 | a block or a simple command, as the grammar says |
| `ShellParser.ParseBlock` | user/sh.c:400-414 | a parenthesised line and its redirections |
| `ShellParser.ParsePipe` | user/sh.c:362-373 | commands joined by bars, to the right |
| `ShellParser.ParseLine` | user/sh.c:345-360 | pipelines with ampersands and semicolons; it terminates on every input |
| `ShellParser.Nulterminate` | user/sh.c:450-494 | a NUL is written at the end of every word and nowhere else |
| `ShellParser.ParseCmd` | user/sh.c:328-343 | accepts exactly what the grammar accepts, with the same tree, and every word is then a C string equal to its token |

## Left out

- Boot, traps, assembly, timer, UART, PLIC and the other platform: machine state and register I/O. A context switch is one step.
- Spin locks and memory ordering: a critical section under a lock is a step; the order of lock operations is kept where it matters.
- Path names, directories, link counts and the inode table (dirlookup, dirlink, namex, iget): files are known by inode number, and a removed directory may still be in use, so a simple link-count invariant is false.
- The console line editor, kernel and user printf, and the system call dispatch.
- runcmd and the other user programs: sequences of system calls.
- kvmmap, kvmmake and the kernel's own page table.
- VirtualMemory.Memory.Mappages: maps one page, because that is all that user memory asks of it.
- Sleep locks of buffers and inodes inside the cache and file models: a buffer is held by at most one process at a time there; `SleepLock` proves the lock.
- FsFiles.WriteiOk: a copy faults between blocks only, because in the middle of one the code leaves a modified buffer that is not logged.
- How mkfs derives names in the image from its arguments: a file comes with its name.
- Byte layout of dinodes and bitmap blocks: inodes and bits are sequences, and indirect blocks are bytes.
- Reader liveness of pipes: a write that fails does not wake readers.
- User data in blocks of the allocator, and address arithmetic below its unit.
- ProcTable.Kernel.Exec: takes at most 15 arguments of at most a page each, because its only caller passes no more.
- Umalloc.Allocator.Malloc: takes requests whose size in bytes fits a positive int, because sbrk takes an int.
- ExitWait.KeepsInv: chooses any unused slot for a new process and any process to kill, because scanning order and pid lookup do not matter to it; pids are not bounded.
- Syscalls.CallsBracket: keeps only brackets and logging of each call, because the conditions of its branches do not decide them.
