# xv6 with mprotect and cowfork: a verified model

This project models the hard parts of a small Unix-like kernel written in C (a descendant of xv6 with
`mprotect` and copy-on-write `fork` added) and proves properties of them in Dafny 4.11. Code that
changes state step by step is modelled as classes and methods with loops, each proved against a
specification; the specifications are functions and predicates whose properties are lemmas.
`dafny verify dfyconfig.toml` checks everything.

## What is modelled

- **Redo log** (`RedoLog`, `LogProtocol`, over `Sectors`): commit and recovery as sequences of atomic
  sector writes, with a crash possible between any two of them and inside every repeated recovery;
  and the protocol of `begin_op`, `log_write`, `end_op`, commit, crash and recovery as a state machine
  over any number of system calls.
- **Buffer cache** (`BufferCache`): the doubly linked ring, the flags and the disk driver. The contents
  of a sector as a client sees them change only when a holder stores into its buffer.
- **Files** (`Bitmap`, `BlockMap`, `FileSystem`): allocation bitmap at the level of bits, direct and
  indirect blocks, reading, writing and truncating. A file is a byte sequence; who owns which sector
  is an invariant over direct slots, indirect blocks and indirect entries.
- **Files over the log** (`DurableFiles`): inodes, bitmap and data as sectors, file operations as groups
  of the log protocol, and what is read from the disk after a crash and recovery at any moment.
- **Names** (`Links`, `Paths`, `Namespace`, `LinkLimit`): directories, path walks, `create`, `link`,
  `unlink` and `iput` with reference counts. A link count is the number of names in directories that
  are still linked, not counting ".".
- **Heap** (`Umalloc`): `malloc` and `free` over an address-ordered ring in memory.
- **Pipes** (`Pipe`), **process table** (`Lifecycle`) and **sleep and wakeup** (`SleepWakeup`): ring
  buffer with wrapping counters; fork, exit, wait and kill; and the locking protocol that makes
  wakeups impossible to lose, for any number of processes and processors. **Interrupts** (`Interrupts`):
  `pushcli` and `popcli` over that protocol.
- **Address spaces** (`Paging`, `FrameOwners`, `AddressSpaces`, `Vm`): frames with a free list threaded
  through them, page tables inside frames, and the operations that map, grow, shrink, copy, free and
  protect user memory. **Processes over them** (`ProcessMemory`): `growproc` and `fork` against the
  rule that exactly the pages below a process's size are mapped.
- **Shell parser** (`Shell`, and `ShellGrammar` for the grammar it implements) and **pattern matcher** (`Grep`).

## Where the code falls short of what one would expect

The model follows the code; each point is proved with an exact condition, or with a run that shows it.

- The log reservation protects new sectors if and only if no call logs more than MAXOPBLOCKS of them and
  the log has more than LOGSIZE sectors in all (`LogProtocol.ReservationSufficientIff`). Neither holds:
  mkfs lays out exactly LOGSIZE, and the first operation of a write of more than MAXOPBLOCKS blocks logs
  more (`FileSystem.Filewrite`), since `filewrite` sizes its chunks for LOGSIZE.
- A rewrite of an already logged sector panics on an exactly full log (`LogProtocol.FullLogPanics`).
- `balloc` hands out a sector of the log if and only if all sectors before the log are in use
  (`FileSystem.Balloc`); `FileSystem.LogSectorOwned` is a run that gets there, and `FileSystem.Writei` says
  how many free sectors rule it out.
- `malloc` hands out memory of the process if and only if the request is at most 0x7FFFFFF0 bytes
  (`Umalloc.Heap.Malloc`, with a failing call in `Umalloc.JustTooMuch`).
- A killed writer can leave a reader asleep beside a full pipe; `Pipe.Pipe.WriteSection` says exactly
  when, `Pipe.KilledWriterStrandsReader` gives a run.
- Link counts are exact over a run if and only if no `link` is made to a file with 32767 names
  (`LinkLimit.RunExactIff`); `LinkLimit.CountExhausted` reaches that state. So many names fill 1024
  sectors of directory entries, so it takes a larger disk than the 1024 sectors that mkfs.c:16-19 lays out.
- A process starts out killed if and only if its slot was marked while it was free
  (`Lifecycle.ProcTable.AllocProc`). `kill` marks a free slot if and only if the first slot with the pid is
  free, and a failed fork frees a marked one if and only if the embryo was killed; every other operation
  leaves free slots unmarked. `Lifecycle.BornKilled`, `BornKilledStale` and `BornKilledEmbryo` are runs.
- `allocuvm` ignores a failure to make a page table: it reports success without mapping the last page if
  and only if that page is the first to need its table and exactly one frame is missing
  (`Vm.Vm.Allocuvm`, `ProcessMemory.SuccessWithoutPage`).
- `growproc` leaves exactly the pages below the size mapped but for that case and for shrinking to nothing,
  after which the process has no page and its old size (`ProcessMemory.Growproc`).
- So `fork` can panic: a process grows one frame short, another one gives memory back, the first one forks
  (`ProcessMemory.OneShortThenFork`, and `OneShortGrowThenFork` for the other panic of `copyuvm`). On an
  image without a gap it never does (`ProcessMemory.ForkImage`).
- `deallocuvm` steps over the span of a whole table where a table is missing, even from the middle of
  it; the range is unmapped completely if and only if that passes over no mapped page
  (`Vm.Vm.Deallocuvm`, `ProcessMemory.PassedOver`). From address 0, as in `freevm`, and on every image of a
  process it passes over none (`AddressSpaces.BeginAligned`, `ProcessMemory.NothingPassedOver`).
- `mprotect` on an unmapped page whose page table exists makes it present on frame 0; ownership stays
  intact if and only if every covered user page was mapped (`Vm.Vm.Mprotect`,
  `ProcessMemory.ProtectUnmapped`). It does not stop at the kernel half: a request for reading that
  reaches it sets the user bit on kernel pages (`AddressSpaces.ProtectOpens`), although
  vm.c:108-109 counts on the protection bits to keep user code out of them.
- The comment in types.h says that PROT_WRITE makes a page accessible to the user; the code does not
  set the user bit, and `Paging.ProtectParts` states what it does.

## Model

| member | source | states |
|---|---|---|
| `RedoLog.InstalledAt` | log.c:69-81 | After copying the first k log slots home, each home sector holds the block of the last slot that names it, or its old contents if none does. |
| `RedoLog.Reinstall` | log.c:69-81 | Installing again from any half-installed disk ends on the same disk: installation is idempotent from every prefix. |
| `RedoLog.CrashPointRecovers` | log.c:115-121 | Any disk that an interrupted or finished recovery can leave behind recovers to the same disk as the one it started from. |
| `RedoLog.RecoveryIgnoresCrashes` | log.c:115-121 | However many times recovery is interrupted, finishing it once yields the same disk as an undisturbed recovery. |
| `RedoLog.CommittedRecover` | log.c:190-199 | From the header write to the final clear, every disk state of a commit recovers to the new home sectors. |
| `RedoLog.FullLogRecovers` | log.c:175-199 | A disk whose log holds the new version of every changed sector recovers exactly to the new contents. |
| `RedoLog.CommitTrace` | log.c:190-199 | The disk states of one commit split at the header write: those before recover to the old home sectors, the rest to the new ones, none to a mixture. |
| `RedoLog.Log.constructor` | log.c:53-65 | Power-on state: nothing cached beyond the disk, no pending sector, no operation outstanding. |
| `RedoLog.Log.ReadHead` | log.c:85-95 | The in-memory header equals the first n entries of the header on disk. |
| `RedoLog.Log.WriteHead` | log.c:101-112 | Count and pending sectors go to the header in one disk step; entries behind the count keep their old values. |
| `RedoLog.Log.InstallTrans` | log.c:69-81 | The disk passes through exactly the prefixes of the installation, one step per slot, and the cache agrees with it at the end. |
| `RedoLog.Log.InstallAndClear` | log.c:115-121 | Installing and clearing the header leaves exactly the recovered disk, with nothing pending. |
| `RedoLog.Log.RecoverFromLog` | log.c:115-121 | Boot-time recovery reaches the recovered disk, and every disk state on the way is one that recovers alike. |
| `RedoLog.Log.WriteLog` | log.c:175-187 | Every slot receives its sector from the cache, and no disk state on the way would change what recovery yields. |
| `RedoLog.Log.Commit` | log.c:190-199 | After commit the home sectors equal the cache; a crash at any sector write recovers all of the transaction or none of it, the change of side being the header write. |
| `RedoLog.Log.LogWrite` | log.c:211-228 | A sector is recorded once whatever the number of writes to it; the two panics occur exactly when the log is full or no operation is open. |
| `RedoLog.Log.BeginOp` | log.c:125-140 | An operation is admitted exactly when no commit runs and the log has room for every open operation and this one at MAXOPBLOCKS each. |
| `RedoLog.Log.EndOp` | log.c:145-171 | Only the last operation out commits, for the whole group and atomically for every crash point; the others change nothing on disk; the panic "log.committing" occurs exactly during a commit. |
| `LogProtocol.BeginOpKeeps` | log.c:125-140 | begin_op keeps the protocol invariant. |
| `LogProtocol.EndOpKeeps` | log.c:145-171 | end_op keeps the protocol invariant, whether or not it starts the commit. |
| `LogProtocol.LogWriteKeeps` | log.c:211-228 | log_write keeps the invariant for new and for already logged sectors, and in its panics. |
| `LogProtocol.CrashKeeps` | log.c:53-65 | A crash in any phase, including during recovery, leads to a state that satisfies the invariant. |
| `LogProtocol.WriteLogKeeps` | log.c:175-187 | Copying one more block to the log keeps the invariant. |
| `LogProtocol.WriteHeadKeeps` | log.c:101-112 | The header write makes the open group durable and keeps the invariant. |
| `LogProtocol.InstallKeeps` | log.c:69-81 | Installing one more sector, in a commit or in recovery, keeps the invariant. |
| `LogProtocol.ClearKeeps` | log.c:190-199 | Clearing the header after installation keeps the invariant. |
| `LogProtocol.CommitWhole` | log.c:145-171 | A group that commits holds whole system calls only. |
| `LogProtocol.StepKeeps` | log.c:123-228 | Every enabled step of every process, and a crash, keeps the invariant, and durable groups stay durable. |
| `LogProtocol.RunKeepsInv` | log.c:123-228 | The invariant holds in every state of every run from an initial state. |
| `LogProtocol.CrashAtomicity` | log.c:123-228 | In every interleaving: recovery at any moment yields exactly the groups whose header write completed, in order; each group holds whole calls; commits run with no call open; the panics "log.committing" and "log_write outside of trans" never occur. |
| `LogProtocol.LogIsOpenGroup` | log.c:123-228 | In every state of every run the log lists exactly the sectors written since the last commit, and it is empty when no call is open. |
| `LogProtocol.Completes` | log.c:53-206 | From every reachable state a commit or recovery in progress ends after exactly the steps left: the log is empty, the open group is durable as a whole, and the disk holds what calls read. |
| `LogProtocol.UnspentBounds` | log.c:123-140 | The unspent part of the open reservations lies between 0 and MAXOPBLOCKS for each open call. |
| `LogProtocol.BeginOpReserved` | log.c:125-140 | A newly admitted call keeps logged sectors plus unspent reservations within LOGSIZE. |
| `LogProtocol.LogWriteReserved` | log.c:211-228 | Logging a new sector spends one unit of the own reservation, so the sum does not grow. |
| `LogProtocol.StepReserved` | log.c:123-228 | Every budgeted step keeps logged sectors plus unspent reservations within LOGSIZE. |
| `LogProtocol.NewSectorFits` | log.c:211-228 | Under the budget a new sector always finds fewer than LOGSIZE sectors logged. |
| `LogProtocol.ReservationHolds` | log.c:123-228 | In every run whose calls each add at most MAXOPBLOCKS sectors, the sum of logged sectors and unspent reservations stays within LOGSIZE; with enough slots only a rewrite of a logged sector on an exactly full log can meet "too big a transaction". |
| `LogProtocol.FillLog` | log.c:211-228 | Three calls within their budgets can fill the log with any number of different sectors up to LOGSIZE. |
| `LogProtocol.SmallLogPanics` | mkfs.c:17 | With fewer than LOGSIZE slots, as mkfs lays the log out, some budgeted run panics on a new sector. |
| `LogProtocol.FullLogPanics` | log.c:211-228 | With a log of the intended size, some budgeted run panics on rewriting a sector that is already logged. |
| `LogProtocol.OverBudgetPanics` | log.c:123-228 | With any larger budget than MAXOPBLOCKS per call, a log of the intended size overflows on some run. |
| `LogProtocol.ReservationSufficientIff` | log.c:123-228 | For every per-call budget of at least MAXOPBLOCKS sectors: some run within the budget panics on a new sector if and only if the budget exceeds MAXOPBLOCKS or the log has fewer than LOGSIZE slots besides its header. |
| `BufferCache.ViewThrough` | bio.c:62-95 | With at most one buffer per sector, the contents of a cached sector are those of its one buffer if valid, else the disk's. |
| `BufferCache.ViewElsewhere` | bio.c:62-95 | Changing one buffer does not change the contents of a sector that it caches neither before nor after. |
| `BufferCache.InsertLinks` | bio.c:122-140 | The four assignments that put a node behind the head leave exactly the ring with that node at its front, in both directions. |
| `BufferCache.RemoveLinks` | bio.c:122-140 | The two assignments that unlink a node leave exactly the ring without it. |
| `BufferCache.MovedPath` | bio.c:122-140 | Moving one node to the front keeps the ring a permutation of all buffers, ordered by last release. |
| `BufferCache.Bcache.constructor` | bio.c:39-56 | After binit the ring is complete, nothing is cached, and the contents of every sector are the disk's. |
| `BufferCache.Bcache.LinkFront` | bio.c:39-56 | The node becomes the first of the ring, links in both directions intact. |
| `BufferCache.Bcache.Lookup` | bio.c:62-95 | Finds the buffer of the sector, or reports that no buffer caches it. |
| `BufferCache.Bcache.Victim` | bio.c:62-95 | Returns the least recently released buffer among those neither busy nor dirty, or reports that there is none. |
| `BufferCache.Bcache.Bget` | bio.c:62-95 | It sleeps exactly if a busy buffer caches the sector and panics exactly if none caches it and none can be recycled; otherwise a cached idle sector is taken, or the least recently released clean idle buffer recycled, a dirty one never; no sector's contents change and no buffer gets two holders. |
| `BufferCache.OneCopy` | bio.c:62-95 | A sector has one buffer at most, so an idle copy means that no busy one exists. |
| `BufferCache.Bcache.TakeCached` | bio.c:62-95 | The hit case marks the buffer busy and changes nothing else. |
| `BufferCache.Bcache.Recycle` | bio.c:62-95 | The miss case reassigns a clean buffer without changing any sector's contents. |
| `BufferCache.Bcache.Iderw` | memide.c:37-58 | A dirty buffer overwrites exactly its sector and becomes clean; an invalid clean one receives its sector; either way it ends valid and equal to the disk; "nothing to do" exactly for a valid clean buffer, and then nothing changes. |
| `BufferCache.Bcache.Bread` | bio.c:99-107 | Sleeps or panics exactly as bget does; otherwise the caller gets the one buffer of the sector, held, valid and with the sector's current contents. |
| `BufferCache.Bcache.Store` | bio.c:99-107 | Writing through a held buffer changes the contents of that sector only. |
| `BufferCache.Bcache.Pin` | log.c:211-228 | Marking a buffer dirty keeps every sector's contents and keeps the buffer from being recycled. |
| `BufferCache.Bcache.Bwrite` | bio.c:111-117 | The disk catches up with one sector; no sector's contents, as seen through the cache, change. |
| `BufferCache.Bcache.Brelse` | bio.c:122-140 | The buffer is idle and at the front of the ring, the others keep their order, contents stay. |
| `BufferCache.Bcache.Detach` | bio.c:122-140 | The node is out of the ring and the rest of it is linked in both directions. |
| `BufferCache.Bcache.MoveToFront` | bio.c:122-140 | The six pointer assignments keep the ring complete and ordered by release time. |
| `Bitmap.MarkedBits` | fs.c:53-95 | Setting or clearing a sector's bit changes that bit and no other of the whole bitmap. |
| `Bitmap.SetWordAt` | fs.c:359-386 | Storing a block address in an indirect block reads back as that address and leaves the other 127 alone. |
| `Bitmap.TookFirst` | fs.c:53-76 | Marking the first free sector is one lowest-first allocation: below any limit the free sectors go first. |
| `Bitmap.TookTrans` | fs.c:53-76 | Lowest-first allocations add up: k and then j of them are j plus k. |
| `BlockMap.FreeIsUnowned` | fs.c:53-76 | A sector whose bit is clear is referred to by no file. |
| `BlockMap.Distinct` | fs.c:359-386 | Two different slots (direct, indirect, indirect entry) of any files never refer to the same sector. |
| `BlockMap.AttachedInv` | fs.c:359-386 | Giving a free sector to an empty slot keeps the invariant: a bit is set exactly for metadata and for sectors with exactly one owner; no file's bytes change. |
| `BlockMap.AttachedExtends` | fs.c:359-386 | An allocation keeps every existing block of every file where it is. |
| `BlockMap.StoredInv` | fs.c:465-494 | Overwriting a block of a file keeps the ownership invariant. |
| `BlockMap.WithSizeInv` | fs.c:465-494 | Changing a size keeps the invariant when no block below the new size is missing. |
| `BlockMap.PatchedBlock` | fs.c:465-494 | Copying bytes into one block changes exactly those bytes of that file. |
| `BlockMap.WroteMore` | fs.c:465-494 | Two adjoining writes amount to one longer write. |
| `BlockMap.FreeNext` | fs.c:394-421 | Each sector itrunc reaches is still marked in use, so "freeing free block" cannot occur. |
| `BlockMap.AllFreed` | fs.c:394-421 | After all slots the bits cleared are exactly those of the file's sectors. |
| `BlockMap.TruncatedInv` | fs.c:394-421 | With exactly the file's sectors freed, the invariant holds and every other file keeps its bytes. |
| `FileSystem.FileSystem.Balloc` | fs.c:53-76 | Returns the first free sector, zeroed and marked; it fails only when every sector is in use, and then changes nothing; the sector belongs to the log if and only if all sectors before the log are in use. |
| `FileSystem.FileSystem.FirstFree` | fs.c:53-76 | The inner loop finds the first clear bit of a bitmap sector. |
| `FileSystem.FileSystem.Bfree` | fs.c:80-95 | Afterwards bit b is clear and every other bit of the whole bitmap as before, and every changed sector is logged. |
| `FileSystem.FileSystem.AllocAddr` | fs.c:359-386 | A new sector for an empty address slot keeps the invariant and everything existing. |
| `FileSystem.FileSystem.AllocEntry` | fs.c:359-386 | A new sector for an empty entry of the indirect block keeps the invariant and everything existing. |
| `FileSystem.FileSystem.Bmap` | fs.c:359-386 | An existing block is returned without any change; a missing one is allocated with all files keeping their bytes and blocks; failure means that the disk is full. |
| `FileSystem.FileSystem.EnsureIndirect` | fs.c:359-386 | The indirect block exists afterwards and its appearance adds no entry. |
| `FileSystem.FileSystem.BmapIndirect` | fs.c:359-386 | The indirect entry is found or allocated, everything else unchanged. |
| `FileSystem.FileSystem.Readi` | fs.c:437-460 | Returns exactly the requested slice cut at the end of the file; errors and device case as in the source; reading never allocates or changes anything. |
| `FileSystem.FileSystem.WriteBlock` | fs.c:465-494 | One turn of the loop writes its bytes into the file and logs the block, its bitmap sector if new, and those of the indirect block. |
| `FileSystem.FileSystem.WriteLoop` | fs.c:465-494 | The whole loop writes all bytes or ends on a full disk, logging every sector it changes and allocating lowest first no more than the new blocks and one indirect block. |
| `FileSystem.FileSystem.Writei` | fs.c:465-494 | On success exactly the bytes at off are spliced in and the size grows if needed, no other file changes, the inode on disk agrees with memory, every changed sector is logged and the number logged is bounded; no sector of the log is allocated if more sectors before the log are free than new blocks are needed; -1 exactly for a bad offset, overflow or excessive size, and then nothing changes; out of blocks only if fewer were free than needed. |
| `FileSystem.SplicedFile` | fs.c:465-494 | After the loop, setting the size makes the file the byte sequence with the splice in it, other files unchanged. |
| `FileSystem.RangeDone` | fs.c:465-494 | The loop and the size together: contents, other files, inode on disk, sectors logged and sectors allocated. |
| `FileSystem.MissingBlock` | fs.c:359-386 | A block can only be missing at or behind the end of the file, on a block boundary. |
| `FileSystem.LoggedBound` | file.c:117-155 | Data blocks, bitmap sectors of new blocks, the indirect pair and the inode bound what one writei logs. |
| `FileSystem.ChunkFits` | file.c:117-155 | A chunk of filewrite logs at most LOGSIZE sectors at every offset. |
| `FileSystem.LargestChunk` | file.c:117-155 | The bound fits the log at every offset if and only if the chunk is at most the one filewrite uses. |
| `FileSystem.LogsAtLeast` | file.c:117-155 | The blocks of a file are different sectors, so a write logs at least as many sectors as it touches blocks. |
| `FileSystem.NoLogSector` | fs.c:53-76 | What lowest-first allocation of k sectors means: with k free before the log none of the log is taken, and a full disk means that at most k were free. |
| `FileSystem.LogSectorOwned` | fs.c:53-76 | A concrete run of two writes after which a file owns a sector of the log. |
| `FileSystem.LogsTrans` | log.c:211-228 | If each of two steps logs every data, bitmap and inode sector that it changes, so do both together. |
| `FileSystem.FileSystem.WriteChunk` | file.c:117-155 | One operation of filewrite writes its chunk completely or not at all, logs every sector it changes, at least one per block touched and at most LOGSIZE. |
| `FileSystem.FileSystem.Filewrite` | file.c:117-155 | All n bytes are spliced in, or -1 with exactly the whole chunks that fit; "short filewrite" is unreachable; no operation logs more than LOGSIZE sectors, but the first operation of a write of more than MAXOPBLOCKS blocks logs more than begin_op reserved; odd arguments (n of 0 or less, bad offset) as in the source. |
| `FileSystem.SplicedTwice` | file.c:117-155 | Writing on where a write ended is one longer write. |
| `FileSystem.FileSystem.TruncDirect` | fs.c:394-421 | The first loop frees exactly the direct blocks. |
| `FileSystem.FileSystem.TruncIndirect` | fs.c:394-421 | The second loop frees exactly the entries of the indirect block and the block itself. |
| `FileSystem.FileSystem.Itrunc` | fs.c:394-421 | Frees exactly the file's sectors, none twice, leaves the file empty on disk and in memory, and no other file changes. |
| `DurableFiles.OnlyLogged` | log.c:211-228 | A sector of the disk, be it inodes, bitmap or data, that an operation did not log has the same contents before and after it. |
| `DurableFiles.FinishedImage` | log.c:190-228 | Applied to the sectors before an operation, its logged writes give exactly the sectors after it. |
| `DurableFiles.DecodedFields` | fs.h:27-34 | An inode read from its fields on disk is the inode that was written. |
| `DurableFiles.InodeBack` | fs.c:202-217 | Every inode read from the sectors of the disk is the one last written there. |
| `DurableFiles.ReadsBack` | fs.c:437-460 | Every file read from the sectors of the disk, through its inode and its indirect block, has the bytes that were stored. |
| `DurableFiles.EndKeeps` | log.c:145-171 | Ending an operation hands its writes to the commit as one group. |
| `DurableFiles.CommitKeeps` | log.c:190-199 | At the header write the durable groups become exactly the sectors after the operation. |
| `DurableFiles.AdvanceKeeps` | log.c:190-199 | The header write turns the files on disk from those before the operation into those after it; no other step of commit or recovery changes them. |
| `DurableFiles.StepKeeps` | log.c:123-228 | Every step of operations, commits, crashes and recoveries keeps the tie between the log and the files. |
| `DurableFiles.CrashKeepsWholeOperations` | log.c:123-228 | Over every run of file operations, commits, crashes and repeated recoveries: recovering the disk at any moment gives exactly the sectors as the last committed operation left them, and they change only at a commit, from before a whole operation to after it. |
| `DurableFiles.CrashKeepsFiles` | log.c:115-228 | The same for files: after a crash at any moment every inode and the contents of every file, read from the recovered disk, are those of the last committed operation. |
| `DurableFiles.SoundOnDisk` | fs.c:49-103 | The bitmap on the disk marks exactly the metadata and the sectors that files on the disk have, and no sector has two files. |
| `DurableFiles.CrashKeepsFreeMap` | log.c:53-118 | After a crash at any point of any run, recovery finds the bitmap in step with the files: no sector is lost and none is both free and in use. |
| `DurableFiles.CrashDuring` | log.c:115-228 | In every run that starts with the files of a and whose operations lead to b, with crashes and interrupted recoveries anywhere, the disk recovers at each moment to the sectors of a or to those of b. |
| `DurableFiles.OldOrNewFiles` | log.c:115-228 | So all files read from it are those of a, or all are those of b. |
| `DurableFiles.ListedFinish` | log.c:211-228 | One write for each sector that an operation has logged is a complete group for it. |
| `DurableFiles.OperationRuns` | log.c:123-228 | From every idle state, every operation that logs no more sectors than the log holds runs through begin_op, its writes, end_op and the whole commit without a panic, and is durable at the end. |
| `DurableFiles.StoredBelow` | fs.c:53-76 | If no sector of the log is marked in use, every block of every file lies before the log. |
| `DurableFiles.WriteOnDisk` | fs.c:465-494 | writei as one operation: all changed sectors are logged; on the disk file i then reads as the old bytes with src spliced in, every other file as before; in every run of it, crashes included, the disk recovers to the old sectors or the new ones; and if what it logs fits, it runs and commits. |
| `DurableFiles.TruncateOnDisk` | fs.c:394-421 | itrunc as one operation, likewise: on the disk file i is empty and every other file as before, a crash leaves the old files or the new ones, and if what it logs fits, it runs and commits. |
| `Links.EntryNames` | fs.c:535-561 | Writing one directory entry adds or removes exactly one name in the whole file system. |
| `Links.NamedIsLinked` | sysfile.c:182-236 | Whatever a live entry names is allocated and has a link count of at least 1, so "unlink: nlink < 1" is unreachable. |
| `Links.EmptyDirOnce` | sysfile.c:166-236 | An empty linked directory has exactly one name and its parent at least two links. |
| `Links.FreedInv` | fs.c:320-338 | An inode that iput frees has no name left, and freeing it keeps all counts exact. |
| `Links.UnlinkedCount` | sysfile.c:182-236 | After unlink every link count still equals the number of names. |
| `Links.UnlinkedInv` | sysfile.c:182-236 | unlink of a file or an empty directory keeps the whole invariant: counts, directory shape, parents. |
| `Links.LinkedInvIff` | sysfile.c:116-162 | link keeps the counts exact if and only if the file has fewer than 32767 names. |
| `Links.DirCountBound` | sysfile.c:239-281 | A directory's count cannot overflow, since it is bounded by its entries. |
| `Links.CreatedNames` | sysfile.c:239-281 | create gives the new inode one name and, for a directory, its parent one more. |
| `Links.CreatedInv` | sysfile.c:239-281 | create keeps the whole invariant for files, devices and directories, with inode numbers that fit the 16 bits of a directory entry. |
| `LinkLimit.CountExhausted` | sysfile.c:116-162 | From a fresh file system of 12 inodes, a run of create and link steps reaches a state in which one file has 32767 names, and the next link breaks its count. |
| `LinkLimit.StepInvIff` | sysfile.c:116-281 | Of create, link, unlink and freeing, each keeps the counts exact, link if and only if the file has fewer than 32767 names. |
| `LinkLimit.RunExactIff` | sysfile.c:116-281 | Over every run of create, link, unlink and freeing: link counts are exact in all its states if and only if no link is made to a file with 32767 names. |
| `Namespace.Namespace.constructor` | mkfs.c:107-118 | A root directory alone, both dots naming itself, satisfies the invariant, for every number of inodes that a directory entry can name. |
| `Namespace.Namespace.Close` | fs.c:320-338 | Dropping a reference between system calls frees the inode exactly if it was the last one and no directory names the inode: then the inode is free for ialloc and the number of free inodes rises by one, otherwise no inode changes. The invariant is kept: no allocated inode is without both a name and a holder. |
| `Namespace.PutRebinds` | fs.c:534-562 | Writing a directory entry whose name no other entry has changes what that name stands for, and nothing else. |
| `Namespace.PathJoin` | fs.c:608-640 | a/b leads where b leads from what a leads to, /b where b leads from the root, and a path without a slash where it leads from the current directory. |
| `Namespace.CreatedIsNew` | sysfile.c:239-281 | After create the name stands for an inode that was free and has the type asked for, and the free inodes are exactly one less. |
| `Namespace.LinkedRebinds` | sysfile.c:116-162 | After link the new name stands for the file and no inode has been taken or freed. |
| `Namespace.NameIsGone` | sysfile.c:182-236 | After unlink the name stands for nothing, other names are kept, and the inode is free exactly with its last name and last holder. |
| `Namespace.Namespace.Iput` | fs.c:320-338 | If every inode without a name has a holder that has read it in, that is still so after any iput: the last one frees the inode. |
| `Namespace.Namespace.Dirlookup` | fs.c:508-531 | Finds the first used entry of that name and takes a reference to its inode, or reports none. |
| `Namespace.Namespace.Dirlink` | fs.c:535-561 | An existing name is refused without change; otherwise the first unused slot gets the entry; a directory of maximal size is the panic. |
| `Namespace.Namespace.IsDirEmpty` | sysfile.c:166-178 | True exactly if no entry behind the two dots is used. |
| `Namespace.Namespace.Enter` | fs.c:608-640 | One step of the walk moves the reference from a directory to what the name stands for and changes no inode. |
| `Namespace.Namespace.Namex` | fs.c:608-640 | From a linked directory the walk ends where the elements of the path lead (or at the parent and last element), frees and changes nothing, and holds exactly one more reference. |
| `Namespace.Namespace.Ialloc` | fs.c:176-198 | The first free inode is typed, emptied and referenced; failure means that none is free. |
| `Namespace.Namespace.FillNew` | sysfile.c:239-281 | Link count and dots of a new directory; "create dots" is unreachable. |
| `Namespace.Namespace.MakeNew` | sysfile.c:239-281 | A new inode under a new name keeps the invariant: it has the type asked for, the name leads to it, other names are kept, and exactly one free inode less is left; it fails only for want of inodes or directory space. |
| `Namespace.Namespace.CreateIn` | sysfile.c:239-281 | Opens an existing file, refuses other existing names without change, else creates; references balance. |
| `Namespace.Namespace.Create` | sysfile.c:239-281 | create from a path: result and new state in terms of where the path leads; the invariant is kept. |
| `Namespace.Namespace.Remove` | sysfile.c:182-236 | The stores of unlink in their order, with the parent put between them, end in the unlinked state and keep the invariant, no inode being left without both a name and a holder. |
| `Namespace.Namespace.UnlinkIn` | sysfile.c:182-236 | Succeeds exactly for a file or an empty directory under a name other than the dots and never panics. Then the name is gone, every other name of the directory stands for what it did, and the inode becomes free exactly if that was its only name and nobody holds it; the number of free inodes rises by one then and is the same otherwise. |
| `Namespace.Namespace.Unlink` | sysfile.c:182-236 | The same from a path: success condition, name gone, free inodes exactly one more or the same, all references given back. |
| `Namespace.Namespace.AddName` | sysfile.c:116-162 | The count goes up before the name is written and down again on failure, restoring the state exactly. |
| `Namespace.Namespace.Link` | sysfile.c:116-162 | Fails exactly for a missing or directory source, a missing parent or a taken name, and then changes nothing; on success the new name leads to the file, other names are kept and no inode is taken, with exact counts if and only if the file had fewer than 32767 names. |
| `Paths.ElemsSplit` | fs.c:579-601 | The elements of a path are its first element, cut to 14 bytes, and the elements of the rest. |
| `Paths.ElemsJoin` | fs.c:579-601 | The elements of a path joined from two with a slash are those of the first and then those of the second. |
| `Paths.SkipElem` | fs.c:579-601 | Takes exactly the first element off the path, or reports exactly when there is none; the rest is empty exactly if no element is left. |
| `Paths.SkipSlashes` | fs.c:579-601 | Skipping slashes changes no element of the path. |
| `Umalloc.FreedSorted` | umalloc.c:25-44 | The list with the freed block in it is address-ordered and no two blocks of it touch. |
| `Umalloc.FreedUnits` | umalloc.c:25-44 | Coalescing conserves units. |
| `Umalloc.FreedLinked` | umalloc.c:25-44 | The pointer assignments leave exactly the coalesced ring in memory. |
| `Umalloc.FreedHeap` | umalloc.c:25-44 | After free the live blocks are pairwise disjoint and disjoint from the free ones. |
| `Umalloc.FreeAll` | umalloc.c:25-44 | free keeps the whole heap invariant and the sum of free and live units. |
| `Umalloc.SearchEnds` | umalloc.c:25-44 | The loop's exit test holds at the node before the gap and at no other node. |
| `Umalloc.GapBelow` | umalloc.c:25-44 | Every block that is apart from the list has a gap of the list to go to. |
| `Umalloc.TakenSorted` | umalloc.c:64-90 | Unlinking a node or cutting off its tail keeps the list ordered with no touching blocks. |
| `Umalloc.TakenUnits` | umalloc.c:64-90 | The list loses exactly the units handed out. |
| `Umalloc.TakenLinked` | umalloc.c:64-90 | The assignments leave exactly the shortened ring in memory, and the block handed out has its size in its header. |
| `Umalloc.TakenHeap` | umalloc.c:64-90 | The block handed out is disjoint from every free and live block. |
| `Umalloc.TakeAll` | umalloc.c:64-90 | The fitting branch of malloc keeps the heap invariant and the sum of units. |
| `Umalloc.RoundOnce` | umalloc.c:64-90 | Coming back to freep means that every free block was looked at and is too small. |
| `Umalloc.FoundAt` | umalloc.c:64-90 | A fitting node is never the base, and prevp is its predecessor in the list. |
| `Umalloc.CoreAdded` | umalloc.c:47-61 | New memory from sbrk becomes a live block disjoint from everything, ready to be freed. |
| `Umalloc.TakenOnTop` | umalloc.c:64-90 | A block cut from memory that sbrk did not add starts where memory ended. |
| `Umalloc.Heap.constructor` | umalloc.c:20-22 | An empty heap satisfies the invariant. |
| `Umalloc.Heap.Locate` | umalloc.c:25-44 | The search from freep round the ring terminates at the node after which the block belongs. |
| `Umalloc.Heap.LinkIn` | umalloc.c:25-44 | The assignments of free perform the specified change of memory. |
| `Umalloc.Heap.PutBack` | umalloc.c:25-44 | The freed block is in the list, coalesced with the neighbours it touches, and freep is its predecessor. |
| `Umalloc.Heap.Free` | umalloc.c:25-44 | Exactly that block leaves the live ones and enters the ring at its place by address; the invariant and the sum of units are kept. |
| `Umalloc.Heap.AddCore` | umalloc.c:47-61 | The new memory counts as obtained and as a live block. |
| `Umalloc.Heap.Morecore` | umalloc.c:47-61 | sbrk is asked exactly once, for at least 4096 units, the product in 32 bits and signed; on success the ring holds a block of the wanted size right behind freep, which is memory of the process if and only if the product did not wrap. |
| `Umalloc.Heap.Sbrk` | proc.c:116-132 | The end of memory moves by n, or stays if the growth is refused or reaches the kernel; a shrink beyond all memory changes nothing; a shrink to nothing reports failure. |
| `Umalloc.Heap.Obtain` | umalloc.c:64-90 | A fitting free block is found, after asking sbrk at most once and exactly if none fitted. |
| `Umalloc.Heap.CutOut` | umalloc.c:64-90 | The assignments of the fitting branch perform the specified change of memory. |
| `Umalloc.Heap.TakeFrom` | umalloc.c:64-90 | The block becomes live with the wanted size, the rest stays free, freep is the predecessor. |
| `Umalloc.Heap.Scan` | umalloc.c:64-90 | The loop terminates with a fitting node and its predecessor, or with the fact that none fits. |
| `Umalloc.Heap.StartList` | umalloc.c:64-90 | The first call makes the base a ring by itself. |
| `Umalloc.Heap.Malloc` | umalloc.c:64-90 | For every 32-bit request: returns a block disjoint from all others and of the right size, or 0 only if sbrk failed; sbrk is called at most once and exactly when no free block fits; the nbytes handed out are memory of the process if and only if nbytes is at most 0x7FFFFFF0; from 0x7FFFFFF1 to 0xFFFFFFF8 memory shrinks instead and the block starts where it ended. |
| `Umalloc.JustTooMuch` | umalloc.c:64-90 | A concrete heap on which a request of 0x7FFFFFF1 bytes is answered with a block that starts behind the end of memory, its header still in the last mapped page, so that the call does return. |
| `Grep.AcceptsPrepend` | grep.c:84-105 | A pattern with one more item in front accepts a text exactly if some split of the text gives the item its part and the rest the remainder. |
| `Grep.AcceptsSingle` | grep.c:84-95 | A single-character item takes exactly the first character. |
| `Grep.AcceptsEmpty` | grep.c:84-95 | The empty pattern accepts every text, with a trailing end marker only the empty one. |
| `Grep.WriteRead` | grep.c:84-105 | Reading a pattern loses nothing: written down again it is the same string, for every string. |
| `Grep.ReadWrite` | grep.c:84-105 | Every pattern whose text is not ambiguous is read back as it was written. |
| `Grep.MatchHere` | grep.c:84-95 | True if and only if the items of the pattern accept a prefix of the text in the declarative sense. |
| `Grep.MatchStar` | grep.c:98-105 | True if and only if some number of repetitions lets the rest of the pattern match: searching the shortest first loses none. |
| `Grep.Match` | grep.c:72-81 | Sound and complete: true if and only if the pattern matches at the start (with a caret) or at some position of the text. |
| `Pipe.FullTest` | pipe.c:78-97 | The 32-bit tests for full and empty are right across wraparound of both counters. |
| `Pipe.NextCount` | pipe.c:78-120 | Incrementing and indexing with wrapped counters agree with the true counts. |
| `Pipe.RingIndex` | pipe.c:78-97 | Distinct bytes in flight lie in distinct ring positions. |
| `Pipe.RingPut` | pipe.c:78-97 | Storing one byte appends it to the bytes in flight and disturbs none of them. |
| `Pipe.RingGet` | pipe.c:100-120 | Reading one byte takes the oldest in flight. |
| `Pipe.Pipe.constructor` | pipe.c:22-56 | A new pipe is empty, open at both ends, nobody asleep. |
| `Pipe.Pipe.Put` | pipe.c:78-97 | One more byte is accepted, the order kept. |
| `Pipe.Pipe.Get` | pipe.c:100-120 | The oldest byte in flight is delivered. |
| `Pipe.Pipe.WriteSection` | pipe.c:78-97 | Accepts as many bytes as fit, in order; done, failed or asleep as in the source; leaves a reader asleep beside data if and only if a killed writer with more than PIPESIZE bytes to go met a sleeping reader. |
| `Pipe.Pipe.Copy` | pipe.c:100-120 | Delivers the oldest bytes, as many as asked for or there are. |
| `Pipe.Pipe.ReadSection` | pipe.c:100-120 | Returns the oldest bytes in order, sleeps exactly on an empty pipe that can still be written, and wakes the writers. |
| `Pipe.Pipe.Close` | pipe.c:59-74 | Closing an end wakes everyone at the other end and keeps the invariant. |
| `Pipe.Pipe.Kill` | proc.c:468-485 | A killed process no longer sleeps in the pipe; the invariant is kept. |
| `Pipe.NobodySleepsInVain` | pipe.c:78-120 | Unless a writer took the silent way out, sleeping readers face an empty open pipe and sleeping writers a full one. |
| `Pipe.KilledWriterStrandsReader` | pipe.c:78-97 | A concrete run in which a killed writer leaves a reader asleep on a full pipe. |
| `Lifecycle.WokenOk` | proc.c:446-453 | Waking a channel keeps the parent and wait invariants of the whole table. |
| `Lifecycle.AdoptedAt` | proc.c:226-265 | The loop over the table hands every child of the exiting process to init and leaves the other slots as they were, but for waking init. |
| `Lifecycle.AdoptionWakes` | proc.c:226-265 | If a child handed over has already exited, init is not left asleep in wait. |
| `Lifecycle.ExitedWakes` | proc.c:226-265 | After exit no process asleep in wait has an exited child. |
| `Lifecycle.ExitOk` | proc.c:226-265 | exit keeps the invariant: live parents, and nobody asleep in wait beside an exited child. |
| `Lifecycle.ExitedIsGone` | proc.c:226-265 | What exit makes of every slot: its own a zombie, its children init's, who waits for it and, if it leaves an exited child, init runnable, and nothing else changed. |
| `Lifecycle.ExitAccounted` | proc.c:226-265 | Exit adds its pid, and no other, to the exited processes that are zombies or have been reported. |
| `Lifecycle.ReapAccounted` | proc.c:270-312 | Reporting a zombie loses no exited process. |
| `Lifecycle.ExitThenWait` | proc.c:226-312 | After an exit the parent does not sleep in wait, and its next wait reports an exit: that of the process if the parent has no other exited child. |
| `Lifecycle.ReapOk` | proc.c:270-312 | Clearing an exited slot keeps the invariant. |
| `Lifecycle.KillOk` | proc.c:468-485 | kill keeps the invariant whatever slot it hits. |
| `Lifecycle.ExitPids` | proc.c:226-265 | exit changes no pid and frees no slot. |
| `Lifecycle.ProcTable.constructor` | proc.c:88-112 | The table after userinit: init runnable, all other slots free. |
| `Lifecycle.ProcTable.SetState` | proc.c:323-440 | Scheduling, yielding and sleeping elsewhere keep the invariant. |
| `Lifecycle.ProcTable.AllocProc` | proc.c:38-82 | The first free slot becomes an embryo with a pid never used before, killed if and only if the slot was marked while free; failure means that no slot is free. |
| `Lifecycle.ProcTable.AllocFail` | proc.c:138-177 | A failed fork gives the slot back and keeps the invariant; free slots stay unmarked if and only if the embryo was not killed. |
| `Lifecycle.ProcTable.ForkLink` | proc.c:138-177 | The embryo gets the forking process as parent. |
| `Lifecycle.ProcTable.ForkPublish` | proc.c:138-177 | The child becomes runnable with a parent that is neither exited nor free. |
| `Lifecycle.ProcTable.Wakeup1` | proc.c:446-453 | Exactly the processes asleep on the channel become runnable. |
| `Lifecycle.ProcTable.Wakeup` | proc.c:457-462 | The same, keeping the invariant. |
| `Lifecycle.ProcTable.Adopt` | proc.c:226-265 | The loop of exit performs the adoption. |
| `Lifecycle.ProcTable.Exit` | proc.c:226-265 | The exiting process is a zombie that keeps its pid and parent, its children have init as parent, its parent is runnable if it slept in wait, and so is init if it is handed an exited child; every other slot is as before. The invariant is kept, among it that the exited processes are exactly the zombies and those wait has reported. "init exiting" exactly for init; no free slot gets a kill mark. |
| `Lifecycle.ProcTable.Wait` | proc.c:270-312 | Reports the first exited child, whose pid has exited and was never reported before, and frees its slot; -1 exactly without children or when killed, else asleep; the invariant is kept. |
| `Lifecycle.ProcTable.Reap` | proc.c:270-312 | A pid is reported at most once, and is in no slot afterwards. |
| `Lifecycle.ProcTable.Kill` | proc.c:468-485 | Marks exactly the first slot with the pid, whatever its state, and a process asleep there is runnable afterwards; no pid that wait has reported can be killed; free slots stay unmarked if and only if that slot is not free. |
| `Lifecycle.BornKilled` | proc.c:468-485 | A concrete run: kill(0) marks a free slot and the next process starts out killed. |
| `Lifecycle.BornKilledStale` | proc.c:138-177 | A concrete run: killing the pid a failed fork left in its slot marks the next process. |
| `Lifecycle.BornKilledEmbryo` | proc.c:138-177 | A concrete run: an embryo is killed, its fork fails, and the next process starts out killed. |
| `SleepWakeup.QuietGo` | proc.c:408-440 | Steps within sleep, wakeup and yield that touch no other process keep the invariant, a process outside its switch being on no channel. |
| `SleepWakeup.KernelStep` | spinlock.c:25-64 | Taking and giving up spinlocks and entering sleep, wakeup, wakeup1 or yield keep the invariant. |
| `SleepWakeup.SwitchStep` | proc.c:358-373 | A context switch to the scheduler keeps the invariant, the lock changing hands with it. |
| `SleepWakeup.WakeOne` | proc.c:446-453 | Making one sleeper runnable under ptable.lock keeps the invariant. |
| `SleepWakeup.ScanStep` | proc.c:446-453 | One slot of the scan of wakeup1 keeps the invariant. |
| `SleepWakeup.DueScanned` | proc.c:446-453 | Behind the scan every sleep that was due on the channel has been ended. |
| `SleepWakeup.RunStep` | proc.c:323-353 | The scheduler hands ptable.lock to the process it picks and the invariant is kept. |
| `SleepWakeup.SchedulerStep` | proc.c:323-353 | The scheduler's own locking keeps the invariant. |
| `SleepWakeup.StepKeeps` | proc.c:323-462 | Every step of any number of processes and processors keeps the invariant. |
| `SleepWakeup.RunKeepsInv` | proc.c:323-462 | The invariant holds in every state of every run. |
| `SleepWakeup.SchedNeverPanics` | proc.c:358-373 | sched is always entered with ptable.lock held, no other lock held and the state changed: three of its four tests. |
| `SleepWakeup.ReturnsAsCalled` | proc.c:376-462 | In every run, sleep, wakeup, wakeup1 and yield return with exactly the locks held at the call, sleep with its lock alone; the process is running and on no channel; sleep returns after its sleep has been ended, once for each ending. |
| `SleepWakeup.CallEnds` | proc.c:376-462 | In every run a call of sleep takes at most 7 steps of its own until it is back in kernel code, yield 4, wakeup one for each slot and 3 more. |
| `SleepWakeup.InsideOwn` | proc.c:408-440 | Each step inside such a call leaves the process inside it or back in kernel code with the locks it had at the call. |
| `SleepWakeup.InsideOthers` | proc.c:323-462 | No step of another process or a scheduler changes the call a process is in or the locks it holds in it. |
| `SleepWakeup.EndsOnlyItsChannel` | proc.c:446-485 | In every run a sleeping process becomes runnable exactly by the scan of a wakeup on its own channel or by kill. |
| `SleepWakeup.ScanFindsSleepers` | proc.c:408-462 | While wakeup scans, every process that has given up its lock in sleep is already asleep on its channel. |
| `SleepWakeup.NoLostWakeup` | proc.c:408-462 | In every run, a wakeup, or a wakeup1 by a holder of ptable.lock as in exit, called while a sleep on its channel has given up its lock, has made that process runnable by the time it releases ptable.lock or returns; also when the lock given up is ptable.lock, as in wait. |
| `Interrupts.StepKeepsInv` | spinlock.c:25-117 | Every step of the protocol with its pushcli or popcli, and every change of the interrupt flag outside them, keeps ncli equal to the number of locks held on the CPU, and interrupts off while there are any. |
| `Interrupts.LocksMaskInterrupts` | spinlock.c:96-117 | In every run interrupts are off on every CPU on which a lock is held. |
| `Interrupts.SchedTests` | proc.c:358-373 | In every run sched meets all four of its tests, ncli equal to 1 and interrupts off included, so none of its panics is reachable. |
| `Interrupts.PopTests` | spinlock.c:107-117 | In every run each release finds interrupts off and a push to undo, so neither panic of popcli is reachable. |
| `Interrupts.TrackedKeeps` | proc.c:358-373 | The interrupt flag a process found when it took its first lock is in intena of the CPU it runs on while it holds locks, and in the variable of sched while it is switched out. |
| `Interrupts.FlagRestored` | spinlock.c:96-117 | In every run, when a process releases its last lock the interrupt flag is what it was when the process took its first, although it may have slept, yielded and changed CPUs in between. |
| `Shell.GetToken` | sh.c:267-309 | A token lies in the line, consumes input unless at the end, and a word token is a whole word. |
| `Shell.ParseRedirs` | sh.c:376-398 | Redirections parsed refer to whole words of the line; terminates on every input. |
| `Shell.ParseArgs` | sh.c:417-447 | Arguments parsed are whole words of the line; terminates on every input. |
| `Shell.ParseExec` | sh.c:417-447 | The tree refers to whole words of the line only; ShellGrammar.SimpleParses says which tree it is. |
| `Shell.ParseBlock` | sh.c:401-414 | The same for a parenthesised block. |
| `Shell.ParsePipe` | sh.c:363-373 | The same for a pipeline. |
| `Shell.ParseLine` | sh.c:346-360 | The same for a line; the mutual recursion terminates by remaining input and rank of function. |
| `Shell.ParseCmd` | sh.c:329-343 | The same for a whole command. |
| `Shell.WordToken` | sh.c:267-309 | A printed word is read back as one token with the same text. |
| `Shell.ArgsParsed` | sh.c:417-447 | Printed arguments are read back in order, none lost or merged. |
| `Shell.ExecPrinted` | sh.c:417-447 | A printed simple command parses to itself. |
| `Shell.RedirPrinted` | sh.c:376-398 | A printed redirection parses to itself. |
| `Shell.PipePrinted` | sh.c:363-373 | A printed pipe parses to itself. |
| `Shell.ListPrinted` | sh.c:346-360 | A printed list parses to itself. |
| `Shell.BackPrinted` | sh.c:346-360 | A printed background command parses to itself. |
| `Shell.ParsePrinted` | sh.c:346-360 | A printed tree parses to itself wherever it stands before a closing parenthesis or the end. |
| `Shell.RoundTrip` | sh.c:329-447 | Parsing undoes printing for every tree over words with at most nine arguments per command. |
| `ShellGrammar.NothingIsSkipped` | sh.c:266-309 | The tokens of a line, spelled out, are the line without its white space. |
| `ShellGrammar.TargetsParse` | sh.c:375-398 | A row of redirections parses to those redirections in order, each with the word behind it. |
| `ShellGrammar.SimpleParses` | sh.c:417-447 | A command with redirections anywhere before, between and behind its words parses to the words wrapped in all the redirections in order. |
| `ShellGrammar.UnitParses` | sh.c:400-447 | The same for a parenthesised line and the redirections behind it. |
| `ShellGrammar.PipeParses` | sh.c:362-373 | A pipeline groups to the right. |
| `ShellGrammar.LineParses` | sh.c:345-360 | A line is a pipeline, put in the background once for each ampersand, then the rest of the line behind a semicolon. |
| `ShellGrammar.LineFound` | sh.c:345-447 | Whatever parseline accepts is a sentence of the grammar with at most nine words to a command, and the tree is its meaning. |
| `ShellGrammar.SentenceParses` | sh.c:328-343 | Every sentence of the grammar, with any white space, is accepted, and the tree is its meaning. |
| `ShellGrammar.AcceptsExactly` | sh.c:328-343 | A line is accepted if and only if its tokens are a sentence. |
| `ShellGrammar.Unambiguous` | sh.c:328-447 | Two sentences with the same tokens have the same meaning. |
| `Shell.Parser.SkipSpaces` | sh.c:267-321 | The loop over blanks computes the specified position. |
| `Shell.Parser.PeekFor` | sh.c:312-321 | peek moves to the next non-blank and tests it, as specified. |
| `Shell.Parser.NextToken` | sh.c:267-309 | The token scanner with its loops computes exactly the specified token and position. |
| `Shell.Parser.Redirs` | sh.c:376-398 | The loop agrees with the specification in result, position and error. |
| `Shell.Parser.ExecCmd` | sh.c:417-447 | The mutable parser agrees with the specification of a simple command, redirections before, between and behind the words included. |
| `Shell.Parser.ArgList` | sh.c:417-447 | The argument loop agrees with its specification, including "too many args" and "syntax". |
| `Shell.Parser.Block` | sh.c:401-414 | The block parser agrees with its specification, including the missing parenthesis. |
| `Shell.Parser.PipeLine` | sh.c:363-373 | The pipeline parser agrees with its specification. |
| `Shell.Parser.Line` | sh.c:346-360 | The line parser agrees with its specification. |
| `Shell.Parser.Command` | sh.c:329-343 | parsecmd agrees with its specification, including "leftovers". |
| `Shell.SpansInLine` | sh.c:329-447 | Every word of a parsed tree is a whole word of the line. |
| `Shell.Nulterminate` | sh.c:451-494 | Writes a NUL behind every word of the tree and changes nothing else of the line. |
| `Shell.WordsCutOut` | sh.c:451-494 | For every line that parses, every argument and file name of the tree is in the buffer as a string of its own, spelled as in the line: what exec and open are given. |
| `Paging.MakeParts` | mmu.h:145-146 | An entry built from a frame and flags gives back both. |
| `Paging.MakeWhole` | mmu.h:145-146 | An entry is exactly its frame and its flags. |
| `Paging.P2vInverse` | memlayout.h:18-19 | Kernel pointers to frames of physical memory are not null and lead back to the frame. |
| `Paging.ProtectParts` | vm.c:232-272 | mprotect keeps the frame and all other flags of an entry; W and U follow the request; P is set for a known request, else as before. |
| `FrameOwners.TakeInv` | kalloc.c:83-95 | A frame taken from the free list is owned by nobody and no longer free; no frame is both free and owned. |
| `FrameOwners.PutInv` | kalloc.c:60-77 | Giving back a frame nobody owns keeps the invariant, the free list without repetitions. |
| `FrameOwners.AddTableInv` | vm.c:58-77 | A zeroed frame made a page table gets exactly one owner and maps nothing new. |
| `FrameOwners.AddTableView` | vm.c:58-77 | A new page table changes no page's entry in any address space. |
| `FrameOwners.AccessIsEntry` | vm.c:58-77 | Through directory and table, user mode may read or write a page exactly as the page's own entry says. |
| `FrameOwners.SetEntryView` | vm.c:83-103 | Writing one entry changes that entry of that address space and no other. |
| `FrameOwners.MapInv` | vm.c:83-103 | Mapping a frame nobody owns keeps every frame with at most one owner. |
| `FrameOwners.UnmapFreeInv` | vm.c:306-341 | Freeing a page's frame and clearing its entry keeps the invariant and every other page. |
| `FrameOwners.AddDirInv` | vm.c:142-157 | A zeroed frame made a page directory maps nothing. |
| `FrameOwners.OwnedParts` | vm.c:346-360 | A page directory owns itself, its page tables and its user pages, and nothing else. |
| `FrameOwners.ChainPop` | kalloc.c:83-95 | The free list threaded through the frames themselves: its head leads to the first free frame and its first word to the rest. |
| `FrameOwners.ChainPush` | kalloc.c:60-77 | Pushing a frame threads it in front of the list. |
| `Vm.Vm.constructor` | kalloc.c:31-43 | Memory without free frames and page directories satisfies the invariant. |
| `Vm.Vm.Freerange` | kalloc.c:46-52 | Exactly the frames of the range become free, each once. |
| `Vm.Vm.Kalloc` | kalloc.c:83-95 | Pops the first free frame, or fails exactly on an empty list. |
| `Vm.Vm.Kfree` | kalloc.c:60-77 | The frame is filled with junk, linked to the old head and becomes the head. |
| `Vm.Vm.Fill` | vm.c:277-299 | Filling a frame nobody owns changes no address space. |
| `Vm.Vm.Walkpgdir` | vm.c:58-77 | Succeeds exactly if the page table exists or may and can be made; every page of every address space is kept; free frames and page tables together are conserved. Every present directory entry, the new one included, grants reading and writing from user mode, so that the page's own entry decides. |
| `Vm.Vm.NewDirectory` | vm.c:142-157 | A free frame becomes a page directory without page tables; every existing address space is kept. |
| `Vm.Vm.MapPage` | vm.c:83-103 | One turn: exactly that page gets the entry; "remap" exactly if it was mapped, failure exactly without table and frame, both without change. |
| `Vm.Vm.Mappages` | vm.c:83-103 | On success exactly the pages touched show consecutive frames with the permissions; otherwise exactly a prefix, up to a mapped page or for want of a frame. |
| `AddressSpaces.MapStep` | vm.c:83-103 | One more page mapped extends the range and keeps everything outside it. |
| `Vm.Vm.Setupkvm` | vm.c:142-157 | A new directory whose user half is empty and whose kernel half is exactly the kernel's map, without any user bit; "remap" is unreachable; existing address spaces are kept; failure means that few frames were free. |
| `Vm.Vm.AllocPage` | vm.c:277-299 | One turn of allocuvm: a zeroed frame that was free becomes the page, or which of frame and table was missing; page tables and frames spent are counted. |
| `Vm.Vm.Allocuvm` | vm.c:277-299 | For every range not mapped yet, with need the frames for its pages and lacking page tables: it fails exactly below need, or need minus one if the last page is the first to need its table, and then every mapping is as before; success without the last page exactly with need minus one frames in that case; otherwise every page is a zeroed frame of its own and exactly the lacking tables have been made; other address spaces are kept. Every new page can be read and written from user mode, through both levels. |
| `AddressSpaces.NeedIs` | vm.c:277-299 | The frames needed are one for each page and one for each page table of the range that is lacking. |
| `AddressSpaces.GrowingTurn` | vm.c:277-299 | One more turn keeps the accounts of frames and page tables against the need. |
| `AddressSpaces.GrowingFails` | vm.c:277-299 | Out of frames before the end means that fewer than the need were free. |
| `AddressSpaces.UndoGrowth` | vm.c:277-299 | Failing in the middle, allocuvm takes back exactly what it has mapped. |
| `Vm.Vm.UnmapPage` | vm.c:306-341 | The page is unmapped and its frame free; every other page is kept. |
| `Vm.Vm.DeallocPage` | vm.c:306-341 | One turn of deallocuvm: the page is not mapped afterwards, its frame is free if it was. |
| `Vm.Vm.Deallocuvm` | vm.c:306-341 | From the first page met in steps of a page table's span that has a table, every page up to oldsz is unmapped and exactly their frames become free; everything else is kept; the whole range ends up unmapped if and only if no mapped page is passed over before that start. |
| `AddressSpaces.BeginAligned` | vm.c:306-341 | Started at the beginning of a page table's span, deallocuvm passes over no mapped page. |
| `ProcessMemory.NothingPassedOver` | vm.c:306-341 | Nothing mapped is passed over if the first page has a page table, or if no page is mapped above one without a table, as in every process image. |
| `Vm.Vm.FreeTables` | vm.c:346-360 | The loop over the directory frees exactly its page tables, then the directory. |
| `Vm.Vm.Freevm` | vm.c:346-360 | The frames that become free are exactly those the page directory owned; every other address space and page directory is kept. |
| `Vm.Vm.CopyPage` | vm.c:405-432 | One turn of copyuvm: the page is copied, memory ran out, or the panic: "pte should exist" exactly without a page table, "page not present" exactly with one but no page. |
| `Vm.Vm.CopyInto` | vm.c:405-432 | A frame that was free receives the parent's bytes and the child's page the parent's flags. |
| `Vm.Vm.Copyuvm` | vm.c:405-432 | On success the child shows the same bytes with the same flags at every page below sz, in frames that were free, and the kernel's map above; all existing address spaces are kept in every case; it fails only with few free frames; with enough of them it panics if and only if a page below sz is not mapped, and the first such page decides which of the two panics it is. User mode may read and write the same pages below sz as in the parent. |
| `Vm.Vm.Mprotect` | vm.c:232-272 | Exactly the covered entries are rewritten and no frame or other entry changes; frames stay properly owned if and only if the request is unknown or every covered user page was mapped; where no kernel page carried the user bit, one does afterwards if and only if the range reaches the kernel half and asks for reading. User mode may read and write the covered pages exactly as requested and all others as before. |
| `AddressSpaces.ProtectInv` | vm.c:232-272 | An unmapped user page covered by a known request becomes present on frame 0, which breaks ownership; otherwise ownership is intact. |
| `AddressSpaces.ProtectOpens` | vm.c:232-272 | When mprotect sets the user bit on a page of the kernel half, by range and request. |
| `AddressSpaces.KernelClosed` | vm.c:117-157 | The kernel's map as setupkvm makes it carries no user bit. |
| `AddressSpaces.KernelShows` | vm.c:117-157 | What setupkvm's map shows at each page: present exactly for the kernel's memory up to PHYSTOP and for the devices, on the physical page that the address stands for, read-only exactly for the kernel's text, never open to the user. |
| `AddressSpaces.GrownAccess` | vm.c:277-299 | Every page that allocuvm maps can be read and written from user mode. |
| `AddressSpaces.CopiedAccess` | vm.c:405-432 | A page with equal flags in parent and child is open to the user in the same way in both. |
| `AddressSpaces.ProtectedAccess` | vm.c:232-272 | After mprotect user mode may read and write a covered page exactly as the request says, and any other page as before. |
| `ProcessMemory.ImageShrinks` | vm.c:306-341 | Shrinking the image of a process unmaps exactly the pages above the new size. |
| `ProcessMemory.ImageGrows` | vm.c:277-299 | Growing it maps exactly the pages up to the new size, unless the last page is missing. |
| `ProcessMemory.Growproc` | proc.c:116-132 | Result and new size for every n; exactly the pages below the size are mapped afterwards if and only if it neither grew one frame short of a page table nor shrank to nothing, which unmaps all pages but fails and keeps the size; every other process keeps its image. |
| `ProcessMemory.ForkImage` | proc.c:138-177 | If exactly the pages below its size are mapped, fork does not panic, the child has the same image, and every other process keeps its own. |
| `ProcessMemory.ForkHoled` | vm.c:405-432 | fork of an image with one page missing and enough frames: "page not present" if that page has a page table, "pte should exist" if not. |
| `ProcessMemory.OneShortThenFork` | proc.c:116-177 | For every process that grows one frame short of its last page table while another process holds enough memory: once the other has given it back, fork panics with "copyuvm: pte should exist". |
| `ProcessMemory.OneShortGrowThenFork` | proc.c:116-177 | The same, with a second growth into the table that was missing: fork panics with "copyuvm: page not present". |
| `ProcessMemory.FreedCount` | vm.c:346-360 | freevm gives back at least as many different frames as the process had pages. |
| `ProcessMemory.TwoProcesses` | vm.c:277-299 | In every memory of 3082 frames such a state is reached: two processes share all frames but one, the first with a full page table. |
| `ProcessMemory.SuccessWithoutPage` | vm.c:277-299 | A concrete memory, one free frame and no page table: allocuvm reports success and the page is not mapped. |
| `ProcessMemory.ProtectUnmapped` | vm.c:232-272 | A concrete memory, an unmapped page under an existing page table: mprotect breaks the ownership of frames. |
| `ProcessMemory.PassedOver` | vm.c:306-341 | A concrete memory, a page under the second table and no first table: deallocuvm down to the second page leaves it mapped. |

## Left out

- Umalloc.Heap.Morecore: the header of a block behind the end of memory is stored as if it were mapped; in the source that store faults where it reaches behind the last mapped page.
- Umalloc.Heap.Malloc: the same for requests above 0x7FFFFFF0 bytes; what is said of its result there holds where it returns.
- Umalloc.Heap.Free: requires a pointer that malloc returned and that has not been freed, as the source does.
- LogProtocol.ReservationHolds: is about calls that add at most MAXOPBLOCKS sectors each; ReservationSufficientIff says what happens with larger ones.
- RedoLog.Log.LogWrite: is one atomic step, although the source takes no lock there, and the cache appears as a view of the disk (BufferCache models the buffers).
- FileSystem.FileSystem.Writei: does not say what the disk holds after the panic "balloc: out of blocks", leaves the answer of device drivers open, and takes memory and disk to agree on the inode beforehand, as ilock and iupdate leave it.
- FileSystem.FileSystem.Filewrite: covers inodes; the loop over a device's answers is not modelled, nor the check of f->writable.
- Namespace.Namespace.Namex: requires the starting directory to be still linked; a walk from a removed current directory is not modelled.
- Namespace.Namespace.Link: one device, and an inode cache without a limit of entries.
- Namespace.Namespace.Create: device numbers, and the byte layout of directory entries (FileSystem has the bytes).
- Lifecycle.ProcTable.AllocProc: process numbers do not wrap.
- Lifecycle.ProcTable.Exit: requires that the process is not inside fork, which a process cannot be.
- DurableFiles.CrashKeepsWholeOperations: operations follow one another, so that each is a group by itself; an inode sector holds one integer for each field, not its bytes. create, link and unlink are not tied to sectors.
- DurableFiles.CrashKeepsFiles: takes it that operations leave their files stored, which WriteOnDisk and TruncateOnDisk show for writing and truncating.
- DurableFiles.WriteOnDisk: requires enough free sectors before the log, beyond which a file would reach into it.
- BufferCache.Bcache.Brelse: requires that the holder left the buffer alone, wrote it or recorded it, as all callers do.
- Pipe.Pipe.Close: requires that no process sleeps at the end whose last descriptor is closed.
- Vm.Vm.Mappages: maps one page at a time in the user half, as all callers in the model do, onto a frame nobody owns; wrap-around of the address range is excluded.
- Vm.Vm.Deallocuvm: with the copy-on-write counts at zero.
- Vm.Vm.Setupkvm: the frames it leaks on failure are not tracked; `data` is a parameter.
- Vm.Vm.Copyuvm: the frame leaked when the last mapping fails is not tracked.
- ProcessMemory.Growproc: copy-on-write counts at zero, as for deallocuvm.
- BufferCache.Bcache.Bget: one device.
- Interrupts.StepKeepsInv: an interrupt handler that runs in the middle of sleep, wakeup or yield, where they hold no lock, is not nested; its own calls are calls from kernel code. Spinning for a lock is no state of its own.
- Interrupts.FlagRestored: is about processes; a scheduler sets the flag itself at the start of each round, and what it finds there is not restored.
- SleepWakeup.SchedNeverPanics: the fourth test of sched, interrupts off, is in Interrupts.SchedTests.
- BufferCache.Bcache.Bwrite: requires a buffer that has been read in, as all callers have.
- RedoLog.Log.constructor: the superblock is not read, and recovery is a call of its own.
- Pipe.Pipe.constructor: pipealloc's want of memory or of file structures is not modelled.
- Vm.Vm.Mprotect: requires page tables for all covered pages and no wrap-around of the address, as the source does without checking.
- Vm.Vm.Freerange: takes the frames of the range as a list; the loop's address arithmetic is not modelled.
- Copy-on-write fork, its counts and its fault handler.
- Signals, exec, traps, system call arguments, the console and all device drivers.
- File descriptors and the file table (reference counts of open files).
- Concurrency inside the file system: system calls on names and files run one at a time; the log protocol, pipes, and sleep and wakeup are concurrent.
- Running shell commands; the parser treats `>>` like `>` in the tree, as the source does.
- grep's line buffering.
- The contents of user memory other than by copying, and TLB flushes.
