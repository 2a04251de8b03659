# Verified models of xv6

This project models the parts of the xv6 operating system (x86, with extra memory-management calls) where
crashes, concurrency or pointer manipulation make the code hard to trust by reading, and proves what those
parts are for. Each module stands for one component:

- `Disk`, `Log`: the write-ahead log as a class over a disk of 512-byte blocks. Commit and recovery may stop
  after any block write. A completed recovery leaves every home block old, or every home block new.
- `LogSpace`: the log's space counters with any number of operations. The "too big a transaction" panic is
  reachable exactly when the operation size reaches a bound, which for the image built by mkfs is MAXOPBLOCKS.
  Because log_write tests before it takes the lock, the log can also overflow, under a similar condition.
- `Journal`: begin_op, end_op, log_write, the buffer cache, commit, crashes and recovery as one transition
  system with any number of threads and buffers. Invariants hold in every state of every run.
- `Bcache`: the buffer cache of bio.c over memide.c's disk: the prev/next ring, least-recently-released
  recycling, and the disk as seen through the cache.
- `Bitmap`, `BlockMap`, `Truncate`, `FileSystem`: the block allocator, the direct/indirect block map, readi,
  writei, itrunc and filewrite against byte sequences, with every block owned by one slot.
- `Mkfs`, `MkfsMain`: the image builder. The finished image holds every file, satisfies those invariants and
  is mounted, except in the exact case in which its rounding of the root directory leaves a hole.
- `RootTree`: the root directory of a finished image, decoded, as the tree `Links` starts from.
- `Links`, `Path`: directories, link counts under create, link with rollback, and unlink; path resolution as a
  fold of lookups, with reference counts.
- `Pipe`, `Proc`, `ProcRuns`: sleep and wakeup, pipes, the scheduler, exit, wait and fork as step systems over
  any number of processes and CPUs, with the locks explicit.
- `Malloc`: the user allocator's circular free list, with a theorem that the list is a function of the
  allocated blocks.
- `PageTable`, `Vm`: the frame allocator's linked list, and growth, copy and release of two-level page tables.
- `Params`, `Wrap`: shared constants, and arithmetic on bytes and wrapping counters.
- `Console`, `Grep`: the console's line editor over a wrapping ring, and the pattern matcher against a
  set-of-strings meaning.

Conventions. A method result that stands for a kernel panic is named in the method's comment (`ok == false`,
buffer 0, -1), and its contract says in which state the panic happens. Ghost fields record what the C code
leaves implicit: owners of blocks, the order of a ring, histories of bytes. C arithmetic that wraps is written
out modulo 2^32.

Where code and comments disagree, the model follows the code:

- log.c and param.h promise that an operation may log MAXOPBLOCKS blocks. begin_op's test admits operations
  that can then fill the log of the mkfs image and panic. `LogSpace.MkfsLog` proves nine blocks safe and ten not;
  `LogSpace.OverfullIff` does the same for two operations that pass log_write's test together.
- bmap is described as allocating on demand. readi nevertheless never allocates, because no file has holes;
  mkfs.c breaks that rule for the root directory in the case `Mkfs.RootHole` names, and
  `MkfsMain.ThirtyFiles` gives an image. `FileSystem.Files.Readi` shows that a read allocates and logs exactly
  when it meets such a block; outside a transaction that is a panic.
- mkfs.c does not compare the names it enters. `RootTree.StartGood` shows that the kernel starts from a correct
  tree exactly when they differ and are no dots, and `RootTree.TwinNames` gives an image where they do not.
- namex assumes that every inode it reaches is in use. That fails for a process in a removed directory whose
  parent is gone too: `Path.PanicIff` gives the exact condition and `Path.LostDirectory` a run.
- allocuvm assumes the new range to be unmapped. `Vm.Memory.Allocuvm` says when it meets a present page first,
  and that otherwise a failure frees such pages as well.
- pipe.c lets a killed writer return from a full pipe without waking readers. `Pipe.NoLostWakeup` states the
  property with that exception as an exact condition, and `Pipe.Desertion` gives a run.
- create and link put entries into a directory that may have been removed since its path was resolved.
  `Links.CreateIff` and `Links.LinkIff` show that link counts stay right exactly when the directory is linked.
  `Links.CreateInRemoved` and `Links.LinkIntoRemoved` give runs in which it is not.
- malloc's rounding wraps for requests within seven bytes of 2^32. `Malloc.Usable` gives the exact condition.
  For requests above 0x7FFFFFF0 bytes sbrk's argument is not positive, and `Malloc.MoreInside` shows that the
  block malloc then carves from lies outside the process.

## Model

| member | source | states |
|---|---|---|
| Disk.WithHead | log.c:98-113 | the header block written by write_head reads back as exactly the in-memory list |
| Disk.RecoveryUnique | log.c:115-122 | a disk has at most one recovery outcome on home blocks |
| Disk.LogBlockWrite | log.c:176-190 | with an empty header, any log-block write leaves the recovery outcome as it was |
| Disk.HeaderWrite | log.c:98-113 | writing the header moves all the blocks it lists to their logged contents in one write, and no other block |
| Disk.InstallWrite | log.c:68-82 | copying one logged block home leaves the recovery outcome and the pending list as they were |
| Disk.ClearWrite | log.c:115-122 | once all logged blocks are home, clearing the header leaves the recovery outcome as it was |
| Log.LogPrefix | log.c:176-190 | after any prefix of write_log's writes the disk still recovers to the old home blocks |
| Log.InstallPrefix | log.c:68-82 | after any prefix of install_trans's writes the disk still recovers to the committed home blocks |
| Log.CommitPoint | log.c:192-202 | the first write_head of commit is the commit point |
| Log.CommitPrefix | log.c:192-202 | after k writes of commit the disk recovers to the old state if k is at most n, to the new one otherwise, and the log is empty at the end |
| Log.RecoveryPrefix | log.c:115-122 | recovery cut off after any write recovers to the same home blocks |
| Log.RecoveryCompletes | log.c:115-122 | recovery interrupted any number of times ends with an empty log and the same outcome |
| Log.CrashAtomicity | log.c:68-202 | commit stopped after any write and recovery any number of times: home blocks all old, or all new exactly when the header write was done |
| Log.FindBlock | log.c:224-227 | the absorption scan returns the first place of a block, or the length of the list |
| Log.LogStore.constructor | log.c:53-66 | a machine just switched on has an empty list and promises the state its disk recovers to |
| Log.LogStore.Bread | bio.c:95-106 | a read returns the cached block if there is one, else the disk's, and caches it |
| Log.LogStore.Bwrite | bio.c:108-116 | the one write to disk: it may happen only if the new disk still recovers to the stated image, which is recorded |
| Log.LogStore.CopyBlock | log.c:182-189 | a block copied through two buffers: the destination on disk gets the source as the cache shows it, no other block changes |
| Log.LogStore.WriteLog | log.c:176-190 | all n log blocks filled from the cache, every intermediate disk safe for the old state, pins kept |
| Log.LogStore.InstallTrans | log.c:68-82 | all n blocks copied home, every intermediate disk safe for the committed state |
| Log.LogStore.WriteHead | log.c:98-113 | the header block on disk lists the in-memory list, in one safe write |
| Log.LogStore.ReadHead | log.c:84-96 | the in-memory list becomes the one on disk |
| Log.LogStore.EraseLog | log.c:199-200 | the emptied header reaches disk in one safe write, and home blocks are the committed ones |
| Log.LogStore.CommitLog | log.c:196-197 | n writes safe for the old state, then the header write, from which on the new state is promised |
| Log.LogStore.RecoverFromLog | log.c:115-122 | every write of recovery keeps the promise, and at the end the promised home blocks are on disk |
| Log.LogStore.Commit | log.c:192-202 | n writes safe for the old state and n+2 for the new one, home blocks equal the cache at the end, nothing written when the list is empty |
| Log.LogStore.LogWrite | log.c:213-233 | panics exactly on a full log or outside an operation; otherwise appends the block or absorbs it, and pins it |
| LogSpace.Admission | log.c:129-139 | begin_op's test leaves room for k more blocks from every operation, up to the bound |
| LogSpace.ReachesInv | log.c:124-233 | in every run with k blocks an operation, the blocks logged plus those still allowed never exceed the bound |
| LogSpace.ReachBound | log.c:124-233 | two operations can drive the log to the bound |
| LogSpace.PanicIff | log.c:218-219 | the space panic of log_write is reachable exactly when LOGSIZE-2(MAXOPBLOCKS-k) reaches LOGSIZE or the log's capacity |
| LogSpace.MkfsLog | mkfs.c:25 | on the mkfs log the panic is reachable exactly for k = MAXOPBLOCKS |
| LogSpace.SplitInv | log.c:218-230 | with the test outside the lock, the blocks logged plus those still allowed never exceed the bound either |
| LogSpace.OverfullIff | log.c:218-230 | with the test outside the lock the log takes more blocks than it has room for in some run exactly when LOGSIZE-2(MAXOPBLOCKS-k) reaches its size |
| Journal.RunAll | log.c:124-233 | every state of every run of threads, buffers, commits, crashes and recoveries satisfies the invariant |
| Journal.CrashSafety | log.c:124-233 | at every moment recovery would restore exactly the log_writes up to the last commit, with no operation half in |
| Journal.RecoveredHome | log.c:115-122 | a recovery that has run to its end leaves the last commit in the home blocks |
| Journal.Durability | log.c:143-202 | what is durable grows only at the header write, covers everything when end_op's commit is over, and is what a crash keeps |
| Journal.WriteAhead | log.c:192-202 | before the commit point no home block on disk differs from the last commit |
| Journal.BreadReturnsLatest | bio.c:61-106 | the holder of a filled, unmodified buffer sees the last log_write of its block |
| Journal.CleanIsCurrent | bio.c:78-90 | a clean buffer's block is the same on disk, so recycling it loses nothing |
| Journal.RecyclePins | bio.c:78-90 | recycling an unreferenced clean buffer never drops a block of the open transaction |
| Journal.OneBufferPerBlock | bio.c:61-93 | in every state at most one buffer names a block |
| Journal.GroupCommit | log.c:124-174 | no operation is outstanding while a commit runs, end_op's panic is unreachable, log_write never finds the log full, and a sleeper in begin_op implies a commit or another operation |
| Journal.NoPanic | log.c:218-219 | the space test is false whenever an operation is running |
| Bcache.Unlink | bio.c:132-133 | taking a buffer out leaves a ring of the others in order |
| Bcache.Push | bio.c:134-137 | inserting at the front gives a ring with the buffer first |
| Bcache.MoveToFront | bio.c:130-138 | brelse's six assignments keep all buffers in one ring and move one to the front |
| Bcache.Released | bio.c:130-138 | from front to back buffers were released ever longer ago |
| Bcache.Recycle | bio.c:78-90 | renaming an idle buffer keeps names unique and changes nothing seen through the cache |
| Bcache.Cache.constructor | bio.c:38-56 | binit leaves all buffers in the ring, and the cache shows the disk |
| Bcache.Cache.Lookup | bio.c:68-76 | the forward scan finds a buffer with the name, or there is none |
| Bcache.Cache.Victim | bio.c:78-92 | the backward scan finds the least recently released unreferenced clean buffer, or there is none |
| Bcache.Cache.Bget | bio.c:58-93 | a hit gains a reference; a miss recycles exactly that buffer; the panic means neither exists |
| Bcache.Cache.Iderw | memide.c:35-60 | writes a dirty buffer or reads an invalid one, panics exactly otherwise, and the buffer then agrees with what the cache shows |
| Bcache.Cache.Bread | bio.c:95-106 | returns a referenced buffer with the contents last written through the cache; fails only on a bad block or with no buffer to take |
| Bcache.Cache.Fill | bio.c:9-14 | bytes changed by a buffer's holder are what the cache shows from then on |
| Bcache.Cache.Pin | log.c:231 | marking dirty changes no contents and keeps the buffer from being recycled |
| Bcache.Cache.Bwrite | bio.c:108-116 | the disk block becomes what the cache shows, and the buffer is clean |
| Bcache.Cache.Brelse | bio.c:118-141 | drops one reference; the last one moves the buffer to the front, the others keeping their order |
| Bitmap.PutMarkAll | fs.c:66-69 | setting or clearing one bit changes that block's mark and nothing outside the bitmap |
| Bitmap.BitPlace | fs.h:44-48 | block, byte and bit identify a block number |
| Bitmap.ScanBlock | fs.c:64-75 | one bitmap block's scan stops at its first free block |
| Bitmap.FindFree | fs.c:63-77 | the scan finds the first free block of the disk, or there is none |
| BlockMap.OneSlot | fs.c:370-400 | no address occurs in two places |
| BlockMap.OwnedAddr | fs.c:370-400 | every nonzero address is a data block, marked, and owned by the slot it is in |
| BlockMap.FreshBlock | fs.c:67-72 | a free block is a data block that no slot names |
| BlockMap.LinkedOwned | fs.c:378-395 | linking a freshly allocated block into an empty slot keeps ownership |
| BlockMap.KeepsLookup | fs.c:370-400 | allocating blocks changes no byte already there, of any file |
| BlockMap.WriteAtLookup | fs.c:499-503 | writing into a mapped block changes those bytes of that file and nothing else |
| Truncate.FreeSlot | fs.c:414-431 | the block of a slot is still marked when itrunc frees it |
| Truncate.EmptiedOwned | fs.c:402-435 | after itrunc ownership holds, and exactly the blocks the inode owned are unmarked |
| Truncate.EmptiedLookup | fs.c:402-435 | itrunc changes no byte of another file |
| FileSystem.Files.Balloc | fs.c:55-78 | marks and zeroes the first free block; the panic means none is free |
| FileSystem.Files.Bfree | fs.c:80-95 | clears the mark; the panic means it was clear |
| FileSystem.Files.Bmap | fs.c:370-400 | returns the block's address, changing nothing if it is mapped, else keeping ownership and all bytes; logs only that block, the indirect block and the bitmap; the panic means the disk is full |
| FileSystem.Files.Readi | fs.c:449-476 | returns the bytes of the range, missing blocks as zeroes; changes and logs nothing exactly when every block of the range is there, and otherwise allocates and logs a block; without holes it never fails and returns the slice of the file; a panic means the disk is full or the block number out of range |
| FileSystem.FilledSeen | fs.c:370-400 | allocating a missing block changes no byte any read finds |
| FileSystem.Files.Writei | fs.c:478-511 | rejects gaps and oversize unchanged; otherwise the file is the old one overwritten at the offset, other files are as they were, no holes appear; the panic means the disk is full |
| FileSystem.WriteDone | fs.c:498-509 | the loop and the size update give the overwritten bytes, ownership and no holes |
| FileSystem.SizeBound | fs.c:495-496 | a file without holes fits the block map |
| FileSystem.Files.Itrunc | fs.c:402-435 | the file is empty, exactly its blocks are freed, other files are untouched |
| FileSystem.OverwriteTwice | file.c:135-152 | two adjacent overwrites are one |
| FileSystem.ChunkPeak | file.c:127-133 | a chunk logs at most seven distinct blocks when one bitmap block suffices |
| FileSystem.Files.WriteChunk | file.c:140-151 | one chunk, in its own transaction, is written whole, so the short-write panic is unreachable, or refused for lack of a place to write |
| FileSystem.Files.Filewrite | file.c:117-156 | the chunks compose to one overwrite; all bytes are written exactly when the offset is in the file and the end within the limit; no chunk logs more than seven blocks |
| FileSystem.Files.constructor | fs.c:172-187 | a mounted disk: its blocks and inodes as found, memory and disk agreeing, nothing logged |
| Mkfs.MarkFirstAll | mkfs.c:237-251 | the bitmap mkfs writes marks exactly the first blocks |
| Mkfs.TakenBuilt | mkfs.c:271-286 | taking the next block for an empty slot keeps every block in one slot |
| Mkfs.MkfsOwned | mkfs.c:165 | marking the blocks handed out establishes the ownership invariant of the running system |
| Mkfs.RootHole | mkfs.c:158-163 | rounding the root directory's size up leaves no hole exactly when the size is not a multiple of the block size |
| Mkfs.RootEntries | mkfs.c:158-163 | in entries: the hole appears exactly when their number is a multiple of 32 |
| Mkfs.BlocksStep | mkfs.c:269-287 | what a round of iappend allocates is the growth of the number of blocks a file of that size takes |
| Mkfs.Image.constructor | mkfs.c:108-111 | an empty image is well built, with every file empty |
| Mkfs.Image.MapBlock | mkfs.c:271-286 | the block is mapped afterwards, zero if it is new, and all others stay where they are; fails exactly when the blocks needed are not left |
| Mkfs.Image.Iappend | mkfs.c:255-297 | the file is the old one with the data appended, other files are untouched, exactly the blocks below the size are mapped and the rest of the last one is zero; fails exactly when the file would be too long or the blocks needed are not left |
| MkfsMain.CopyIn | mkfs.c:151-152 | copying a file block by block gives its bytes, and takes exactly the blocks they need |
| MkfsMain.AddFile | mkfs.c:130-155 | one more root entry and one more file on the image, exactly when the name has no slash and there is room |
| MkfsMain.RoomAll | mkfs.c:130-155 | if all files fit, so does every shorter list of them |
| MkfsMain.Balloc | mkfs.c:237-251 | the loop marks the blocks handed out, exactly when they fit one bitmap block |
| MkfsMain.FinishedHoles | mkfs.c:158-165 | on the finished image only the root can have a hole, and has one exactly when its entries fill their blocks |
| MkfsMain.FinishedContent | mkfs.c:158-165 | finishing changes no file but the root, which grows by zeroes or by a block that is not there |
| MkfsMain.Make | mkfs.c:67-168 | for any list of files: succeeds exactly when they are acceptable and there is room; then every file has its bytes, the root lists them, each block is in one place and marked, no other file than the root has a hole, and the root has one exactly when the number of its entries is a multiple of 32 |
| MkfsMain.Mount | fs.c:172-187 | the mounted image satisfies the invariant of the running file system exactly when that number is no multiple of 32 |
| MkfsMain.RootFull | mkfs.c:158-163 | in the other case the root's size names one block more, which is not mapped |
| MkfsMain.ThirtyFiles | mkfs.c:67-168 | thirty empty files, on the layout of mkfs.c, always give such an image: a root of 1024 bytes whose second block is missing |
| RootTree.DecodeDirent | mkfs.c:146-149 | an entry as mkfs writes it reads back as its inode number and its name cut to DIRSIZ |
| RootTree.RootSlot | mkfs.c:120-163 | every slot of the finished root reads as a dot, a file's entry, or empty |
| RootTree.StartGood | mkfs.c:117-165 | the decoded root satisfies the invariant on names, tree and link counts exactly when the names, without underscore and cut, differ and are no dots |
| RootTree.TwinNames | mkfs.c:130-155 | an image of two files on which it does not |
| Links.Lookup | fs.c:522-548 | the first live slot whose stored name equals the cut name, or none matches |
| Links.Slot | fs.c:564-570 | the first empty slot, or the end |
| Links.Dirlookup | fs.c:533-547 | the loop computes that lookup |
| Links.CreatedCounts | sysfile.c:260-278 | create in a linked directory keeps every link count equal to the number of entries |
| Links.CreatedShape | sysfile.c:260-278 | create keeps names unique under DIRSIZ truncation and the directories a tree |
| Links.CreatedBreaks | sysfile.c:241-283 | create in a removed directory makes some link count wrong |
| Links.CreateIff | sysfile.c:241-283 | create keeps the counts right exactly when its directory is linked |
| Links.AnnounceKeeps | sysfile.c:140-142 | counting the link first keeps counts right, pending links included |
| Links.WithdrawKeeps | sysfile.c:158-162 | the rollback takes the announced link back and keeps counts right |
| Links.LinkIff | sysfile.c:146-151 | link's entry keeps the counts right exactly when its directory is linked |
| Links.UnlinkHasLink | sysfile.c:211-212 | the "nlink < 1" panic is unreachable |
| Links.EmptyDirLinks | sysfile.c:213-216 | a directory with no entries but the dots has exactly one link |
| Links.ParentLinks | sysfile.c:221-224 | a subdirectory's ".." is a link to its parent, which keeps another |
| Links.UnlinkKeeps | sysfile.c:218-229 | unlink of a file or an empty directory keeps names, tree and counts |
| Links.EraseKeeps | sysfile.c:218-229 | between removing a file's entry and counting it the inode has one link pending, and counts stay right |
| Links.NoDangling | fs.c:533-547 | every entry of a linked directory leads to an inode in use with links |
| Links.FreeKeeps | fs.c:335-346 | freeing an inode whose last link is gone keeps everything |
| Links.InitTree | mkfs.c:117-128 | the root directory alone satisfies the invariant |
| Links.LinkCounts | sysfile.c:117-283 | after every run of the calls: counts equal entries plus pending links, no entry of a linked directory dangles, live names differ |
| Links.CreateInRemoved | sysfile.c:241-283 | a run from the mkfs tree after which create makes a link count wrong |
| Links.LinkIntoRemoved | sysfile.c:117-165 | a run in which the directory goes between the halves of a link call, whose entry then makes a count wrong |
| Links.Tree.Dirlink | fs.c:550-578 | adds the entry in the first empty slot exactly when the name is absent |
| Links.Tree.Isdirempty | sysfile.c:167-181 | true exactly when all slots behind the dots are empty |
| Links.Tree.Ialloc | fs.c:201-213 | the first free inode, or there is none |
| Links.Tree.Create | sysfile.c:241-283 | returns an existing file or fails, else creates inode, dots and entry; keeps the invariant in a linked directory; panics only without free inodes |
| Links.Tree.LinkBegin | sysfile.c:133-142 | refuses directories, otherwise counts the link |
| Links.Tree.LinkEnd | sysfile.c:144-164 | writes the entry or rolls the count back |
| Links.Tree.Unlink | sysfile.c:183-239 | succeeds exactly for a present name other than the dots that is no nonempty directory, and keeps the invariant |
| Path.SlashComponents | fs.c:601-602 | leading slashes contribute no component |
| Path.RunComponents | fs.c:605-614 | a run of characters up to a slash is one component, cut to DIRSIZ |
| Path.ParentThenLookup | fs.c:640-644 | nameiparent followed by a lookup of the last component is namei |
| Path.WalkAppend | fs.c:634-651 | resolving a path is resolving a prefix and going on from there |
| Path.NoPanic | fs.c:308-310 | from an inode with a link no resolution meets an inode that is not in use |
| Path.PanicIff | fs.c:308-310 | from any inode, some path panics exactly when going up through removed directories ends at an inode not in use |
| Path.LostDirectory | fs.c:308-310 | a run from the mkfs tree after which "../x" panics |
| Path.Skipelem | fs.c:583-618 | splits off the first component; the rest is empty exactly when no component is left |
| Path.Names.Descend | fs.c:645-650 | one lookup, taking the child and putting the directory |
| Path.Names.Namex | fs.c:620-657 | equals the fold of lookups over the components; on exit exactly the returned inode has gained one reference |
| Pipe.LocksStep | pipe.c:59-121 | each lock is held by exactly the process between its acquire and release |
| Pipe.RingStep | pipe.c:85-117 | storing or taking a byte keeps the ring equal to the bytes written and not read, with 32-bit counters |
| Pipe.Counters | pipe.c:85 | with at most 512 bytes between them the wrapped counters compare like the true ones |
| Pipe.StepInv | pipe.c:59-121 | every step of every process keeps the invariant |
| Pipe.Fifo | pipe.c:78-121 | the bytes read are always a prefix of the bytes written, at most 512 behind |
| Pipe.ReadReturns | pipe.c:100-121 | piperead returns the stretch read last, short only if the pipe ran empty, and nothing only when the write end is closed |
| Pipe.FreedUnused | pipe.c:59-75 | when the page is freed no process is in the pipe, and none can enter |
| Pipe.CalmStep | proc.c:509-568 | with the lock free or no wakeup owed, nobody sleeps without a reason; kept by every step but a desertion |
| Pipe.NoLostWakeup | pipe.c:59-121 | in a run no process sleeps in vain while the lock is free, exactly when no killed writer gives up on a full pipe with a reader asleep |
| Pipe.DeserterKilled | pipe.c:86-89 | only a killed writer does that |
| Pipe.Desertion | pipe.c:85-89 | a run in which it happens |
| Pipe.NeverBoth | pipe.c:84-112 | a reader and a writer of one pipe are never asleep together |
| Proc.StepAll | proc.c:225-568 | every step of scheduler, yield, sleep, wakeup, exit, wait and fork, its two failure paths included, keeps the invariant |
| ProcRuns.RunningIffCurrent | proc.c:416-450 | with ptable.lock free a process is RUNNING exactly when it is current on a CPU, and then on one |
| ProcRuns.WaitNotMissed | proc.c:364-406 | a process asleep in wait has a child and no zombie child |
| ProcRuns.StackStays | proc.c:381-386 | the kernel stack a CPU runs on is never freed, no two CPUs share one, and exit's switch never returns |
| ProcRuns.NoOrphans | proc.c:349-356 | every parent is a live process |
| Proc.Sole | proc.c:344-406 | at most one process is inside wait's or exit's scan |
| Proc.OwnWait | proc.c:346-359 | becoming a zombie or falling asleep in wait upsets nobody who waits |
| Proc.SwitchOutKeeps | proc.c:459-476 | switching to the scheduler with the lock held keeps the invariant |
| Proc.ScheduleKeeps | proc.c:428-447 | the scheduler's steps keep the invariant |
| Malloc.Disjoint | umalloc.c:24-90 | no two blocks share a unit |
| Malloc.FreedOk | umalloc.c:33-43 | free keeps the list circular, ordered and fully coalesced, loses no unit, and its pointer writes give that list |
| Malloc.UnlinkedOk | umalloc.c:76-77 | handing out a whole block keeps the list and the partition |
| Malloc.CarvedOk | umalloc.c:78-82 | handing out the tail of a block keeps them too, and the new block is new |
| Malloc.ExtendedOk | umalloc.c:54-58 | memory from sbrk joins as one block |
| Malloc.Canonical | umalloc.c:24-90 | the free list is determined by the memory obtained and the blocks allocated |
| Malloc.FreeUndoesMalloc | umalloc.c:24-90 | freeing what malloc returned restores the list header by header |
| Malloc.Usable | umalloc.c:69 | a block holds the bytes asked for exactly when rounding up does not wrap |
| Malloc.MoreInside | umalloc.c:46-61 | when sbrk succeeds, morecore's block lies inside the process exactly for requests below 2^28 units, that is up to 0x7FFFFFF0 bytes or where rounding wraps; otherwise wholly outside, and sbrk then fails only where it would shrink the process to nothing |
| Malloc.SearchStep | umalloc.c:74-89 | the walk passes only the block left, and gets closer to where it started |
| Malloc.UserHeap.FindPlace | umalloc.c:30-32 | the loop ends at the free block after which the freed one belongs |
| Malloc.UserHeap.Free | umalloc.c:24-44 | exactly that block is no longer allocated, no unit is lost, the invariant holds |
| Malloc.UserHeap.Morecore | umalloc.c:46-61 | on success the units asked for have joined and some block fits; on failure nothing changed |
| Malloc.UserHeap.Malloc | umalloc.c:63-90 | one new block of the right size, all others kept; at most one request to sbrk, made only when no block fits; null only if that fails |
| PageTable.Pop | kalloc.c:89-91 | taking the head leaves a list of the other free frames |
| PageTable.Push | kalloc.c:72-74 | freeing a frame that is not free puts it on the list once |
| Vm.Memory.constructor | kalloc.c:31-37 | an empty list |
| Vm.Memory.Freerange | kalloc.c:46-53 | every whole frame between the addresses is on the list once, in front of those that were |
| Vm.Memory.Kalloc | kalloc.c:79-95 | the first free frame, or none is free |
| Vm.Memory.Kfree | kalloc.c:55-77 | the frame is first on the list |
| Vm.Memory.Deallocuvm | vm.c:281-315 | exactly the present pages in the range are freed, each once, and their entries cleared; every other entry, page and frame is untouched |
| Vm.Memory.Freevm | vm.c:317-334 | exactly the frames the space owned have joined the free list, each once |
| Vm.Memory.Setupkvm | vm.c:118-137 | a space with the kernel's tables from fresh frames; fails exactly with too few, giving back what it took |
| Vm.Memory.CopyTable | vm.c:362-394 | a copy of a table with the same flags and lazy marks, and fresh pages with the same contents |
| Vm.Memory.Copyuvm | vm.c:349-402 | the copy equals the original, owns only frames that were free, leaves the original alone, and succeeds exactly when enough frames are free |
| PageTable.JoinedSpace | vm.c:395 | entering a finished table keeps each frame in one place |
| PageTable.LeafAdded | vm.c:70-74 | entering a fresh page at an entry that is not present keeps each frame in one place |
| Vm.Memory.Walkpgdir | vm.c:33-56 | the table for a page, made blank if missing, with every entry as before; fails exactly with no frame free and a table missing |
| Vm.Memory.MapPage | vm.c:58-81 | the page's entry is the one asked for, every other entry as before; fails exactly when a table is missing and no frame free |
| Vm.Memory.Rollback | vm.c:236-247 | after a failure no page of the range is present, whoever mapped it; free and owned frames together are the same; only tables were added |
| Vm.Memory.AllocPages | vm.c:233-248 | the loop maps all pages, or runs out of frames and rolls back, or panics at a page that is present, exactly as the number of free frames and the first present page decide |
| Vm.Memory.Allocuvm | vm.c:220-250 | refuses kernel addresses and shrinking; otherwise maps fresh zeroed pages for the whole range, fails, or panics, by the same condition |
| Vm.OutcomeClear | vm.c:220-250 | over a range without present pages it never panics, succeeds exactly when enough frames are free for pages and missing tables, and on failure leaves the space every page it had |
| PageTable.SamePages | vm.c:453-493 | numvp and numpp agree between parent and child |
| PageTable.CountedAll | vm.c:453-493 | the counts summed table by table are the number of page numbers whose entry is present, or present or lazy |
| Vm.Memory.NumPages | vm.c:453-493 | the double loop returns the number of those pages, and one |
| Console.TypedTidy | console.c:191-233 | the line being edited never holds newline or ^D, a full buffer is committed whole, committed characters are never taken back |
| Console.TakenBytes | console.c:235-271 | a read returns at most what was asked for, no ^D, nothing behind a newline |
| Console.TakenInOrder | console.c:235-271 | a read takes the queue in order, consuming a ^D only when it has read nothing |
| Console.TakenBlocked | console.c:245-252 | it sleeps only on an empty queue with the line not ended |
| Console.TakenResumes | console.c:245-252 | reading on after a sleep is one read of a longer queue |
| Console.Distance | console.c:217-221 | differences and comparisons of wrapped indices are those of the true ones |
| Console.LineEditor.KillLine | console.c:203-209 | ^U removes exactly the uncommitted characters |
| Console.LineEditor.Intr | console.c:197-228 | one character has the effect the editing rules give it |
| Console.LineEditor.Read | console.c:244-266 | returns, leaves and blocks as the reading rules say |
| Grep.HereOne | grep.c:92-93 | a literal or '.' takes one character of its class |
| Grep.HereStar | grep.c:88-89 | a starred character takes some characters of its class, and the rest matches behind them |
| Grep.HereEnd | grep.c:90-91 | a final '$' matches only the end |
| Grep.Matchhere | grep.c:84-96 | true exactly when the pattern matches at the start; terminates on pattern length, then text length |
| Grep.Matchstar | grep.c:98-106 | true exactly when some run of the class is followed by a match |
| Grep.Match | grep.c:72-82 | true exactly when the pattern matches somewhere, or at the start after '^' |

## Left out

- Device and boot code, interrupts as hardware events, and memory-model ordering: acquire, release and context
  switches are atomic steps.
- Log.LogStore.constructor: the superblock read of initlog; the recovery it starts is `RecoverFromLog`.
- Log.LogStore.Bread: the cache is unbounded here; recycling is in `Journal` and `Bcache`.
- Log.LogStore.Bwrite: locks, and flags other than dirty, which are in `Journal` and `Bcache`.
- Journal: buffer locks are part of the transition system, but the spin and sleep loops around them are not;
  a step that would wait is simply not enabled. log_write's test and its append are one step; `LogSpace` has
  them apart.
- Journal.GroupCommit: stated for operations of at most nine blocks, since `LogSpace.MkfsLog` shows ten unsafe.
- Bcache.Cache.Bget: the sleep lock taken at the end, which is in `Journal`.
- FileSystem: device files, the encoding of disk inodes, and the in-memory inode table.
- FileSystem.Files.constructor: the superblock is handed in, and inodes are found decoded.
- FileSystem.Files.Readi: the branch for device inodes; the transaction an allocation would need is in `Log`.
- FileSystem.Files.Writei: the branch for device inodes; says nothing about the state after the out-of-blocks
  panic, which halts the kernel.
- FileSystem.Files.Filewrite: pipes, devices and negative counts.
- Mkfs: the superblock's own contents and the encoding of disk inodes.
- Mkfs.Image.MapBlock: reports a full image, where the program would go on past its end.
- Mkfs.Image.Iappend: stops when the image has no block left, where the program would write past the image.
- MkfsMain.Make: requires an inode for every file, which the program does not check.
- Links: a full directory file, and the width of nlink (16 bits); reaching either halts or wraps in the code.
- Links.Tree.Unlink: one step. The code releases the parent before it counts the link down, while it holds the
  inode's lock; for files the two halves are apart in the runs of `LinkCounts` (EraseOp, then WithdrawOp), for
  directories they are not.
- Path.Names.Namex: the freeing of an unlinked inode by iput during a walk, and the size of the inode table.
- Pipe: the kernel memory holding user buffers; reads and writes copy from and to sequences.
- Proc.StepAll: pids, the order in which kill finds a process, and page directories; kill is a wakeup of any
  sleeper.
- Malloc.UserHeap.Malloc: requires requests below 2^28 units, for the reason `Malloc.MoreInside` states, and a
  program that leaves headers alone and moves the break only upward by whole units.
- Vm: shared-memory pages, the contents of the kernel's own tables, lazy growth and its page faults.
- Vm.Memory.Kfree: the range checks and the fill with junk.
- Vm.Memory.Deallocuvm: the branch for shared-memory pages.
- Vm.Memory.Setupkvm: the kernel's tables are blank; which frames they map is not stated.
- Vm.Memory.CopyTable: the branch for shared-memory pages.
- Vm.Memory.Copyuvm: the branch for shared-memory pages; claims no conservation when memory runs out, because
  the table being filled is not linked yet and its frames are lost.
- Vm.Memory.Walkpgdir: user addresses with allocation only.
- Vm.Memory.MapPage: one page with user permissions a call, as allocuvm uses it.
- Vm.Memory.Allocuvm: says nothing about the state after the panic, which halts the kernel.
- Console: echo to the screen, and the wakeup of readers, which is the protocol of `Pipe`.
- Grep: the loop that reads lines from a file.
- Console.LineEditor.Read: the -1 that a killed reader gets while it waits.
- spinlock.c and sleeplock.c: a lock is a step of the models that need it, and its loops are not shown to end.
- exec.c: the ELF format and the argument stack it builds are not part of any model here.
- syscall.c, sysfile.c and sysproc.c beyond the calls above: they fetch arguments and check user pointers.
- User programs other than grep and umalloc, printf and string.c: they keep no state that outlives a call.
