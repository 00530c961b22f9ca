# xv6 in Dafny

A model of the hard parts of xv6 (x86) and of the user-level thread package that comes with it,
with proofs. `dafny verify dfyconfig.toml` checks everything.

| files | what they model |
|---|---|
| `BufferCache` | `bio.c` over the synchronous disk of `memide.c`: the LRU ring, busy/valid/dirty flags, and the trace of disk writes |
| `LogSpec`, `Log`, `LogHistory` | `log.c`: the disk images a transaction goes through, the code that writes them, crash atomicity for one transaction and for whole histories |
| `FsSpec`, `FsLog`, `Fs`, `FsCrash`, `FsDisk` | `fs.c` and `fs.h`: bitmap, inodes, block maps, file contents, block ownership, what is logged, file-system transactions on a crashing disk, and the layout of sectors |
| `FsCalls` | the transactions of `link`, `unlink` and `create` in `sysfile.c`, down to the bytes of an entry |
| `IcacheSpec`, `Icache`, `IcacheRuns` | the inode cache of `fs.c` over the directories: references, locks, and freeing an inode while others use the cache; two runs that panic |
| `File`, `FileCrash` | `filewrite` in `file.c`, and what a crash leaves of it |
| `Mkfs`, `MkfsBoot` | `mkfs.c`: the initial image, and when the kernel can start on it |
| `Malloc` | `umalloc.c`: the circular free list |
| `VmSpec`, `AddressSpace`, `Vm` | `vm.c` and `kalloc.c`: two-level page tables, frames, growing, shrinking, copying and freeing address spaces |
| `ProcSpec`, `Proc` | `proc.c`: the process table, sleep and wakeup, exit and wait, the scheduler |
| `PipeSpec`, `Pipe` | `pipe.c`: the byte stream, the ring buffer with wrapping counters, the sleepers |
| `LinkSpec`, `Links`, `Path` | `create`, `link`, `unlink` of `sysfile.c`, the directory scans and path names of `fs.c` |
| `ShellSpec`, `ShellPrint`, `ShellLines`, `Shell` | the parser of `sh.c`, printers whose output it reads back, which lines it accepts, and its in-place termination of words |
| `Grep` | the matcher of `grep.c` |
| `Uthread` | the thread table and round-robin choice of `uthread.c` |
| `Finite` | a few facts about finite sets and sequences |

The files named `...Spec`, with `FsLog`, `FsCrash`, `FsDisk`, `FileCrash`, `LogHistory`, `AddressSpace`, `IcacheRuns`, `ShellPrint`
and `ShellLines`, hold values, relations and theorems; the others hold the code, as classes and methods that change their state
step by step, proved against them.

Reading notes.

- `panic` ends a run. A method reports it as a result, and the contract says exactly when, or that
  it cannot happen.
- A lock is a critical section: in `ProcSpec`, `PipeSpec` and `IcacheSpec` one step is what happens between
  taking the lock and letting go of it, and theorems are about every sequence of steps.
- Every `bwrite` is atomic and a possible crash point. The disk keeps its `trace` of images.
- Integers are unbounded except where the width matters: pipe counters, `malloc` sizes, the
  `sbrk` argument, file offsets and page-table ranges wrap as 32-bit numbers do.

Where the code does not do what its comments or callers expect, the code is modelled and the exact
condition is proved:

- `deallocuvm` skips 4 MB at a time from wherever it is, so with a hole it can miss pages
  (`AddressSpace.UnmapsAll`, `HoleHides`); without holes it never does.
- `allocuvm` ignores the result of `mappages` and can report success without the last page
  (`Vm.Kernel.Allocuvm` says for which number of free frames).
- `copyuvm` maps every page of the child writable and user-accessible, whatever the parent's
  permissions (`AddressSpace.CopiedPerm`), the guard page below the stack included (`GuardCopied`).
- A removed directory that is still somebody's working directory keeps a `..` that can name a freed
  inode, on which `ilock` panics (`LinkSpec.NamesFree`, `Path.MeetsFreeIff`, `IcacheSpec.StepAlive`,
  `IcacheRuns.UpPanics`). `create` and `link` in such a directory break the count of links
  (`LinkSpec.LinkIff`, `CreateIff`).
- `exit` and `chdir` let go of the working directory outside a transaction, where freeing it panics
  (`IcacheSpec.LastPut`, `IcacheRuns.ExitPanics`, `FileSystem.Volume.Ifree`).
- `kill` takes the pid of a slot that is not in use, 0 for one, and marks the slot, so that a process
  made there later starts out killed (`ProcSpec.MarksKept`, `BornKilled`).
- A killed writer leaves a pipe without waking readers (`PipeSpec.ReadersKept`, `Stranded`).
- `mkfs` leaves the log's bits clear in the bitmap (`Mkfs.WrittenBitmap`, `BallocReachesLog`) and
  can leave a hole at the end of the root directory (`Mkfs.RootRoundingIsSound`).
- `malloc` wraps for sizes just below 4 GB (`Malloc.UnitsHold`), and from 2^28 units on `sbrk` takes
  a negative argument: it leaves the process as it is or shrinks it and succeeds, so that the heap gets
  memory the process does not have (`Malloc.GrowIff`), or takes everything away and then fails
  (`Malloc.LosesAll`, `Vm.Kernel.Growproc`).
- `uthread_create` leaves a dangling slot if its second `malloc` fails (`Uthread.Table.Create`).

## Model

| member | source | states |
|---|---|---|
| BufferCache.Cache.constructor | bio.c:38-56 | All buffers are in the ring once, none is in use, no sector is cached and the disk is untouched |
| BufferCache.Cache.Bget | bio.c:58-93 | Sleeps exactly if the sector is cached in a busy buffer and panics exactly if it is not cached and every buffer is busy or dirty; a recycled buffer is clean, idle and the least recently released such buffer, so a dirty one is never recycled and no sector gets two buffers |
| BufferCache.Cache.FindCached | bio.c:66-79 | The walk from the most recent end finds the one buffer of the sector, or none |
| BufferCache.Cache.FindVictim | bio.c:81-91 | The walk from the least recent end finds the least recently used clean idle buffer; it fails only if there is none |
| BufferCache.Cache.Bread | bio.c:95-105 | The caller gets the uncommitted value of a pinned sector and the disk's value of any other, whatever was cached before; sleeps exactly if somebody holds the sector, panics exactly if it is not cached and every buffer is busy or dirty, and that needs as many held and pinned buffers as there are |
| BufferCache.Cache.Bwrite | bio.c:107-115 | Refuses a buffer that is not held; otherwise exactly that sector of the disk changes, in one step of the trace, and the buffer is no longer dirty |
| BufferCache.Cache.Brelse | bio.c:117-138 | Refuses a buffer that is not held; otherwise moves it to the front of the ring, keeping the order of the others, and frees it |
| BufferCache.UnlinkKeepsLinked | bio.c:127-128 | Taking a buffer out of the doubly linked ring leaves both directions of all the others consistent |
| BufferCache.InsertKeepsLinked | bio.c:129-132 | Putting a buffer behind the head leaves both directions of the ring consistent |
| BufferCache.Cache.CopyHeld | log.c:75-80 | With the log block held: read the destination, copy, write it, let both go: one disk write, which makes the target sector equal to the source sector and unpins it, and leaves a buffer to spare; sleeps exactly if somebody holds the destination, panics exactly if no buffer can be had for it, and then nothing has changed |
| LogSpec.InstallResumes | log.c:69-82 | Installing again after any number of sectors have been installed gives the same disk as installing once |
| LogSpec.RecoverySurvivesCrashes | log.c:115-122 | Any number of recoveries cut off after any disk write, followed by one that finishes, leave the disk a single recovery would leave |
| LogSpec.LogHoldsLastValues | log.c:159-181 | After any log_writes the log blocks hold the last value logged for each sector in the list and the home sectors are untouched |
| LogSpec.CommittedMeansInstalled | log.c:138-143 | Once the header is on disk, recovery produces the old disk with the last logged value of every sector |
| LogSpec.PinnedAreListed | log.c:169-180 | The sectors pinned in the cache are exactly those in the header's list |
| LogSpec.CrashAtomicity | log.c:68-181 | A transaction stopped after any disk write, with any number of crashes during recovery: outside the log the recovered disk is the old one, or from the header write on the old one overlaid with the last value logged for each sector; the log is empty again |
| LogHistory.EpisodeAtomic | log.c:115-149 | One transaction, run to the end or cut off and recovered, leaves all of itself or nothing, according to whether its header reached the disk |
| LogHistory.HistoryAtomic | log.c:53-181 | Over any sequence of transactions, crashes and recoveries the home sectors are those of the first disk with exactly the committed transactions applied, in order |
| Log.Logger.LogWrite | log.c:151-181 | Panics for size exactly when the list has LOGSIZE or size-1 sectors, otherwise exactly outside a transaction, and otherwise exactly if the cache has no buffer for the sector's log block, which takes as many held and listed sectors as there are buffers; it never sleeps; else it adds the update to the transaction and writes one log block, and after a panic the transaction, the pinned sectors and the disk are as before |
| Log.Logger.Search | log.c:169-172 | The slot of a sector already in the list, or the next free one |
| Log.Logger.InstallTrans | log.c:68-82 | The disk goes through exactly the images of installation, one per sector, and nothing stays pinned, whatever buffers others hold; it sleeps at exactly the first listed sector somebody holds, the cache runs out only if held buffers and listed sectors fill it, and then too the history is a prefix of those images |
| Log.Logger.InstallFrom | log.c:68-82 | Installation from any position on, with the log block of that position perhaps held already: it ends at the last one, or at a position from which it can be taken up again |
| Log.Logger.ReadHead | log.c:84-96 | The list in memory becomes the one in the header on disk |
| Log.Logger.WriteHeader | log.c:98-113 | One disk write, after which the header lists the sectors in memory and the rest of the header sector is as before; it never sleeps, and panics exactly if no buffer can be had for the header |
| Log.Logger.RecoverFromLog | log.c:115-122 | The disk becomes the recovered one through exactly the images of recovery, and the log is empty |
| Log.Logger.BeginTrans | log.c:124-133 | Waits exactly while another transaction is running; otherwise starts an empty one |
| Log.Logger.CommitTrans | log.c:135-149 | The transaction's disk writes were exactly the images CrashAtomicity speaks of; afterwards the home sectors have the logged values, nothing is pinned and the log is free, and others hold what they held; on every outcome the writes so far are a prefix of those images, so that a crash or panic is covered; it panics exactly if there is something to commit and no buffer for the header, so never once the header is written; it sleeps at exactly the first listed sector somebody holds, in a state from which CommitRest goes on |
| Log.Logger.CommitRest | log.c:68-82 | What is left of a commit after it has slept is completed or sleeps again, at the first listed sector from there on that somebody holds; it never runs out of buffers |
| Log.Logger.ReadMeanwhile | bio.c:95-105 | While a commit sleeps others may read sectors outside the log, with bread's outcomes: it can still go on |
| Log.Logger.ReleaseMeanwhile | bio.c:117-138 | And may let go of them, the one it sleeps on too |
| FsSpec.AssignKeeps | fs.c:64-70 | Giving a free block to an empty slot of an inode keeps every set bit accounted for by the reserved blocks or by exactly one slot |
| FsSpec.ReleaseKeeps | fs.c:78-95 | Taking a block away from its slot and clearing its bit keeps the same accounting |
| FsSpec.ReleaseUndoesAssign | fs.c:53-95 | Allocating a block for a slot and freeing it again restores bits and addresses |
| FsSpec.EntryAfterSet | fs.c:370-379 | Writing one little-endian word of an indirect block changes that entry and no other |
| FsSpec.PatchSplices | fs.c:477-483 | Patching the block that holds byte o splices the data into the file's bytes at o |
| FsSpec.DenseGrows | fs.c:477-483 | Writing at or before the end leaves no hole below the new end |
| FsSpec.RecycleKeeps | fs.c:186-192 | An inode without blocks can be given another type without disturbing any other inode or the ownership of blocks |
| FileSystem.Volume.LogWrite | log.c:159-181 | Panics exactly outside a transaction, logging nothing, or on a log without room, which tooBig records; otherwise the sector is logged and every change since the transaction began is in the log |
| FileSystem.Volume.Balloc | fs.c:52-76 | Takes the lowest free block, sets its bit, zeroes it and logs exactly those two sectors; panics exactly if no bit is clear or no transaction is open |
| FileSystem.Volume.Bfree | fs.c:78-95 | Clears the bit and logs its sector; panics exactly on a free block or outside a transaction |
| FileSystem.Volume.Bmap | fs.c:351-384 | The address of the n-th block, allocating it, and the indirect block, at most once and nothing else; contents of all files and all existing addresses stay; out of range exactly from MAXFILE on; it panics exactly if blocks are missing and there are fewer free ones, or no transaction is open; nothing changes if it was mapped |
| FsSpec.NewAdd | fs.c:351-384 | The blocks two writes in a row take are those the whole range takes, also where they share a block |
| FileSystem.Volume.Iupdate | fs.c:200-217 | The disk's copy of the inode becomes the one in memory; only its sector is logged; panics exactly outside a transaction |
| FileSystem.Volume.Readi | fs.c:433-458 | Returns the file's bytes from off, clipped to its size, and changes nothing: reading never allocates; fails exactly past the end or on 32-bit overflow |
| FileSystem.Volume.Writei | fs.c:461-492 | Replaces exactly bytes off..off+n of the file's contents, growing it if need be; other files are unchanged; the disk's inode equals the one in memory although it is written only on growth; block ownership and no-holes are kept; every change is in the log and only the inode, bitmap, indirect and written blocks are; exactly the missing blocks of that range are taken, and it panics exactly if there are fewer free ones or no transaction is open, where nothing is logged and only an empty write succeeds; the log is found full only if it is full at the end |
| FileSystem.Volume.Itrunc | fs.c:386-419 | Panics exactly outside a transaction, logging nothing; otherwise frees exactly the blocks the inode owned, leaves it empty and other files unchanged; the panic on freeing a free block cannot happen; logs the inode and bitmap sectors only |
| FileSystem.Volume.Ialloc | fs.c:173-198 | The lowest inode with type 0, now empty and of the given type; panics exactly if there is none or no transaction is open; others unchanged |
| FileSystem.Volume.Ifree | fs.c:315-336 | What iput does for the last reference to an unlinked inode: exactly inside a transaction its blocks and the inode itself become free, other files unchanged; outside one it panics and nothing is logged |
| FsLog.LogSector | fs.c:64-70 | Changing one sector and then logging it keeps the log, replayed on the disk at the start of the transaction, equal to the file system as it is now |
| FsCrash.OverlayIsReplay | log.c:159-181 | Applying the logged sectors to the old disk image gives the image of the file system at the end, for every encoding in which a sector depends only on what it stores |
| FsCrash.TransactionAtomic | log.c:17-31 | A file-system transaction stopped after any disk write and recovered through any number of crashes leaves on disk the file system from before it or from after it |
| FsCrash.ChunkFits | file.c:123-131 | A transaction with fewer than LOGSIZE sectors, all outside the log, fits the log mkfs leaves at the end of the disk, so the theorem applies to it |
| FsDisk.LayoutEncodes | fs.h:4-55 | In the layout of super block, inodes, bitmap and data blocks in words of a sector, a sector depends only on what the file system keeps in it |
| FsDisk.DecodeBack | fs.h:4-55 | Reading back a disk that holds a sound file system gives a sound one with the same bits, types and, byte for byte, files; the 16-bit fields are cut |
| FsDisk.TransactionDecoded | log.c:17-31 | A transaction stopped after any disk write and recovered: the file system read from the disk is sound and has the files from before it or those from after it |
| File.FewSectors | file.c:123-131 | A write to at most four blocks logs at most six sectors besides those of the bitmap |
| File.WriteChunk | file.c:134-148 | One transaction of at most 1536 bytes, begun and ended: the data is spliced in at the offset, at most six sectors and those of the bitmap are logged, all outside the log, and the log covers every change; fails exactly past the end or past the largest file; with up to two bitmap sectors it panics exactly if the chunk takes more blocks than are free, never for the size of the log |
| File.Filewrite | file.c:115-155 | A chain of transactions, one per chunk, each logging all it changes in few sectors and leaving a sound file system with the file spliced up to that chunk; the chunks together splice all n bytes at the offset, or as many whole chunks as the largest file takes; whether it succeeds, fails or panics is told from the free blocks and the sizes before the call |
| FileCrash.ChunksFit | file.c:123-131 | With up to three bitmap sectors every committed transaction of filewrite is one the log can hold, so the crash theorem applies to it |
| FileCrash.FilewriteCrash | file.c:115-155 | filewrite cut off after any disk write, in any chunk, or ended by a chunk that fails, and recovered through any number of crashes, leaves on disk a sound file system whose file is the old one with a whole number of chunks spliced in, other files unchanged, and an empty log |
| FileCrash.FilewriteDecoded | file.c:115-155 | Read back from the words of the disk after such a history, the file system is sound, the file has its old bytes with a whole number of chunks spliced in, and every other file its own |
| FileCrash.ChunkFindsBuffer | bio.c:81-92 | The panic for want of buffers cannot happen while the sectors logged and the buffers held are fewer than there are buffers |
| FsCalls.Link | sysfile.c:122-160 | The transaction of link logs at most four sectors besides those of the bitmap, covers all its changes and leaves a sound file system: a link more and the entry's bytes in the directory, all other inodes and all other contents as they were, or exactly the old disk if the name is there; it panics exactly if the entry cannot be written |
| FsCalls.Unlink | sysfile.c:211-224 | So does that of unlink: the entry is zeroed and the links are gone; a file that keeps a link or a reference keeps its contents and the rest of its inode, one that does not is emptied and exactly its blocks become free; all other inodes and contents are as they were; it never panics on an entry inside a directory |
| FsCalls.Create | sysfile.c:254-276 | So does that of create and mkdir, with at most six such sectors: the first free inode with its type, device numbers and one link, its two dot entries if it is a directory, and its entry in the parent, all others as they were; it panics exactly if there is no free inode or no room for the dots and the entry |
| FsCalls.EntryInside | fs.c:461-492 | An entry inside a directory can always be written, with no block more |
| FsCalls.NotTooBig | log.c:164-165 | With up to two bitmap sectors none of these transactions finds the log full |
| FileCrash.CallFits | log.c:164-165 | And each is one the log can hold, so the crash theorem applies to it |
| Mkfs.BlankIsSound | mkfs.c:83-113 | The empty image satisfies the ownership and no-holes invariant, with the log's blocks counted as reserved |
| Mkfs.Image.Ialloc | mkfs.c:214-226 | Hands out inodes in order, each empty with one link, keeping the invariant |
| Mkfs.Image.Iappend | mkfs.c:244-293 | Appends exactly the given bytes to the inode, other inodes unchanged, taking blocks in order and keeping the invariant that fs.c relies on; it fails exactly if the file gets too long or the blocks of the longer file do not fit before the log |
| Mkfs.RootRoundingIsDense | mkfs.c:142-148 | Rounding the root directory's size up leaves no hole exactly if the size was not already a multiple of the block size |
| Mkfs.RootRoundingIsSound | mkfs.c:142-148 | So the finished image satisfies the ownership and no-holes invariant exactly then |
| MkfsBoot.ImageBoots | mkfs.c:102-148 | An image with a root directory of these entries, padded to whole blocks, is one the kernel's invariants start from exactly if the names, cut to 14 characters, are different and none is a dot name |
| MkfsBoot.MakeImage | mkfs.c:102-148 | main, for any list of files: it succeeds exactly if there are inodes and blocks for the root directory and all files and none is too long; then each file's inode has its bytes, one link and one entry, and the kernel can start on the image exactly if the names, cut to 14 characters, are different and none is a dot name |
| Mkfs.WrittenBitmap | mkfs.c:228-242 | The bitmap as written agrees with the ownership of blocks exactly if there is no log: the log's bits are left clear |
| Mkfs.BallocReachesLog | fs.c:60-70 | With a log, balloc's scan finds the first block after the used ones, and that is a log block once the disk is full |
| Mkfs.BitmapSector | mkfs.c:228-242 | The bytes or-ed together have exactly the bits below `used` set |
| Malloc.StopsAtPlace | umalloc.c:30-32 | free's walk stops at exactly one block of the ring, the one before the place of the freed block, wherever it starts |
| Malloc.FreeKeeps | umalloc.c:24-44 | Inserting a freed block and joining it with its neighbours keeps an address-ordered ring of disjoint, non-touching free blocks, disjoint from all live ones, with the same total of units |
| Malloc.TakeKeeps | umalloc.c:75-86 | Taking all or the tail of a free block keeps the same invariant with the taken block live |
| Malloc.GrowKeeps | umalloc.c:50-60 | Memory obtained from sbrk joins the heap as a block disjoint from all others |
| Malloc.GrowIff | umalloc.c:46-61 | With sbrk's argument cut to 32 bits and negative from 2^28 units on, the block morecore frees lies inside the process, and the heap invariant survives, exactly below 2^28 units |
| Malloc.LosesAll | umalloc.c:54 | For every process size there is a request that makes sbrk take away all of it |
| Malloc.UnitsHold | umalloc.c:69 | A block of the computed number of units holds nbytes exactly if nbytes is at most 2^32-8: above that the 32-bit sum wraps and one unit is asked for |
| Malloc.SbrkArgRight | umalloc.c:54 | The argument of sbrk is the number of bytes meant exactly below 2^28 units |
| Malloc.Allocator.Sbrk | sysproc.c:45-57 | The old size and the new one for a growing, an empty and a shrinking request; fails exactly if memory or the address space runs out, or if all memory is taken away, headers included; a request to shrink by more than there is changes nothing and succeeds; without a table for the last page it succeeds without that page |
| Malloc.Allocator.Search | umalloc.c:29-32 | The walk ends, at the place of the block |
| Malloc.Allocator.Free | umalloc.c:24-44 | The block is no longer live, all other live blocks are untouched, and its units are found at freep or right after it |
| Malloc.Allocator.Morecore | umalloc.c:46-61 | It breaks the heap exactly from 2^28 units on, or when the last page is missing; otherwise it fails exactly if sbrk does, and else at least 4096 units join the free list with a large enough block at or right after freep |
| Malloc.Allocator.Malloc | umalloc.c:63-90 | For every size: morecore is called exactly if no block of the list fits, and once; without it the tail of the first fitting block after freep is taken; it breaks the heap exactly if that call is for 2^28 units or more or its last page is missing; otherwise the block returned is new, disjoint from all live ones and of the computed size, and it returns 0 exactly if sbrk refuses |
| VmSpec.MapKeeps | vm.c:83 | Mapping a new frame at an unmapped user page keeps directory, tables and user frames all different and accounted for |
| VmSpec.UnmapKeeps | vm.c:263-269 | Unmapping a user page gives up exactly its frame |
| VmSpec.AddTableKeeps | vm.c:54-62 | A new blank table makes no page appear or disappear |
| Vm.Kernel.Freerange | kalloc.c:45-52 | Exactly the whole pages inside the range join the free list, each once |
| Vm.Kernel.Kalloc | kalloc.c:79-95 | Hands out the head of the free list, or 0 if it is empty |
| Vm.Kernel.Kfree | kalloc.c:54-77 | Panics exactly on an address that is no page frame between the kernel's end and PHYSTOP; otherwise the frame heads the free list |
| Vm.Kernel.Walkpgdir | vm.c:42-65 | The table for a page; a missing one is made if asked and a frame is free, changing no mapping; frames are conserved |
| Vm.Kernel.Mappages | vm.c:67-90 | Maps consecutive pages to consecutive frames and changes no other page, also for a range that ends at 2^32; panics exactly at the first page already mapped that it has the frames to come to, fails exactly if the tables on the way need more frames than are free, and takes exactly those |
| AddressSpace.KernelLayout | vm.c:92-125 | The kernel's table maps physical memory at KERNBASE, device space to itself and no user page, with text and read-only data not writable |
| AddressSpace.KernelApart | vm.c:115-125 | No two of the kernel's ranges overlap, including the one whose end wraps to 0 |
| Vm.Kernel.Setupkvm | vm.c:127-144 | A directory with exactly the kernel's mappings, made exactly if 65 frames are free and from 65 frames; the remap panic is unreachable; on failure all free frames have been taken and are not given back |
| AddressSpace.KernelDemand | vm.c:115-144 | The tables each of the kernel's four ranges takes, 64 together, wherever the kernel's data begins |
| AddressSpace.UnmapsAll | vm.c:257-270 | deallocuvm unmaps everything it is asked to exactly if nothing is mapped between the first page and the page its table-sized skips make it start at |
| AddressSpace.UnmapsPrefix | vm.c:245-273 | On an address space without holes it always does, wherever it starts |
| AddressSpace.HoleHides | vm.c:259-260 | With a hole it may not: without a table for page 1 and with page 1024 mapped, freeing from page 1 on starts at page 1025 |
| Vm.Kernel.Deallocuvm | vm.c:245-273 | For any table: exactly the pages from the start page to the old size are unmapped, their frames go to the free list once each, and the kfree panic is unreachable |
| AddressSpace.GrownPrefix | vm.c:228-242 | After a successful allocuvm the address space has no holes again |
| Vm.Kernel.Allocuvm | vm.c:218-243 | With enough free frames all pages are mapped to new zeroed frames; with just the last page's table missing it reports success without that page and loses a frame; with fewer it fails and every page is mapped as before; each case exactly when the number of free frames says so; tables and bytes change only in free frames and its own |
| Vm.Kernel.Freevm | vm.c:275-292 | Every user frame, table and the directory of any address space is on the free list exactly once, so freeing a copy restores the free frames from before it |
| Vm.Kernel.Copyuvm | vm.c:307-336 | On success every page of the child below sz reads as the parent's does, through frames of its own, with the kernel's mappings above; the parent is unchanged, and tables and bytes change only in frames that were free; it panics exactly at a hole it has the frames to come to, and otherwise succeeds exactly if there are frames for the directory, the kernel's tables, the pages and their tables, so a process without holes is always copied then; on failure at most one frame is lost, or what setupkvm took if it was setupkvm that failed |
| AddressSpace.PrefixWhole | vm.c:319-323 | A process without holes has no page at which its copy could panic |
| Vm.Kernel.Growproc | proc.c:107-123 | Grows as allocuvm does; shrinks to exactly the pages below the new size; a request that takes away everything fails, with every page already gone and the size unchanged; one that takes away more than there is changes nothing |
| AddressSpace.Isolation | vm.c:218-336 | So any set of other address spaces keeps its tables, pages and bytes when one is grown, shrunk, copied or freed |
| AddressSpace.CopiedPerm | vm.c:328 | A page of a copy has the parent's permissions exactly if those are PTE_W and PTE_U |
| Vm.Kernel.Clearpteu | vm.c:294-305 | Takes PTE_U from one page and changes no other; panics exactly if there is no table for it |
| AddressSpace.GuardCopied | vm.c:294-336 | The page below the stack, taken from the user by exec, is the user's again in a forked child |
| ProcSpec.StepTree | proc.c:166-247 | Every step keeps: a parent is alive, only init and unused slots have none, whoever sleeps in wait has a child, and no zombie's parent sleeps in wait |
| ProcSpec.ExitTree | proc.c:186-201 | exit leaves nobody with the exiting process as parent and nobody asleep in wait with a zombie child |
| ProcSpec.StepCpus | proc.c:274-325 | Every step keeps: a process is RUNNING exactly if one processor runs it, and then only one |
| ProcSpec.StepPids | proc.c:47-50 | Every step keeps: pids in use are different, exited pids are those of zombies or already returned by wait, and wait returns each once |
| ProcSpec.StepApart | proc.c:47-50 | Every step keeps: no two slots have the same pid other than 0, in use or not |
| ProcSpec.NoLostExit | proc.c:166-247 | In every run, a process asleep in wait has a child and no zombie child, and no process has a dead parent |
| ProcSpec.OneCpuEach | proc.c:274-305 | In every run, no process is on two processors |
| ProcSpec.ReapedOnce | proc.c:206-247 | In every run, the pids wait returns are exited ones, each returned once; an exited pid not returned is that of a zombie whose parent is not asleep in wait |
| ProcSpec.ExitIsSeen | proc.c:186-202 | An exit makes a parent asleep in wait RUNNABLE, with a zombie child to find |
| ProcSpec.SleepLasts | proc.c:357-437 | A process that goes to sleep on an address stays asleep on it through every run, until the first wakeup of that address or kill of its pid, and is RUNNABLE right after it |
| ProcSpec.RunnableLasts | proc.c:283-300 | A RUNNABLE process stays RUNNABLE through every run until a processor takes it, and is marked as killed only by a kill of its pid |
| ProcSpec.KillHits | proc.c:416-437 | kill of the pid of a slot in use marks that process, leaves it awake and changes no other |
| ProcSpec.MarksKept | proc.c:416-437 | A step leaves a mark on a slot not in use exactly if it kills a pid such a slot has, or gives up an EMBRYO already killed |
| ProcSpec.MarkedByKill | proc.c:416-437 | So in every run without such a step only kills of its own pid mark a process |
| ProcSpec.BornKilled | proc.c:416-437 | With one, after kill(0), a forked child starts out killed |
| Proc.Ptable.Allocproc | proc.c:34-50 | The first UNUSED slot becomes an EMBRYO with the next pid, exactly if there is one; the invariant stays |
| Proc.Ptable.Wakeup1 | proc.c:394-405 | Slot by slot: whoever sleeps on the channel becomes RUNNABLE, every other slot is as it was |
| Proc.Ptable.Wakeup | proc.c:407-414 | The same for an address, keeping the invariant |
| Proc.Ptable.PassChildren | proc.c:191-198 | Slot by slot: exactly the children of the process go to init, which is woken exactly if one is a zombie |
| Proc.Ptable.Exit | proc.c:163-204 | Panics exactly for init; otherwise the process is a zombie and off its processor, its parent and perhaps init are awake, its children are init's, and every other slot is as it was; the invariant stays |
| Proc.Ptable.Wait | proc.c:206-247 | Returns the first zombie child's pid and frees its slot; otherwise -1, asleep on its own slot exactly if there is a child and the caller is not killed; nothing else changes |
| Proc.Ptable.Kill | proc.c:416-437 | Exactly the first slot with the pid is marked, and RUNNABLE if it was asleep; every other slot is as it was; tells whether there is one |
| Proc.Ptable.Schedule | proc.c:283-300 | Runs the first RUNNABLE process at or after a slot, on this processor only |
| Proc.Ptable.Sleep | proc.c:357-392 | The caller sleeps on the channel and leaves its processor in one step; nothing else changes |
| Proc.Ptable.Yield | proc.c:327-335 | The caller becomes RUNNABLE and leaves its processor in one step; nothing else changes |
| Proc.Ptable.ForkParent | proc.c:146 | Only the parent of the EMBRYO is set, and the invariant stays before the child can run |
| Proc.Ptable.ForkDone | proc.c:157-160 | The child becomes RUNNABLE and its pid is returned |
| PipeSpec.StepKeeps | pipe.c:58-120 | Every step keeps: bytes read are a prefix of bytes written with at most 512 in flight, and a sleeping writer means a full pipe with its read end open |
| PipeSpec.RunKeeps | pipe.c:58-120 | So in every run of any number of readers, writers, closes and kills |
| PipeSpec.ReadersKept | pipe.c:82-97 | A step keeps sleeping readers to an empty pipe with its write end open exactly if it is not a killed (or readerless) writer with more than 512 bytes finding readers asleep |
| PipeSpec.RunReaders | pipe.c:76-120 | So in every run without such a step |
| PipeSpec.NeverBothAsleep | pipe.c:76-120 | Then readers and writers never sleep at the same time |
| PipeSpec.Stranded | pipe.c:84-88 | With such a step a reader can be left asleep on a full pipe |
| PipeSpec.FreedIdle | pipe.c:58-74 | In every run nobody sleeps at one end when the other is closed, so a pipe is freed without sleepers |
| PipeSpec.TakenIsNext | pipe.c:112-116 | A reader gets the next bytes of the stream: as many as it asked for, or all there are |
| PipeSpec.KilledAwake | pipe.c:76-120 | Once killed, a process is left asleep at the pipe by no run |
| PipeSpec.EndsClosed | pipe.c:58-74 | In every run an end is open exactly if it has not been closed |
| PipeSpec.EndOfFile | pipe.c:99-120 | So after the write end is closed a reader never sleeps: it gets what is left, then nothing |
| Pipe.Counters | pipe.c:84-115 | The wrapping 32-bit counters tell empty, full and the slot of a byte apart correctly, because 512 divides 2^32 |
| Pipe.Ring.Pipewrite | pipe.c:76-97 | One critical section of pipewrite is the writer's step on the stream, for any counter values: it puts in what there is room for, is done exactly if that is all, else fails exactly if it is killed or nobody reads, else sleeps; readers are woken except when it fails |
| Pipe.Ring.Piperead | pipe.c:99-120 | One critical section of piperead is the reader's step on the stream, for any counter values: with bytes there or the write end closed it takes as many as it asked for or all there are and wakes the writers; else it fails exactly if it is killed, and sleeps otherwise |
| Pipe.Ring.Pipeclose | pipe.c:58-74 | Exactly the given end is closed and the other side's sleepers are woken; the pipe is freed exactly if both ends are closed |
| Grep.Matchhere | grep.c:83-95 | True exactly if a prefix of the text, all of it under a final $, is a word of the pattern's language |
| Grep.Matchstar | grep.c:97-105 | True exactly if some number of leading characters match c and a prefix of the rest matches the pattern |
| Grep.Match | grep.c:71-81 | True exactly if some substring is a word of the pattern's language, at the start under ^ and up to the end under $ |
| Grep.LiteralWord | grep.c:92-93 | Without special characters the only word of a pattern is itself |
| Uthread.Closer | uthread.c:112-136 | Whoever is not chosen by a switch is strictly fewer slots ahead than before |
| Uthread.RunsWithin | uthread.c:147-226 | A waiting thread runs before as many switches have happened as it is slots away, whatever yields, exits and creates the run consists of |
| Uthread.Fair | uthread.c:147-226 | So within 63 switches |
| Uthread.Table.Create | uthread.c:33-109 | The lowest free slot holds the thread with that id; -1 exactly if the table is full or a malloc fails; the table stays sound exactly unless the second malloc fails, which leaves a dangling slot |
| Uthread.Table.NextThread | uthread.c:112-136 | The loop ends and returns the first thread from start on, going round, whose tid is its slot |
| Uthread.Table.Yield | uthread.c:147-179 | The next thread round runs; the table is unchanged |
| Uthread.Table.GetHighestP | uthread.c:181-191 | The least priority value in the table, at most 9 |
| Uthread.Table.Exit | uthread.c:195-226 | The thread's slot is free and the next thread round runs, or all are done; highest_p is again the least priority value in the table |
| Uthread.Table.StartAll | uthread.c:228-256 | Starts the first thread exactly if there is one and none runs yet |
| ShellSpec.RoundTrip | sh.c:328-447 | Parsing the fully parenthesised print of any command with well-formed words and at most 9 arguments each gives back that command and consumes the line |
| ShellSpec.ReadBack | sh.c:345-447 | The same inside a line, up to a closing parenthesis |
| ShellPrint.RoundTripMin | sh.c:328-447 | The same for a print with as few parentheses as possible: pipes bind tighter than ampersands and those tighter than semicolons, both pipes and semicolons group to the right, and redirections follow the words or the block |
| ShellPrint.LineMin | sh.c:345-373 | The same inside a line, up to a closing parenthesis |
| ShellPrint.AnyOrder | sh.c:416-447 | In a simple command redirections may stand anywhere among the words: the words make up the command and the redirections wrap it, each in the order they come |
| ShellPrint.AppendIsOut | sh.c:389-394 | A redirection with >> parses as one with > |
| ShellPrint.LeadingSpace | sh.c:273-274 | White space before a command makes no difference |
| ShellSpec.ParsedIsPrintable | sh.c:328-447 | Every command the parser returns is well-formed, and its print parses to it again |
| ShellSpec.BlockReached | sh.c:405-406 | No line makes the parser reach the panic of parseblock |
| ShellLines.Accepted | sh.c:328-447 | A line is accepted exactly if one pass over its tokens, with a count of open parentheses, comes to its end: every redirection has a file, no simple command has ten words, a parenthesis opens only where a command starts, no word follows a block or an ampersand, and all parentheses are closed |
| ShellLines.Balanced | sh.c:400-414 | The parentheses of an accepted line match |
| ShellLines.NothingLost | sh.c:328-447 | The command of an accepted line has all words, operators and redirections of the line, in order, and no others |
| Shell.Parser.Peeks | sh.c:311-321 | Skips white space and tells whether the next character is one of those given; false at the end |
| Shell.Parser.Gettoken | sh.c:266-309 | The next token, >> before >, and the whole word it points at, with the white space after it skipped |
| Shell.Parser.Parseredirs | sh.c:375-398 | The redirections that follow, or the panic on a missing file |
| Shell.Parser.Parseargs | sh.c:430-446 | The words and redirections of a simple command; panics on a wrong token and on the tenth word |
| Shell.Parser.Parseexec | sh.c:416-447 | A block or a simple command, as the grammar says |
| Shell.Parser.Parseblock | sh.c:400-414 | A parenthesised line and its redirections, or the panic on a missing parenthesis |
| Shell.Parser.Parsepipe | sh.c:362-373 | A pipeline, grouped to the right |
| Shell.Parser.Parseline | sh.c:345-360 | A list of background and foreground commands; the mutual recursion terminates by bytes left and grammar level |
| Shell.Parser.Parsecmd | sh.c:328-343 | The command of the whole line, or the panic on leftovers; every word it points at is a whole word of the line |
| Shell.EndsOutside | sh.c:449-494 | The character after a recorded word is never part of a word, so no NUL is written into one |
| Shell.Nulterminate | sh.c:449-494 | Exactly the characters after the recorded words become NUL |
| Shell.TextIs | sh.c:449-494 | After termination every argument and file name, read as a C string, is exactly its token |
| Shell.ParseLineIn | sh.c:328-343 | parsecmd on a buffer: the command read back from it as C strings is the one the grammar gives for the line |
| LinkSpec.LinkKeeps | sysfile.c:135-146 | A new name for a file and one more link keep nlink equal to the number of names in linked directories, unique names and the dots in front |
| LinkSpec.UnlinkKeeps | sysfile.c:206-222 | So does unlink, of a file or of an empty directory, which also takes a link from the parent |
| LinkSpec.CreateKeeps | sysfile.c:254-272 | So does create, of a file or of a directory with its dots, which also gives a link to the parent |
| LinkSpec.NamedHasLink | sysfile.c:204-205 | The panic for nlink below 1 is unreachable, and no directory names itself |
| LinkSpec.ErasableIff | sysfile.c:193-208 | What unlink checks of an entry holds in a linked directory only, since a removed one is bare, and the inode it names has a link |
| LinkSpec.EmptyDirRefs | sysfile.c:162-176 | An empty directory has exactly one link, the name about to be removed, and its .. names the directory it is in |
| LinkSpec.FreeKeeps | fs.c:315-336 | Freeing an inode without links leaves no name without an inode in a linked directory, and removed directories bare |
| LinkSpec.ClimbsToRoot | sysfile.c:263-269 | From every linked directory .. leads to the root |
| LinkSpec.LinkIff | sysfile.c:135-146 | A new name keeps the invariant exactly if the directory it is put in has links |
| LinkSpec.CreateIff | sysfile.c:254-272 | So does create, for any choice of homes and depths: in a removed directory that is still somebody's working directory it never does |
| LinkSpec.NamesFree | fs.c:503-529 | A non-empty entry of a directory names a free inode exactly if the directory has been removed, the entry is .. and the parent has been freed |
| LinkSpec.ParentGone | sysfile.c:179-232 | It happens: after create p, create p/d, unlink p/d, unlink p and freeing p, the removed d has a .. that names the free inode |
| Links.Directories.Dirlookup | fs.c:503-529 | The first non-empty entry of the name, or none |
| Links.Directories.Dirlink | fs.c:531-559 | Fails exactly if the name is there; otherwise fills the first empty slot or appends, changing nothing else |
| Links.Directories.Isdirempty | sysfile.c:162-176 | True exactly if nothing but the two dots is in the directory |
| Links.Directories.Link | sysfile.c:114-160 | Succeeds exactly for a non-directory, an existing target directory and a new name; the failing paths leave the file system as it was, the link taken back; the invariant stays exactly if nothing was added or the target directory has links |
| Links.Directories.Unlink | sysfile.c:179-232 | In any directory: removes the name and the links, or fails on a dot, a missing name or a directory with entries and changes nothing; the invariant stays |
| Links.Directories.Create | sysfile.c:234-277 | In any directory: returns the existing file, 0 for another existing name, or a new inode with its name; the invariant stays exactly if nothing was added or the directory has links |
| Links.Directories.Free | fs.c:315-336 | iput of the last reference frees an inode without links; the invariant stays |
| Path.Skipelem | fs.c:564-599 | Nothing exactly if the path has no element; otherwise its first element, cut to 14 characters, and a rest with the other elements and no leading slash, empty exactly if there are none |
| Path.JoinElements | fs.c:577-599 | The elements of a path put together from names of any length are the names, each cut to its first 14 characters |
| Path.ExtraSlash | fs.c:570-574 | Repeated slashes make no difference to the elements |
| Path.Namex | fs.c:601-637 | The inode reached by following the elements from the root or the working directory, or with nameiparent the directory before the last element and that element; none exactly if an element is missing or stands in something that is no directory; the panic of ilock exactly if the walk locks a free inode |
| Path.ParentThenLookup | fs.c:639-650 | What namei finds is what the last element names in the directory nameiparent finds |
| Path.MeetsFreeIff | fs.c:601-637 | The walk meets a free inode exactly if some prefix of the elements leads to a removed directory, the next element is .. and its parent has been freed |
| Path.LinkedStart | fs.c:601-637 | From a directory with links, the root for one, it never does, whatever the path |
| Path.GoneUp | sysfile.c:358-374 | From a removed working directory whose parent has been freed, .. and anything after it does |
| Path.LinkNames | sysfile.c:128-147 | After link the new name leads to the file and every other name in every directory where it led; only the file's links are one more |
| Path.UnlinkNames | sysfile.c:211-221 | After unlink the name leads nowhere and every other name where it led; only the file's links, and the directory's if the file was one, are one fewer |
| Path.CreateNames | sysfile.c:254-276 | After create the name leads to the new inode and every other name where it led; a new directory has its dots and its parent a link more |
| IcacheSpec.CacheKeeps | fs.c:219-344 | Every step of iget, ialloc, idup, ilock, iunlock, the three parts of iput, create, link and unlink, with any lookup in a locked directory, keeps: counts are the references held, one slot per inode, a valid copy is the disk's, and an allocated inode that lost its links is cached |
| IcacheSpec.StepKeeps | fs.c:219-344 | Besides, it keeps the invariant of the directories, but for a new name in a removed directory |
| IcacheSpec.OffTreeBreaks | sysfile.c:234-277 | Such a name breaks that invariant every time |
| IcacheSpec.StepAlive | fs.c:219-336 | A step leaves nobody but the freeing iput with a reference to a free inode exactly if it does not stray: follow .. of a removed directory to a parent freed or about to be, or return from ialloc an inode lost that way |
| IcacheSpec.StopsFor | fs.c:219-336 | Which step panics when: ilock exactly on a free inode, iget exactly without a slot, a logged write exactly outside a transaction; iput on a locked inode and unlink of an inode without links never |
| IcacheSpec.References | fs.c:268-336 | In every run of any number of processes iput never finds the inode it frees locked; the count is the number of references; an inode is in one slot at most; who has an inode locked sees it as it is on disk; an inode about to be freed has no links, although iput lets go of the lock in between |
| IcacheSpec.NeverFree | fs.c:268-336 | In every run without a lookup of .. or a new name in a removed directory ilock never finds a free inode, and an inode is freed on disk only when nobody else refers to it |
| IcacheSpec.UpPanics | fs.c:294-295 | From any state, following such a .. to a freed parent and locking what it finds panics |
| IcacheRuns.UpPanics | sysfile.c:358-374 | A run from boot that does: working directory /p/d, unlink both, free p, look up .. |
| IcacheSpec.NoLeak | fs.c:312-336 | In every run an allocated inode that lost its last link still has a reference, and the iput of the last one sets out to free it |
| IcacheSpec.LastPut | fs.c:312-336 | That iput frees the inode exactly if a transaction is open; otherwise log_write panics |
| IcacheRuns.ExitPanics | proc.c:183 | A run from boot that ends so: the working directory is unlinked in a transaction and let go outside one, as exit and chdir do |
| Icache.Cache.Iget | fs.c:219-253 | The slot of a cached inode, or else the first unused slot, with one reference more; panics exactly if there is neither; the invariant stays, whatever the number |
| Icache.Cache.IallocDisk | fs.c:188-191 | The first half of ialloc: a free inode is allocated on disk exactly if a transaction is open; the invariant stays |
| Icache.Cache.IallocGet | fs.c:193 | The second half, after others may have run: a reference to it; the invariant stays, also while an iput of its former life is still running |
| Icache.Cache.Idup | fs.c:255-264 | One reference more and nothing else; the invariant stays |
| Icache.Cache.Ilock | fs.c:266-297 | Waits exactly while the inode is locked; then panics exactly if the inode is free, and otherwise the copy in memory is valid and equal to the disk's |
| Icache.Cache.Iunlock | fs.c:299-310 | The lock is given up and nothing else; the invariant stays |
| Icache.Cache.Iput | fs.c:312-336 | Sets out to free exactly on dropping the last reference to a valid copy without links, which is then not locked; otherwise drops the reference; also when the caller has the inode locked and holds a second reference |
| Icache.Cache.IputFree | fs.c:327-329 | The inode becomes free on disk exactly if a transaction is open; otherwise log_write panics and it stays |
| Icache.Cache.IputEnd | fs.c:330-334 | Afterwards whoever got the inode meanwhile has a copy that is not valid and will read it from disk |

## Left out

- FileSystem.Volume.Writei: the ownership invariant counts the log's blocks as reserved, which the bitmap mkfs writes does not guarantee (Mkfs.WrittenBitmap); on a full disk balloc could hand out a log block.
- FileSystem.Volume.Balloc: the bitmap is a sequence of bits and the inode table a sequence of records; only mkfs's bitmap bytes (Mkfs.BitmapSector) and the words of indirect blocks are modelled down to bytes.
- FileSystem.Volume.Readi: the major-device dispatch is an outcome; what a device returns is not modelled.
- FsCrash.TransactionAtomic: is for any encoding of sectors; FsDisk.TransactionDecoded is for the one on disk, in which numbers of devices and links are cut to 16 bits.
- File.Filewrite: is for a file system whose log lies after the data blocks; with more than two bitmap sectors a chunk may find the log full. That the panic for want of buffers stays away is shown for a given number of held buffers (FileCrash.ChunkFindsBuffer), not for a scheduler.
- FsCalls.Unlink: the directories that namei lets go of on the way, the last reference to a removed one perhaps, are not part of its transaction. exec logs nothing.
- Log.Logger.LogWrite: nobody but log.c holds buffers of log sectors; that a commit which sleeps is woken is not shown.
- Log.Logger.RecoverFromLog: is for a header that lists sectors outside the log, each once, as write_head leaves it, and for the first process, before others hold buffers.
- BufferCache.Cache.Brelse: the holder has written or logged what it changed, as the comment on log_write asks.
- Malloc.Allocator.Malloc: what a program does after a request has broken the heap is not followed further. That the last page is missing is an answer of the kernel there; Vm.Kernel.Allocuvm says for which number of free frames.
- Vm.Kernel.Mappages: a range of user pages is a single page, the only way vm.c uses it; size is not 0 and the range does not run past 2^32.
- Vm.Kernel.Kfree: the junk byte fill is not modelled; the contents of free frames are left open.
- Vm.Kernel.Setupkvm: the symbol data is page-aligned between the kernel's text and the end of memory, as the linker script places it.
- Proc.Ptable.Allocproc: pids are unbounded; a wrap of nextpid after 2^31 forks is not modelled. The kernel stack, trap frame and file table of a process are not either.
- Links.Directories.Create: a full disk, where dirlink panics, the 16-bit width of nlink and the device numbers of a device file are not modelled.
- Links.Directories.Link: each system call is one step, and all inodes are on one device.
- Shell.Parser.Parseexec: the command under construction is put together once its words and redirections are known; in sh.c the redirections already point at it while it is filled.
- Uthread.Table.Create: priority scheduling is not compiled in and not modelled; uthread_setpr leaves highest_p as it is.
- Grep.Match: grep's reading of lines, which drops an unterminated last line, is not modelled.
- Path.Namex: the references namex takes and drops on the way are not modelled; names are compared as whole strings of at most 14 characters.
- Icache.Cache.Ilock: of an inode only type, links and directory entries are modelled there; file contents are the business of the file-system model. create, link and unlink are one step each. A crash, after which an unlinked open file keeps its blocks, is not part of these runs.
- The table of open files: filealloc, filedup and fileclose.
- Spinlocks, interrupts, context switches, device drivers, boot code, system-call arguments, exec and the user programs that only wrap system calls.
