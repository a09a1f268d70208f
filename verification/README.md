# A model of a small RISC-V kernel, and what holds of it

The kernel is an xv6-style system in Rust with a small userland: a RAM-disk file system
behind two caches, Sv39 address spaces, processes with fork, exit and wait, pipes and open
files, a console with line editing, and in user space a heap allocator and a shell with
pipelines. This project models the parts of it that carry state through many branches and
states what they guarantee.

## How the model is built

Code that updates things in place is modelled by classes and methods with loops; each method
is tied to a value-level description of the old and new state, and the properties are proved
about that description. Protocols between processes are transition systems, and their
theorems speak about every state of every run. One module per component:

| module | component |
|---|---|
| Prelude | the two types every module shares |
| FreeList, UserAllocator | first-fit user heap: the address-ordered free list as a value, and the same list threaded through block headers in memory |
| Pipe | reading, writing and closing one pipe, interleaved at every lock operation |
| ExitWait, ProcCalls | fork, exit, wait, reparent, sleep and wakeup over the process table, interleaved at every lock operation; what one call does, followed through every such run |
| FsLayout, BufferCache, BlockAlloc, BlockMap, InodeStore, FileIo, Directory, Inodes, FsOps, Paths, LinkGraph, FsTree, FsCreate, FsDefects | the file system, bottom up: bytes on disk, buffer cache, bitmap, block pointers, inode records, byte-level files, directories, inode cache, whole-inode operations, path lookup, link counts, create and mkdir; runs in which the code loses an inode or a block |
| Sv39, PhysPages, PageTables, UserSpace, UserCopy, Procs, ProcTable | entries and indices, the page allocator, three-level tables, address spaces, copying to and from user memory, the pages of a process, the process table and all of memory |
| OpenFiles, Pipeline, PipelineRun | file table, pipe slots and descriptors; the descriptor plumbing of a shell pipeline, and its calls in any interleaving |
| Console | line editing, the input ring buffer, and reads interleaved with keys |
| Argv | exec arguments from the old address space to the new stack |

Three ideas recur. In the file system a ghost map gives every data block the one inode and
pointer slot it belongs to, and everything a user sees is a function of the disk alone,
because a cached inode always describes the same file as its record. In memory a ghost map
gives every managed frame one owner: the free list, the kernel, or one place in the table
tree of one address space; conservation is equality of these maps. Link counts are compared
with a graph of names whose reachable part is shown to be exactly what paths lead to.

The cost of an operation is counted in the same terms as its effect. Frames and blocks an
operation needs are functions of the state before the call (`UserSpace.Cost`, `FileIo.Cost`),
so success is stated as an if-and-only-if up to fork, create, mkdir and namei.

Four times the code does less than its surroundings suggest. Each has the exact condition on
the state before, and a run from boot that meets it:

| what is lost | exactly when | run |
|---|---|---|
| WAIT_LOCK, after which nobody exits or is reaped | a wait found a zombie child and could not write the status: `ExitWait.LostExactly` | `ExitWait.LosingRun` |
| a process that can be reaped: freeproc panics | its size and its pages differ (`Kernel.ReapSlot`), which sbrk causes when uvmalloc runs dry (`Kernel.Sbrk`) | `ProcTable.LostProcess` |
| an inode in use without a name | a create or mkdir found the parent, the name was free, an inode was to be had, and it failed all the same: `FsCreate.Create`, `FsCreate.Mkdir` | `FsDefects.OrphanRun` |
| a block that only the inode in memory points to | a failed write could take a block for the inode but not go on: `FileIo.Strands` in `FsOps.WriteFile` | `FsDefects.StrandedRun` |

`dafny verify dfyconfig.toml` checks the whole project.

## Model

| member | source | states |
|---|---|---|
| FreeList.FirstFit | user/src/allocator.rs:85-110 | the first block in address order that is large enough, or that there is none |
| FreeList.GrantedFits | user/src/allocator.rs:85-139 | the block handed out starts where the found one does, is large enough, and is less than one minimal block larger than asked for |
| FreeList.InsertCoalesced | user/src/allocator.rs:165-204 | inserting a freed block into a sorted, coalesced, aligned list gives such a list again: no two free blocks touch |
| FreeList.InsertCovers | user/src/allocator.rs:165-204 | the list after an insertion covers exactly the bytes it covered and those of the new block |
| FreeList.InsertTotal | user/src/allocator.rs:165-204 | insertion adds exactly the size of the freed block to the free bytes |
| FreeList.InsertApart | user/src/allocator.rs:165-204 | what was disjoint from the list and from the freed block is disjoint from the new list |
| FreeList.TakeCoalesced | user/src/allocator.rs:85-139 | splitting or unlinking the first fit keeps the list sorted, aligned and coalesced |
| FreeList.TakeCovers | user/src/allocator.rs:85-139 | the bytes of the list split exactly into what stays and what is granted |
| FreeList.TakeTotal | user/src/allocator.rs:85-139 | free bytes drop by exactly the granted size |
| FreeList.Canonical | user/src/allocator.rs:165-204 | a coalesced list is determined by the set of bytes it covers |
| FreeList.TakeThenInsert | user/src/allocator.rs:85-204 | freeing a block right after it was taken restores the very same list |
| FreeList.InsertCommutes | user/src/allocator.rs:165-204 | freeing two blocks gives the same list in either order |
| UserAllocator.AlignUp | user/src/allocator.rs:23-25 | rounding up never loses bytes, stays below one alignment step, and fails exactly when the sum leaves a machine word |
| UserAllocator.Needed | user/src/allocator.rs:42-57 | the least 16-aligned size that holds header and payload, at least the minimum; None exactly when the sum leaves a machine word |
| UserAllocator.TakeTiled | user/src/allocator.rs:85-139 | serving a request keeps heap = free list + live blocks: disjoint, no byte lost, sizes add up |
| UserAllocator.InsertTiled | user/src/allocator.rs:165-204 | the list insertion keeps the same partition and the sum of sizes |
| UserAllocator.GrowTiled | user/src/allocator.rs:141-163 | a fresh chunk at the end extends the partition by exactly its bytes |
| UserAllocator.FreeTiled | user/src/allocator.rs:72-81 | giving a live block back keeps the partition |
| UserAllocator.GrownFits | user/src/allocator.rs:58-70 | after the heap grew, the first-fit search succeeds even if the chunk merged with its neighbour |
| UserAllocator.AllFreed | user/src/allocator.rs:165-204 | when nothing is live the free list is empty or the single block of the whole heap |
| UserAllocator.UserAllocator.AllocFromFreelist | user/src/allocator.rs:85-139 | the in-memory list afterwards is the list Take describes, live headers untouched; null exactly when nothing fits |
| UserAllocator.UserAllocator.InsertFreeBlock | user/src/allocator.rs:165-204 | the linked headers in memory afterwards are the list Insert describes |
| UserAllocator.UserAllocator.Merge | user/src/allocator.rs:188-203 | joining two touching neighbours rewrites just one header and its link |
| UserAllocator.UserAllocator.Sbrk | src/syscall.rs:576-602 | moves the break by n and returns the old one; refused exactly for negative n, beyond the stack, or when the kernel has no memory |
| UserAllocator.UserAllocator.GrowHeap | user/src/allocator.rs:141-163 | grows by the needed bytes rounded up to pages or changes nothing; succeeds exactly when rounding fits and the kernel agrees |
| UserAllocator.UserAllocator.Alloc | user/src/allocator.rs:42-70 | null exactly for alignment above 16, overflow or oversize, or a refused sbrk; otherwise a block disjoint from all live ones, large enough, with bounded waste, from the first fit, and the heap grows only if nothing fits |
| UserAllocator.UserAllocator.Dealloc | user/src/allocator.rs:72-81 | the block leaves the live set and its bytes are free again, fully coalesced |
| Pipe.RunInv | src/pipe.rs:79-155 | the lock, ring and sleeper invariants hold in every state of every interleaving of reads, writes, closes and wakeups |
| Pipe.Fifo | src/pipe.rs:79-155 | bytes read are always a prefix of bytes written and at most PIPESIZE are pending |
| Pipe.CallsDeliver | src/pipe.rs:79-155 | a completed read returned the stream from its position on, as much as there was or fits; a completed write contributed exactly its bytes, in order; a write fails only with the read end closed and a proper part of its bytes stored; a completed close has closed its end |
| Pipe.CallAnswered | src/pipe.rs:79-155 | followed through every run, a call returns an answer to that very call: a read its bytes, a write its own bytes or a broken pipe, a close its end |
| Pipe.NoLostWakeups | src/pipe.rs:79-155 | with the lock free, a sleeping reader implies empty and write-open, a sleeping writer implies full and read-open; both sides never sleep together |
| Pipe.BlockedSleeps | src/pipe.rs:103-139 | a reader at an empty pipe with writers, or a writer at a full pipe with readers, goes to sleep on the channel of its side and does nothing else before |
| Pipe.WokenOnChannel | src/proc.rs:647-663 | a sleeper is woken only by a wakeup on its own channel, and then looks again |
| Pipe.OnlyBlockedSleep | src/pipe.rs:103-155 | when nobody can take a step, everybody is outside the pipe or asleep for a reason only the other side can remove |
| Pipe.HolderGoesOn | src/pipe.rs:79-155 | each step of the lock holder brings it nearer to letting go, or it waits for a process that can take a step |
| Pipe.EofIsFinal | src/pipe.rs:79-155 | a zero-byte read of a nonempty buffer means writers are gone and everything was delivered, then and ever after |
| Pipe.StepKeeps | src/pipe.rs:103-155 | every single step of a call under the lock protocol keeps the invariant |
| Pipe.CloseKeeps | src/pipe.rs:79-101 | closing an end and waking the other side keeps the invariant |
| Pipe.WakeKeeps | src/proc.rs:647-663 | one turn of the wakeup scan keeps the invariant |
| Pipe.SleepKeeps | src/proc.rs:623-645 | going to sleep while giving up the pipe lock keeps the invariant |
| ExitWait.RunInv | src/proc.rs:430-663 | lock ownership, parenthood, wakeup and history invariants hold in every state of every run of fork, exit, wait, reparent, sleep and wakeup |
| ExitWait.NoLostWakeup | src/proc.rs:564-663 | whenever WAIT_LOCK is free, a process asleep in wait has a child and no zombie child |
| ExitWait.ParentsLive | src/proc.rs:468-496 | no parent pointer names a freed slot; it names a process that can still collect its children, or init |
| ExitWait.ReapedOnce | src/proc.rs:430-456 | no pid is reaped twice and every reaped or waiting status is the one passed to exit |
| ExitWait.ReapedByParent | src/proc.rs:573-614 | in every run, only the current, running parent reaps, only a zombie that is not itself; the slot is freed and the record names parent, child and status |
| ExitWait.WaitReleases | src/proc.rs:573-614 | wait returns with WAIT_LOCK released, except exactly when it found a zombie child and could not write the status |
| ExitWait.LostExactly | src/proc.rs:573-614 | in every run, some process in user code holds WAIT_LOCK exactly if an earlier wait met a status pointer it could not write |
| ExitWait.StuckStep | src/proc.rs:573-614 | a step loses the lock exactly by such a copy |
| ExitWait.LostForever | src/proc.rs:430-614 | from then on the lock keeps its holder and nobody exits or is reaped |
| ExitWait.LosingRun | src/proc.rs:430-614 | in a table of any size: a run of init, one child and a failing copy that ends this way |
| ExitWait.StepKeeps | src/proc.rs:430-663 | each step of any process keeps the whole invariant |
| ExitWait.LocksScan | src/proc.rs:564-615 | the scan in wait keeps every lock with its owner |
| ExitWait.FamilyReparent | src/proc.rs:468-496 | reparenting keeps every child with a live parent |
| ExitWait.WakeupsStep | src/proc.rs:430-663 | no step leaves a sleeping parent with an unnoticed zombie |
| ProcCalls.WaitAnswered | src/proc.rs:564-615 | a call of wait, in every run: it comes back only because it reaped a zombie child, has no child, or could not write the status |
| ProcCalls.ScanKnows | src/proc.rs:573-614 | a scan past the last slot knows whether there is a child, and that none is a zombie |
| ProcCalls.WaitSleeps | src/proc.rs:608-645 | with a child and no zombie, wait falls asleep on its own channel and does nothing else before |
| ProcCalls.WokenByExit | src/proc.rs:430-496 | a process asleep in wait is woken only by the exit of a child, or if it is init by an exit that left it children |
| ProcCalls.ExitAnswered | src/proc.rs:430-496 | exit does not return: until reaped the process is on its way to being a zombie or is one, with the status it gave, and a zombie other than init has no children |
| ProcCalls.ParentChanges | src/proc.rs:468-614 | parents change only by fork, by an exit that hands its children to init, and by reaping |
| ProcCalls.ForkAnswered | src/proc.rs:503-559 | a call of fork, in every run: it comes back with one new runnable child under a pid nobody ever had, or without one for want of memory, or of a slot, and then each slot was in use when it looked |
| ProcCalls.ForkTakes | src/proc.rs:113-181 | at an unused slot with the memory there, fork makes the child |
| ProcCalls.OnlyParentsSleep | src/proc.rs:564-663 | with WAIT_LOCK not lost, when nobody can go on all are in user code, dead, or asleep in wait with a child and no zombie |
| ProcCalls.StepNearer | src/proc.rs:430-663 | each step a process takes brings it nearer to user code, death or sleep |
| FsLayout.U32Put | src/fs.rs:391-439 | a 32-bit word written to a block reads back, and words elsewhere are unchanged |
| FsLayout.DinodeReadBack | src/fs.rs:165-193 | an inode record written into a block reads back as itself |
| FsLayout.DinodeOther | src/fs.rs:179-193 | writing one 64-byte inode record leaves the others in the block alone |
| FsLayout.WithBitMask | src/fs.rs:199-252 | setting or clearing a bit adds or subtracts its power of two, or changes nothing |
| FsLayout.MaskOps | src/fs.rs:199-252 | the or, and-not and test of the bitmap code with a one-bit mask are setting, clearing and testing the bit of the number |
| FsLayout.BitPut | src/fs.rs:199-252 | changing one bitmap bit changes no other |
| BufferCache.Cache.constructor | src/fs.rs:1121-1141 | an all-zero disk and an empty cache |
| BufferCache.Cache.Bget | src/fs.rs:60-91 | the slot that has the block, else the first unreferenced one, reset to invalid with one reference; None exactly when all are pinned by other blocks |
| BufferCache.Cache.Bread | src/fs.rs:93-105 | the slot holds what the disk holds |
| BufferCache.Cache.Bwrite | src/fs.rs:107-111 | the disk block becomes the slot data; slot and disk agree again |
| BufferCache.Cache.Brelse | src/fs.rs:113-125 | drops one reference and nothing else |
| BufferCache.Cache.Pin | src/fs.rs:60-105 | a pinned slot with the block, all other slots kept; never fails while a slot is spare |
| BufferCache.Cache.ReadBlock | src/fs.rs:93-125 | reading through the cache is reading the disk, and all reference counts are as before |
| BufferCache.Cache.WriteBlock | src/fs.rs:93-125 | writing through the cache is writing the disk block, and all reference counts are as before |
| BufferCache.SpareExists | src/fs.rs:60-91 | while fewer blocks are pinned than there are slots, an unpinned slot exists |
| BlockAlloc.Balloc | src/fs.rs:199-230 | the first free data block, now marked and zeroed, nothing else changed; None exactly when the disk is full |
| BlockAlloc.Bfree | src/fs.rs:232-252 | exactly that block loses its mark; the double-free panic is unreachable under ownership |
| BlockAlloc.AllocThenFree | src/fs.rs:199-252 | freeing what was just allocated restores the bitmap |
| BlockMap.BmapLookup | src/fs.rs:364-389 | the block behind a file block number, through the direct or the indirect pointers |
| BlockMap.RoomFresh | src/fs.rs:199-230 | allocating the first free block leaves one free block less |
| BlockMap.AllocDirect | src/fs.rs:391-411 | a direct pointer gets a fresh block if it had none; ownership stays exact, other files untouched; fails exactly when the pointer is missing and no block is free |
| BlockMap.AllocIndirect | src/fs.rs:405-439 | a word of the indirect block gets a fresh block if it had none; ownership stays exact, other files untouched; fails exactly when the word is empty and no block is free |
| BlockMap.BmapAlloc | src/fs.rs:391-439 | existing pointers and data stay, missing ones get fresh blocks owned by exactly that pointer; None exactly beyond MAXFILE or when fewer blocks are free than are missing, and then the indirect block stays with the inode exactly if there was a block for it |
| BlockMap.DirectFresh | src/fs.rs:391-411 | a fresh block under a direct pointer keeps every block under exactly one pointer |
| BlockMap.IndirectFresh | src/fs.rs:405-439 | a fresh block under an indirect word keeps every block under exactly one pointer |
| BlockMap.FreeOne | src/fs.rs:454-486 | freeing the block of one more pointer is always legal and frees just that block |
| BlockMap.FreedAll | src/fs.rs:454-486 | truncation frees exactly the blocks the inode owned; every other file keeps its blocks and data |
| BlockMap.FreeBlocks | src/fs.rs:454-486 | all pointers become zero and exactly their blocks are unmarked |
| InodeStore.ReadDinode | src/fs.rs:165-177 | the record of the inode, whatever is cached |
| InodeStore.WriteDinode | src/fs.rs:179-193 | only that record changes on disk |
| InodeStore.DinodePut | src/fs.rs:179-193 | a written record reads back and no other inode record changes |
| InodeStore.RecordSafe | src/fs.rs:441-452 | saving a record keeps all block ownership and all other files |
| FileIo.Readi | src/fs.rs:488-514 | the bytes off .. min(off + n, size) of the file content; the read path meets no hole |
| FileIo.PutAll | src/fs.rs:549-606 | writes block by block; everything exactly when the free blocks pay for it, else a prefix ending at a block boundary; when the inode gained a pointer meanwhile |
| FileIo.ZeroFill | src/fs.rs:516-547 | appends zeros up to off exactly when the free blocks pay for it, else the content is unchanged; when the inode gained a pointer meanwhile |
| FileIo.Writei | src/fs.rs:549-606 | replaces exactly off .. off + n, zero-fills a gap, changes nothing if the gap cannot be filled, leaves every other file unchanged; complete exactly when the free blocks pay for gap and bytes; leaves pointers that exist only in memory exactly when Strands says so of the state before |
| FileIo.WriteContent | src/fs.rs:549-606 | overwriting mapped blocks is overwriting the byte sequence |
| FileIo.WrittenIs | src/fs.rs:549-606 | byte by byte: the new bytes where they were written, zero in a gap, elsewhere what was there; the length is the larger end |
| FileIo.Iupdate | src/fs.rs:441-452 | the record on disk becomes the inode in memory; contents and other files unchanged |
| FileIo.Itrunc | src/fs.rs:454-486 | the file is empty and exactly its blocks are free again |
| FileIo.OtherContent | src/fs.rs:549-606 | a file that was not written keeps every byte |
| Directory.EntryRoundTrip | src/fs.rs:629-646 | a directory entry decodes to what was encoded |
| Directory.StoredSame | src/fs.rs:617-627 | two names are the same entry exactly when their first 14 bytes agree, missing bytes counting as zero |
| Directory.LookupIsMap | src/fs.rs:648-667 | a name resolves to an inode exactly when a live entry says so |
| Directory.LinkIsInsert | src/fs.rs:669-700 | linking a new name makes it resolve to the new inode, keeps names unique and changes no other name |
| Directory.DirLookup | src/fs.rs:648-667 | dirlookup is lookup in the directory as a map; None for anything but a directory |
| Directory.FindUnused | src/fs.rs:669-700 | the first unused entry, or the end |
| Directory.DirLink | src/fs.rs:669-700 | the entry is written whole or the directory is unchanged; it succeeds exactly for a directory without the name, with a place for the entry and the free blocks to pay for it |
| Directory.NoStraddle | src/fs.rs:638-646 | an entry never straddles a block |
| Inodes.FileSystem.constructor | src/fs.rs:1121-1141 | the inode cache over an all-zero disk |
| Inodes.FileSystem.Iget | src/fs.rs:289-316 | another reference to the slot that has the inode, or the first slot nobody holds; None exactly when neither exists |
| Inodes.FileSystem.Idup | src/fs.rs:335-348 | one more reference on that slot only |
| Inodes.FileSystem.Iput | src/fs.rs:350-362 | one reference less on that slot only |
| Inodes.FileSystem.Ilock | src/fs.rs:318-333 | loads the record once; the inode in memory describes the same file as its record |
| Inodes.AgreeContent | src/fs.rs:549-606 | a cached inode and its record hold the same bytes even after a failed write left extra pointers in memory |
| FsOps.AfterChange | src/fs.rs:441-606 | changing one inode in its slot and on disk keeps every other file, slot and owner sound |
| FsOps.PutBack | src/fs.rs:441-606 | re-establishes the whole file system after one inode changed, with all references kept |
| FsOps.ReadFile | src/fs.rs:1165-1172 | readi returns the bytes of the file whatever is cached; -1 for an offset beyond 32 bits |
| FsOps.WriteFile | src/fs.rs:1174-1181 | writei changes only that file, as a byte sequence; complete exactly when the free blocks pay for it; record and memory stop agreeing on the pointers exactly when the write strands |
| FsOps.TruncFile | src/fs.rs:1196-1199 | the file is empty, everything else as before |
| FsOps.LinkChild | src/fs.rs:732-735 | the directory got exactly that entry, or nothing visible changed; exactly when it is a directory without the name, with a place and blocks for the entry |
| FsOps.IncNlink | src/fs.rs:726-730 | one more link on that inode only, saved |
| FsOps.Ialloc | src/fs.rs:702-724 | the lowest unused inode, now an empty one; held exactly when a slot is spare, otherwise it stays allocated and unheld; none exists only if all are in use |
| FsOps.NewRecord | src/fs.rs:702-724 | a new inode record disturbs no file, directory or cached inode |
| Paths.ComponentsSound | src/fs.rs:960-973 | splitting loses nothing but slashes |
| Paths.SkipElemFirst | src/fs.rs:960-973 | a path is slashes, then its first component up to the next slash or the end, then the rest; without a component it is all slashes |
| Paths.SplitJoined | src/fs.rs:960-973 | the components of a path are the names it was put together from, in order, however many slashes separate them |
| Paths.ChildExists | src/fs.rs:648-667 | a name in a sound directory leads to an inode that exists |
| Paths.StepInto | src/fs.rs:989-1016 | one component: the reference moves to the child, or is given up, exactly when there is no child or no slot for it |
| Paths.Namei | src/fs.rs:975-1019 | agrees with folding lookup over the components, from the root for a path that starts with a slash and from cwd otherwise; the only reference left is on the result; it fails exactly when the path is empty, the fold fails or the inode cache has no slot for an inode on the way |
| Paths.NameiParent | src/fs.rs:1021-1070 | where all but the last component lead, from the root or from cwd as for namei, with that component; same reference discipline and the same exact condition |
| Paths.LookTwice | src/fs.rs:975-1019 | an absolute path leads to the same inode from every working directory |
| Paths.TwoSpare | src/fs.rs:975-1070 | two spare slots of the inode cache are enough for every walk |
| LinkGraph.Orphan | src/fs.rs:737-772 | changing an unreachable inode disturbs no reachable link count |
| LinkGraph.AdoptedReach | src/fs.rs:732-735 | linking a new inode makes exactly it reachable in addition |
| LinkGraph.AdoptedNamed | src/fs.rs:732-735 | how the number of entries naming any inode changes when a new inode is linked |
| LinkGraph.FileAdopted | src/fs.rs:800-817 | entry plus one link keeps link counts equal to names, whether or not the parent is reachable |
| LinkGraph.DirAdopted | src/fs.rs:737-772 | entry, two own links and one for the parent keep link counts equal to names |
| FsTree.EnteredGraph | src/fs.rs:669-700 | a directory entry written on disk is one edge added to the graph of names |
| FsTree.OrphanTree | src/fs.rs:737-772 | a creation that gives up halfway leaves link counts right for everything reachable |
| FsTree.NewFileTree | src/fs.rs:800-817 | creating a file keeps link counts right |
| FsTree.NewDirTree | src/fs.rs:737-772 | creating a directory keeps link counts right |
| FsTree.NewDirNames | src/fs.rs:748-757 | a new directory holds exactly "." and "..", naming itself and its parent |
| FsTree.NewDirIs | src/fs.rs:737-817 | a new directory has two links and its parent one more, a new file one and its parent as many as before; the parent has the new name, and nothing else differs |
| FsTree.ReachIsPaths | src/fs.rs:975-1019 | the inodes the graph reaches from the root are those some path leads to |
| FsTree.LinkCounts | src/fs.rs:726-817 | every inode a path leads to has a link count equal to the number of entries naming it in reachable directories |
| FsTree.RoomFor | src/fs.rs:726-730 | inc_nlink never overflows |
| FsTree.FillDir | src/fs.rs:748-757 | "." and ".." and the first link, taking one block; exactly when a block is free, else an unlinked inode |
| FsTree.MkdirChild | src/fs.rs:737-772 | the new directory and its links, exactly when inode, slot, blocks, place and name allow it; otherwise an unnamed inode stays in use exactly if one was free, and nothing reachable changed; link counts right either way |
| FsTree.GaveUpChanged | src/fs.rs:702-772 | a creation that gave up changed the disk a user could see exactly if an inode was to be had |
| FsCreate.WalkKept | src/fs.rs:975-1019 | every path that led somewhere still leads there |
| FsCreate.CreateEmptyFile | src/fs.rs:800-817 | a new empty file with one link in the parent, exactly when inode, slot, blocks, place and name allow it; otherwise an unnamed inode stays in use exactly if one was free |
| FsCreate.Create | src/fs.rs:1072-1093 | the path, from the root if it starts with a slash and from cwd otherwise, resolves to the returned file, old or new; no path is lost, link counts stay right, references exact; succeeds exactly under the stated condition on the state before, and a failure leaves an unnamed inode in use exactly when the parent was found, the name was free and an inode was to be had |
| FsCreate.Mkdir | src/fs.rs:1095-1111 | the path, from the root if it starts with a slash and from cwd otherwise, was free and now resolves to a new directory; no path is lost, link counts stay right; success and the unnamed inode with their exact conditions as for Create |
| FsCreate.WriteKeepsTree | src/fs.rs:1174-1199 | writing or truncating a file concerns no link count |
| FsCreate.InitRoot | src/fs.rs:831-844 | the record of the root, still empty, held once, all data blocks free |
| FsCreate.MakeRoot | src/fs.rs:831-861 | after boot the root directory names itself twice, has two links and one block, and nothing else exists; link counts are right from the start |
| FsDefects.Unreached | src/fs.rs:737-817 | an inode that a failed creation left in use is one no path leads to |
| FsDefects.MakeFile | src/fs.rs:1072-1093 | creating the next file after boot succeeds and gives an empty file the path leads to |
| FsDefects.OrphanRun | src/fs.rs:1072-1093 | from boot: create "/a", then create "/a/b", which fails and leaves an inode in use that no path leads to |
| FsDefects.GrowCost | src/fs.rs:391-439 | the blocks a file takes to grow, one more when it comes to need the indirect block |
| FsDefects.AlmostFull | src/fs.rs:549-606 | from boot: files that leave exactly one block free |
| FsDefects.StrandedRun | src/fs.rs:516-606 | then a write beyond the end of an empty file writes nothing, and the last block belongs to the file in memory but not in its record |
| Sv39.LeafRoundTrip | src/vm.rs:24-55 | a leaf entry gives back address and flags, and is a leaf exactly when it grants R, W or X |
| Sv39.TableRoundTrip | src/vm.rs:32-52 | a table entry gives back its address and is no leaf |
| Sv39.IndicesInjective | src/vm.rs:68-89 | below 2^39 the three 9-bit indices and the offset determine the address, on the bits |
| Sv39.PlaceInjective | src/vm.rs:68-89 | distinct pages reach distinct leaf slots |
| Sv39.PlaceIndices | src/vm.rs:68-89 | the place of a page in the model is the three index fields of its address |
| Sv39.ReadBits | src/vm.rs:40-55 | validity, leafness, user bit, flags and frame of the modelled entry are those the bit operations give on the 64-bit word |
| Sv39.PermSeen | src/vm.rs:95-113 | a permission check on the modelled flags is the check on the word |
| Sv39.ReadNew | src/vm.rs:24-39 | the words made for a leaf and for a table read as the modelled entries |
| Sv39.ReadCleared | src/vm.rs:375-397 | a zero word reads as no entry |
| PhysPages.Machine.constructor | src/kalloc.rs:34-40 | freerange: every managed frame is free, once |
| PhysPages.Machine.Kfree | src/kalloc.rs:47-76 | the frame becomes the head of the in-page linked list, nothing else changes |
| PhysPages.Machine.Kalloc | src/kalloc.rs:81-89 | a frame that was free and nobody else has; None exactly when none is free |
| PhysPages.Machine.KallocZeroed | src/kalloc.rs:92-98 | the same, zero-filled |
| PhysPages.PushFree | src/kalloc.rs:47-76 | the list threaded through free pages holds every free frame exactly once after a free |
| PhysPages.PopFree | src/kalloc.rs:81-89 | and after an allocation |
| PageTables.ChangeEntry | src/vm.rs:68-156 | rewriting one entry keeps the three-level table equal to the flat map it stands for |
| PageTables.PlacesApart | src/vm.rs:68-156 | two places of an address space never share a frame |
| PageTables.Walk | src/vm.rs:68-89 | finds the low table of the page, or makes it; tables it makes change no translation; without allocation it fails exactly when a table is missing, with allocation exactly when fewer frames are free than tables are missing, and it takes one frame per missing table |
| PageTables.WalkUserPerm | src/vm.rs:95-113 | the entry of the page, exactly when it is below MAXVA, mapped, for the user, and its flags have every bit asked for |
| PageTables.MapPage | src/vm.rs:144-153 | inserts one page into the flat map, never over another; fails exactly if the page is there or fewer frames are free than tables are missing on its way |
| PageTables.MapPages | src/vm.rs:122-156 | inserts pages in order and stops at the first that is mapped or when tables run out; the earlier ones stay |
| PageTables.MapAllAt | src/vm.rs:122-156 | page vpn + i maps frame f + i with the flags, and pages outside the range are as they were |
| PageTables.UnmapPage | src/vm.rs:379-396 | removes one page from the flat map and frees its frame if asked |
| PageTables.Uvmunmap | src/vm.rs:375-397 | deletes the pages from the flat map; user frames become free, nothing else moves; its panics are unreachable under the stated precondition |
| PageTables.Freewalk | src/vm.rs:418-432 | frees exactly the tables below a place; panics exactly when a page is still mapped below it |
| UserSpace.LocalRestores | src/vm.rs:219-251 | operations on one address space that is gone at the end leave every frame with its owner |
| UserSpace.Uvmcreate | src/vm.rs:215-217 | an empty address space on one fresh frame |
| UserSpace.FreeTables | src/vm.rs:404-432 | freewalk from the root: the space is gone and all its frames are free; panics exactly when a page is still mapped |
| UserSpace.Uvmfree | src/vm.rs:404-411 | user pages [0, sz) and all tables go back; panics exactly when a page beyond them is still mapped |
| UserSpace.ProcPagetable | src/vm.rs:219-251 | a space with exactly the two fixed pages and three tables, or every frame as it was; succeeds exactly when three frames are free, so its second rollback is never reached |
| UserSpace.ProcFreepagetable | src/vm.rs:359-368 | for the fixed pages, n user pages and an optional stack: exactly the frames of that space become free, all others untouched; panics exactly when n is not the number of pages of sz |
| UserSpace.AddPage | src/vm.rs:446-468 | a zeroed or copied page at the given address on a frame that was free, or everything as before but for tables; succeeds exactly when there are frames for it and its missing tables |
| UserSpace.Uvmcopy | src/vm.rs:439-471 | every page of [0, sz) copied with its flags onto free frames, or the new space rolled back to what it had; succeeds exactly when the pages and their tables can be paid for, and takes that many frames |
| UserSpace.UvmcopyStack | src/vm.rs:473-496 | the stack page with its bytes, or nothing |
| UserSpace.Uvmalloc | src/vm.rs:498-516 | zeroed pages up to newsz exactly when they and their tables can be paid for; a failure is rolled back, and leaves pages mapped if and only if the frames are used up by some but not all of the pages; also for spaces that have pages beyond oldsz |
| UserSpace.DryExample | src/vm.rs:498-516 | with the fixed tables, those of the first page, one page and one free frame, growing by two pages is such a case |
| UserSpace.DryOrNot | src/vm.rs:498-516 | the frame count decides between paid for, rolled back and left half mapped |
| UserSpace.FreshCost | src/vm.rs:68-89 | for a new process n pages cost n + ceil(n/512) + ceil(n/2^18) frames |
| UserCopy.Copyin | src/vm.rs:257-281 | all the bytes of those pages, or None exactly when a page of the range lacks U or R |
| UserCopy.Copyinstr | src/vm.rs:288-318 | the bytes up to the first NUL, or None exactly when no NUL can be read within n bytes of pages with U and R |
| UserCopy.StringIs | src/vm.rs:288-318 | a string is at an address exactly when its pages may be read, its bytes are there without NUL, and a NUL follows |
| UserCopy.StringUnique | src/vm.rs:288-318 | at most one string starts at an address |
| UserCopy.PokePage | src/vm.rs:325-352 | writing within a page changes what users see there and nowhere else |
| UserCopy.PeekIs | src/vm.rs:95-113 | a user with a permission sees the byte of the page, exactly if the flags of its entry have U and the permission |
| UserCopy.Copyout | src/vm.rs:325-352 | writes the longest prefix whose pages have U and W, and reports whether that was all; other bytes and every page without W stay, only user pages of that space are touched |
| UserCopy.Isolated | src/vm.rs:325-352 | a write into one address space is invisible in every other |
| UserCopy.OutThenIn | src/vm.rs:257-352 | what was copied out is what copyin sees |
| UserCopy.ZerosSeen | src/vm.rs:498-516 | the user may read and write a page the heap grew by, and finds zeros there |
| Procs.Freeproc | src/proc.rs:186-195 | exactly the trapframe, kernel stack and address space of the process become free; panics exactly when the space has more pages than its size says |
| Procs.Allocproc | src/proc.rs:113-181 | a process on frames that were free, or every frame where it was; succeeds exactly when five frames are free |
| Procs.CopyInto | src/proc.rs:510-536 | pages and stack of the parent copied into the child; in its trapframe a0 is 0 and all else is that of the parent; succeeds exactly when the parent has a stack and pages, tables and stack can be paid for |
| Procs.Fork | src/proc.rs:503-537 | the child has copies of all pages, flags and the stack on its own frames and the trapframe of its parent but for a0, which is 0; a failed fork leaves every frame with its owner and every page in use unchanged; it succeeds exactly when the parent has a stack page and six frames are free beyond the cost of its pages, and takes exactly those |
| Procs.ChildSees | src/proc.rs:503-537 | after fork, child and parent see the same byte at every address below sz |
| Procs.StackSees | src/proc.rs:528-536 | and the same bytes on the stack, which the child may write |
| ProcTable.Kernel.constructor | src/proc.rs:113-217 | after boot no slot is in use, and the kernel keeps the frames it took |
| ProcTable.Kernel.FindUnused | src/proc.rs:113-130 | the first unused slot; None exactly when there is none |
| ProcTable.Kernel.AllocSlot | src/proc.rs:113-181 | the first unused slot gets a process on five frames that were free; exactly when there are both; the whole table stays sound and disjoint |
| ProcTable.Kernel.ForkSlot | src/proc.rs:503-559 | the first unused slot gets a copy of the parent; exactly when there are slot, stack and frames; a failure leaves table, owners and spaces as they were; the whole table stays sound and disjoint |
| ProcTable.Kernel.ReapSlot | src/proc.rs:186-217 | the slot is unused and exactly its frames are free; panics exactly when the process has more pages than its size says |
| ProcTable.Kernel.Sbrk | src/syscall.rs:576-602 | grows the process exactly when n is not negative, ends below the stack and can be paid for; afterwards pages and size agree exactly when they did and uvmalloc did not run dry |
| ProcTable.Partition | src/proc.rs:113-217 | in every sound table each managed frame has exactly one use: free, the kernel, the trapframe or kernel stack of one slot, or one place of the space of one slot |
| ProcTable.LostProcess | src/syscall.rs:576-602 | from boot with nine frames: allocproc, a sbrk that succeeds, a sbrk that runs dry, and a reap that panics |
| OpenFiles.Tables.constructor | src/file.rs:38-45 | no file, pipe or descriptor in use |
| OpenFiles.Tables.FileAlloc | src/file.rs:48-64 | the first free entry, now with one reference; None exactly when all are in use |
| OpenFiles.Tables.FileDup | src/file.rs:126-131 | one more reference |
| OpenFiles.Tables.FileClose | src/file.rs:133-153 | one reference less; the last one closes the pipe end or releases the inode |
| OpenFiles.LastClose | src/file.rs:133-153 | the last reference makes the entry unused and gives up its inode; an earlier one only counts |
| OpenFiles.Tables.PipeAlloc | src/pipe.rs:41-62 | a slot that no file refers to |
| OpenFiles.Tables.PipeFree | src/pipe.rs:64-77 | the slot is unused again |
| OpenFiles.ClosePipe | src/pipe.rs:79-101 | closing the last reference to an end keeps open flags equal to the existence of a live file |
| OpenFiles.Tables.FdAlloc | src/syscall.rs:547-555 | the lowest unused descriptor; None exactly when there is none |
| OpenFiles.SysClose | src/syscall.rs:557-574 | the descriptor is cleared and one reference dropped; an error exactly for a bad descriptor |
| OpenFiles.SysDup | src/syscall.rs:383-403 | the lowest unused descriptor refers to the same file; error exactly for a bad descriptor or a full table |
| OpenFiles.SysPipe | src/syscall.rs:145-213 | two lowest descriptors for the two ends of an unused slot; every failure branch leaves files, slots and descriptors as they were |
| OpenFiles.OpenInode | src/syscall.rs:461-524 | the new file has offset 0 and the append flag of a regular file, or the major number of a device; the inode reference ends up in it or is given up exactly once; error exactly for the listed causes |
| OpenFiles.ForkFiles | src/proc.rs:542-548 | the child table equals the parent table, counts exact |
| OpenFiles.ExitFiles | src/proc.rs:458-466 | all descriptors of the process are closed, nobody else is affected, inode references given up are those files held |
| OpenFiles.OpenMeansReferred | src/pipe.rs:41-101 | an end is open exactly when some descriptor refers to it, and a slot is in use exactly while some descriptor refers to an end |
| Pipeline.ClosePipes | user/src/bin/sh.rs:253-258 | clears all pipe descriptors of one process |
| Pipeline.Redirect | user/src/bin/sh.rs:234-240 | close then dup lands on the closed descriptor |
| Pipeline.SetupPipelineFds | user/src/bin/sh.rs:233-251 | never fails; stage i ends with its neighbours as standard input and output and no other pipe descriptor |
| Pipeline.WiredIs | user/src/bin/sh.rs:233-251 | command i reads from pipe i - 1 and writes to pipe i; every other descriptor is the one of the shell |
| Pipeline.AddPipe | user/src/bin/sh.rs:200-208 | one more pipe known to the shell alone; fails only for want of files, descriptors or slots |
| Pipeline.MakePipes | user/src/bin/sh.rs:198-208 | n pipes known to the shell alone, or all descriptors as before; with room for n pipes it does not fail |
| PipelineRun.ProgWires | user/src/bin/sh.rs:233-258 | the calls of setup_pipeline_fds turn the table a child inherits into the intended one, and close_pipes turns the table of the shell back |
| PipelineRun.DupsLand | user/src/bin/sh.rs:233-251 | every dup of a child returns the descriptor it expects, wherever it is in its calls |
| PipelineRun.Step | user/src/bin/sh.rs:197-258 | one call of whoever the scheduler picks (fork, failed fork, close, dup, exit): nothing else fails, and every table is the function of its own progress again |
| PipelineRun.NotStuck | user/src/bin/sh.rs:197-258 | until all are set up somebody can go on |
| PipelineRun.WorkEnds | user/src/bin/sh.rs:197-258 | every call leaves fewer calls to be made, so set-up ends |
| PipelineRun.AllStarted | user/src/bin/sh.rs:210-231 | unless a fork fails every command is started, and it runs until it exits |
| PipelineRun.SettledTables | user/src/bin/sh.rs:197-258 | whatever the order was, the shell has what it had, running commands are wired as intended, others have nothing |
| PipelineRun.EndHeld | user/src/bin/sh.rs:197-258 | then the file of an end is at exactly one descriptor of the whole system if its command runs, and at none if it does not |
| PipelineRun.EndsOpen | src/proc.rs:458-466 | then pipe k has its write end open exactly while command k runs and its read end exactly while command k + 1 runs, whatever the order of exits |
| PipelineRun.RunPipeline | user/src/bin/sh.rs:197-231 | for every schedule, with forks that may fail: with room the pipes are made; once all are set up the pipes are open exactly where running commands need them, commands are wired, the shell and all others have the descriptors they had; without room all descriptors are as before |
| Console.EditedIsKept | src/console.rs:68-74 | editing as one types equals keeping the bytes no later erase takes back |
| Console.Putc | src/console.rs:65-99 | committed bytes are never removed and the indices stay within one buffer |
| Console.Input.InputPutc | src/console.rs:65-99 | backspace and delete take back a byte of the line; with a full buffer a key is lost; else it is stored, a carriage return as a newline, and newline, end-of-file mark or a full buffer commit the line and wake readers; the ring buffer holds exactly what the log says |
| Console.Input.InputGetc | src/console.rs:54-58 | the next committed byte |
| Console.ReadSome | src/console.rs:217-250 | takes committed bytes in order up to a full buffer, a newline or an end-of-file mark, which is used up only by an empty read; it is the function Reading of log and indices |
| Console.RunInv | src/console.rs:47-250 | r <= w <= e <= r + INPUT_BUF and the stream invariants in every run of keys, reads and wakeups |
| Console.Delivered | src/console.rs:47-250 | delivered bytes plus unread committed ones are the typed lines after erasing, without end-of-file marks |
| Console.LineByLine | src/console.rs:65-99 | in every run nothing uncommitted has a newline or end-of-file mark in it, and a committed line has one at most at its end |
| Console.FullIsReadable | src/console.rs:76-98 | a full buffer can always be read |
| Console.NoLostWakeup | src/console.rs:199-250 | nobody sleeps with input available unless a wakeup is on its way |
| Console.ReadReturns | src/console.rs:217-250 | a finished read has at most one line, no end-of-file mark, and stopped full, at a newline, or at an end-of-file mark that was typed |
| Console.TurnsRead | src/console.rs:217-250 | the turns a reader takes in the transition system add up to that same loop |
| Argv.WordRoundTrip | src/proc.rs:755-762 | a 64-bit pointer written in memory reads back |
| Argv.WordBytes | src/proc.rs:755-762 | a pointer is stored in eight bytes, the lowest first |
| Argv.ArgsUnique | user/src/lib.rs:305-328 | memory determines the arguments a program finds by following argv |
| Argv.PushStrings | src/proc.rs:734-745 | the strings lie one below the other from the stack top, pairwise disjoint, and never leave the page |
| Argv.PushArgv | src/proc.rs:729-765 | never fails; sp is 16-aligned within the page; argv, its strings and the null terminator read back, pairwise disjoint and in order |
| Argv.CopyArgv | src/syscall.rs:410-434 | the arguments at argv, or None exactly when no acceptable array is there |
| Argv.ExecArgs | src/proc.rs:684-718 | the new program finds exactly the arguments the old address space had, in pairwise disjoint places |

## Left out

- Devices, traps, assembly, context switching and CSR access (src/uart.rs, src/plic.rs, src/timer.rs, src/trap.rs, src/asm): hardware effects.
- src/loader.rs: loading an ELF image is not part of this model; address spaces hold the fixed pages, the first n user pages and possibly a stack.
- kvmmake and the kernel page table: identity mappings built once at boot.
- Memory ordering of locks: a lock operation is one atomic step.
- src/spinlock.rs and src/cpu.rs push_off nesting: locks appear as owners in the transition systems, interrupt nesting does not.
- Wrap-around of the 64-bit counters nread, nwrite, r, w, e and of pids: they are natural numbers.
- Concurrent file system calls: file system operations are modelled one after the other, each as a whole.
- Parsing of command lines, redirections in the shell, and the other user programs: they are straight-line uses of the calls modelled here and keep no state across calls.
- populate_root beyond the root directory (embedded binaries), the superblock, selftests and device inodes: fixed data or unused paths.
- Offsets of open files in file::read and file::write: a single addition on top of readi and writei.
- Inode references across processes: Inodes counts the references of a slot and OpenFiles accounts for those that files hold; the two are not joined, and the working directories of processes are not part of OpenFiles.
- Pte words: the memory model stores the frame number and the ten flag bits of an entry; Sv39.ReadBits, Sv39.ReadNew and Sv39.PlaceIndices relate them to the 64-bit word and the shifts.
- Page contents: a zeroed page becomes a table of invalid entries when it is used as one; a frame is never used as both, which ownership shows.
- MapPage: requires R, W or X among the flags and flags within the ten low bits, as all callers pass; without one of the three the entry would be a table to the next walk.
- MapPages: requires the same of the flags as MapPage.
- Uvmalloc: states exactly when pages are left mapped rather than a rollback in all cases, because the code has none when kalloc fails.
- Allocproc: the frame condition is that of a table with an unused slot; ProcTable.Kernel.AllocSlot adds the search.
- Fork: as for Allocproc; ProcTable.Kernel.ForkSlot adds the search.
- Kernel.ReapSlot: frames and the slot; closing the files, which freeproc also does, is OpenFiles.ExitFiles and not joined with the frames; giving up the working directory is not part of it.
- exec in the process table: replacing the space of a process needs the loader; ProcTable covers allocproc, fork, sbrk and reaping.
- UserAllocator.Sbrk: that the kernel has no memory is an input here; ProcTable.Kernel.Sbrk gives the exact condition in frames.
- FileSystem.Iget: requires an inode that exists, as every caller passes one that a directory names or that was just allocated.
- LinkChild: requires a child that exists, as every caller passes the inode it just allocated.
- Uvmunmap: requires the pages to be mapped, where the code panics, and that exactly user pages are freed, as all callers do.
- Uvmcopy: requires the source to map at least [0, sz), where the code panics, and a new space with just the fixed pages, as its documentation says.
- WriteFile: requires that the inode is no directory, as sys_open guarantees for writable files.
- TruncFile: requires that the inode is no directory, as sys_open guarantees.
- ForkStep in ExitWait: the time fork holds the lock of the new child is one step, since no other process can touch that slot meanwhile.
- RunPipeline: requires descriptors 0 and 1 of the shell to be open, as they are when it starts, and slots for the children whose descriptors are unused; processes outside the pipeline do not run meanwhile, and the redirections of a command come after its set-up.
- CreateEmptyFile: create_file, which also writes initial bytes at boot, is not part of this model.
