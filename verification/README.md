# Enix in Dafny

Enix is a 32-bit teaching kernel. Its code changes state in place, under invariants that no single
function states. This project models the parts where such invariants carry the most, and proves them
over all inputs and all runs:

- **Copy-on-write fork and frame counts** (`Cow*.dfy`). Fork shares frames read-only and counts the
  sharers in `mem[]`, the write-protect handler splits a frame or re-enables writing, exit drops the
  counts. `Cow` states each operation as a function on the memory, `CowInvariants`, `CowBound`,
  `CowRefines`, `CowFork`, `CowExit` and `CowRun` prove that any run of them refines a memory in which
  every fork copies all pages, as `copy_body_stack3` once did, `CowSpace` when they run out of frames, and
  `CowKernel` has the operations with their loops and in-place updates, each proved against its function.
- **The kernel heap** (`PageSpaces`, `Arenas`, `ArenaSteps`, `Heaps`, `HeapRuns`). Pages with their
  three tables, seven classes of small blocks in arenas with free lists and counts, and large blocks.
  The invariant says who owns each page and each block; freeing everything gives everything back.
- **The file system** (`Bytes` to `Formatting`). The disk is an array of sectors; its meaning is a tree
  of directories and byte sequences. `Blocks` has the ownership of blocks, `Files` reading and writing,
  `DirTables`, `Directories`, `DirSpills` and `DirReading` the directory entries, `Trees`, `TreePaths`,
  `Paths` and `Slashes` the tree and its paths, `Volumes` what create, mkdir, unlink, rmdir and write do to
  the whole volume, `FileSystem`, `Searching`, `Cwd` and `Syscalls` the operations and system calls themselves,
  `Formatting` the start and runs of calls, `FullDirs` a run up to a full directory. `InodeTable` has the
  packed 76-byte records and the list of open inodes, `OpenInodes` runs of what is done with them,
  `BitmapSyncs` the copies of the bitmaps on disk, `Layouts` the fields of what is on the disk.
- **Threads and locks** (`Threads`, `ThreadInvariants`, `LockSteps`, `LockCounts`, `Turns`, `ThreadKernel`).
  Interleaved steps, atomic only where interrupts are off; a thread may be preempted between any two of them.
  `Turns` has the order in which threads run and waiters are woken.
- **Fork, wait and exit** (`Processes`, `Families`, `WaitExit`). Pids, parents, adoption by init, reaping.
- **Smaller pieces**: first-fit search in bitmaps (`Bitmaps`), the doubly linked list (`LinkedLists`,
  `Sequences`), the ring buffer and the pipe with their runs (`RingBuffers`, `QueueRuns`), path washing in the
  shell (`Washing`, `WashedPaths`), sizes of sets of numbers (`Sets`).

`Results` holds the outcome of an operation: an ASSERT or PANIC stops the whole system
(`AssertFailed`), and so does the search of a full bitmap (`Exhausted`), since `bitmap_scan` asserts
before it could return -1 (src/lib/bitmap.c:48). Where the code updates objects in place the model has a
class whose methods do the same, proved against functions or predicates on values; lemmas and runs
are about those. `dafny verify dfyconfig.toml` checks the project.

Where code and comments or intentions differ, the model follows the code and proves exactly when it
does what was meant:

- `bitmap_scan` for more than one bit looks at one bit behind the map and can answer with a run that ends
  there (`Bitmaps.ScanLeavesMap`); it is right iff the map holds such a run (`Bitmaps.ScanFindsRunInMap`).
  The heap is proved with that bit as a page like the others.
- `inode_sync` cuts the inode number to 8 bits; it keeps inodes iff their numbers are below 256
  (`InodeTable.SyncNeedsLowNumber`). Operations that make inodes are stated while fewer than 256 are in use.
- `sync_dir_entry` goes on through sector 0 when a directory is full; the directory stays a good one iff it was
  not full (`DirSpills.SyncDirEntry`), and there is a run with 251 files that breaks the volume
  (`FullDirs.BreakVolume`).
- `file_write` refuses a file of more than 71680 bytes, but one of exactly that size runs into an ASSERT;
  `file_read` halts when a block index reaches 139 (`Files.FileWrite`, `Files.FileRead`).
- `file_write` does not sync the bitmap bit of a new indirect table; the copy of the bitmap on disk is whole iff
  a data block's bit in the same sector is synced (`BitmapSyncs.SyncedBitmap.TakeTableAndBlocks`).
- Formatting counts one block too many, the clearing loop being inclusive, unless the count is a multiple of 4096
  (`Formatting.FillBlockBitmap`).
- `sys_rmdir` of a path releases the directory and leaves its entry in the parent iff the path ends in "/."
  (`Syscalls.SysRmdir`). `sys_unlink` removes what the last component names iff no regular file stands before it;
  of "/f/x", where f is a regular file, it removes f (`Syscalls.SysUnlink`, `Syscalls.UnlinkBehindFile`).
- Releasing an inode that somebody else has open leaves a stale inode in the list; list and disk agree iff nobody
  has (`InodeTable.Inodes.InodeRelease`).
- `pipe_write` counts 64 places where 63 are usable, so it sleeps iff it is given more than fit
  (`RingBuffers.IoQueue.PipeWrite`).
- The lock of the ring buffer is kept across the sleep, so a reader and a writer can sleep for good, one of them
  behind the lock of the other (`QueueRuns.BothAsleep`). Nobody gets behind it and nobody sleeps for what is there
  iff every call that has to wait finds the lock free (`QueueRuns.AloneInRun`), and then the next call on the other
  side wakes the sleeper (`QueueRuns.OtherSideWakes`).
- `search_file` stops at a regular file whatever follows, `wash_path` does not; they agree iff nothing behind the
  file climbs out of it (`WashedPaths.WashThroughFile`).
- `release_prog_resource` gives back 22 of the 23 pages of the address bitmap (`CowExit.ReleaseFound`).
- `malloc_page` halts by its ASSERT for a block that needs 3840 pages or more, which `sys_malloc` lets
  through when the pool is that large (`Heaps.Heap.SysMalloc`).

## Model

| member | source | states |
|---|---|---|
| Bitmaps.Bitmap.Scan | src/lib/bitmap.c:40-86 | halts exactly on a full map; for one bit the least clear bit; for more bits the least clear run of the map and the bit behind it, or -1 exactly when there is none |
| Bitmaps.Bitmap.FirstFree | src/lib/bitmap.c:42-62 | skipping full bytes finds the same bit as looking at every bit: the least clear one, or none exactly on a full map |
| Bitmaps.Bitmap.ScanOn | src/lib/bitmap.c:64-85 | the run counter agrees with the naive search: the least start of a clear run, or -1 with no such run anywhere |
| Bitmaps.Bitmap.ScanTest | src/lib/bitmap.c:26-31 | the byte and mask give bit i of the map, and of the memory behind it, as the sequence of bits that the search and the updates speak of has it |
| Bitmaps.Bitmap.Set | src/lib/bitmap.c:95-106 | the bit gets the value, in the map, in the window that the search sees or behind them; no other bit or byte of the memory changes |
| Bitmaps.ScanFindsRunInMap | src/lib/bitmap.c:40-86 | the run found lies inside the map iff the map holds any such run, and it is then the least one of the map |
| Bitmaps.ScanLeavesMap | src/lib/bitmap.c:65-85 | the run found can end on the bit behind the map: a concrete map for which it does |
| Bitmaps.UnpackAt | src/lib/bitmap.c:26-31 | bit i of the map is bit i % 8 of byte i / 8 |
| Bitmaps.UnpackSet | src/lib/bitmap.c:95-106 | setting one bit of one byte is one update of the map |
| BitmapSyncs.SyncedBitmap.Sync | src/fs/file.c:313-339 | the sector of the bit, and no other, becomes the bytes in memory |
| BitmapSyncs.SyncedBitmap.SetAndSync | src/fs/file.c:313-339 | bitmap_set followed by bitmap_sync of the same bit keeps the whole copy on disk equal to the map in memory |
| BitmapSyncs.SyncedBitmap.TakeTableAndBlocks | src/fs/file.c:456-494 | file_write takes the block of a new indirect table and then any number of data blocks, but syncs only the bits of the data blocks: the copy on disk is whole afterwards iff one of those bits lies in the same sector of the bitmap as the table's |
| BitmapSyncs.MountReads | src/fs/fs.c:75-95 | what mounting reads from such a copy is the map that was in memory, bit for bit |
| LinkedLists.List.constructor | src/lib/list.c:9-15 | an empty list whose two sentinels point at each other |
| LinkedLists.List.InsertBefore | src/lib/list.c:25-38 | the element stands at that place of the sequence, all others keep their order, and all neighbours point at each other |
| LinkedLists.List.Push | src/lib/list.c:46-49 | the element is first |
| LinkedLists.List.Append | src/lib/list.c:57-60 | the element is last |
| LinkedLists.List.Remove | src/lib/list.c:67-75 | the sequence closes up without the element, which is in no place of it any more |
| LinkedLists.List.Pop | src/lib/list.c:83-88 | the first element is taken off |
| LinkedLists.List.Find | src/lib/list.c:98-108 | true iff the element is in the list |
| LinkedLists.List.Traversal | src/lib/list.c:118-130 | the first element that meets the condition, NULL iff none does |
| LinkedLists.List.Len | src/lib/list.c:138-148 | the number of elements |
| LinkedLists.List.Empty | src/lib/list.c:157-160 | true iff there is no element |
| Sequences.WithoutAt | src/lib/list.c:67-75 | removing the k-th of different elements closes the sequence up at k |
| CowRun.CowRefinesEager | src/userprog/fork.c:64-143 | over every run of process creation, page mapping, user stores, forks, exits and reaps, every process sees at every page what it would see had each fork copied all pages; a run ends early exactly where a step needs more frames than its pool has free, and never by an ASSERT |
| CowRun.ReachableCounts | src/kernel/memory.c:413-435 | in every reachable state mem[] of a user page's frame is the number of present entries that point at it (and fits a byte), a writable entry is the only one, and a pool bit is set iff the count is positive |
| CowRun.StepRefines | src/kernel/memory.c:913-962 | each step keeps the invariant, stops exactly when fewer frames are free than it needs, trips no ASSERT and does to the pages what the step on private pages does |
| CowRun.FaultRefines | src/kernel/memory.c:913-934 | the write-protect handler shows no process a difference and leaves the faulting entry writable: a sole frame stays and nothing else changes, a shared one is split; it stops iff the frame has more than one sharer and fewer than two kernel frames are free |
| CowRun.SplitRefines | src/kernel/memory.c:924-933 | copying a shared frame through the buffer page to a new one: the same bytes for everybody, one sharer less on the old frame, a free kernel frame more in use; every other frame, the buffer too, is as before |
| CowRun.WriteRefines | src/kernel/memory.c:913-934 | a user store changes one byte of the storing process's page and nothing that another process sees; it stops iff the page is shared and fewer than two kernel frames are free |
| CowRun.LoadRefines | src/userprog/fork.c:64-106 | a load gives the byte of the private page |
| CowRun.ExecuteRefines | src/userprog/process.c:139-156 | a new process sees no page and changes nobody's; it stops iff fewer than 25 kernel frames are free |
| CowRun.GetAPageRefines | src/kernel/memory.c:340-377 | one more page for the process, writable, with the bytes that its user frame held before; it stops iff no user frame is free, or no kernel frame for a page table that is missing; the ASSERT fires exactly for the first page of the bitmap, otherwise only for a page already mapped |
| CowRun.InitialInv | src/kernel/memory.c:103-167 | the state after mem_pool_init is good and shows nothing |
| CowFork.ForkRefines | src/userprog/fork.c:115-143 | copy_page_tables gives the child exactly the parent's pages, and nobody else's view changes |
| CowFork.ForkShares | src/kernel/memory.c:951-962 | after fork every page of the parent is in one frame with the child's, read-only for both, and nobody else's entry changes |
| CowSpace.ForkSpace | src/userprog/fork.c:208-266 | fork stops iff fewer than 25 kernel frames and one for each page table of the child are free, and takes exactly those |
| CowSpace.PallocSpace | src/kernel/memory.c:250-261 | palloc fails iff its pool has no free frame; otherwise it takes the first one |
| CowSpace.KernelPagesSpace | src/kernel/memory.c:638-646 | get_kernel_pages fails iff fewer than n kernel frames are free, and takes n |
| CowSpace.GetAPageSpace | src/kernel/memory.c:340-377 | one user frame, and one kernel frame iff the page table is missing |
| CowSpace.FaultSpace | src/kernel/memory.c:913-934 | do_wp_page needs two free kernel frames iff the frame has more than one sharer |
| CowFork.EagerForkCopies | src/userprog/fork.c:64-106 | copy_body_stack3, the version that was replaced, does the same to the pages: the specification is the old code |
| CowFork.SharePageKeeps | src/kernel/memory.c:951-962 | sharing one page: both entries read-only, one sharer more, the invariant stays |
| CowFork.CopyPageKeeps | src/userprog/fork.c:64-106 | copying one page: a frame of its own for the child, with the same bytes |
| CowBound.SharersFitInByte | src/kernel/memory.c:91 | no frame has more than 156 sharers, since each process holds 25 frames of the kernel pool; so the one-byte count never wraps around |
| CowExit.ExitRefines | src/userprog/wait_exit.c:20-92 | exit cannot trip an ASSERT; it takes away the pages of the process alone, drops exactly one reference per mapping, and frees a frame iff that was the last; PCB and page directory stay for the parent, 22 of the 23 bitmap pages are free |
| CowExit.ReleaseFound | src/userprog/wait_exit.c:35-70 | the walk over page directory and page tables finds every present page and table once, and 22 of the 23 bitmap pages |
| CowExit.ReleaseCounts | src/userprog/wait_exit.c:35-70 | after release_prog_resource each count is lower by one iff the frame was among those given back |
| CowExit.ReapRefines | src/thread/thread.c:348-382 | thread_exit of an exited process frees its page directory and PCB and shows no process a difference |
| CowInvariants.PallocKeeps | src/kernel/memory.c:250-261 | a frame from palloc was free and belongs to nothing yet |
| CowInvariants.FreeKeeps | src/kernel/memory.c:413-435 | giving back a frame of one user keeps the invariant |
| CowInvariants.SplitKeeps | src/kernel/memory.c:924-933 | moving one of several sharers to a loose frame keeps all counts right |
| CowInvariants.ShareKeeps | src/kernel/memory.c:951-962 | one more read-only sharer keeps all counts right |
| CowInvariants.AccessKeeps | src/kernel/memory.c:311-331 | an entry may become writable when its frame has one user |
| CowInvariants.PageKeeps | src/kernel/memory.c:272-303 | a loose frame becomes a page of a process |
| CowInvariants.TableKeeps | src/kernel/memory.c:293-302 | a loose kernel frame becomes a page table |
| CowInvariants.ProcKeeps | src/userprog/fork.c:19-52 | 25 kernel frames become PCB, bitmap and page directory of a process |
| CowRefines.NewProcKeeps | src/userprog/fork.c:19-52 | making a process changes nobody's pages |
| CowRefines.MapLooseKeeps | src/kernel/memory.c:272-303 | page_table_add of a loose frame: one more page with the frame's bytes |
| Cow.Palloc | src/kernel/memory.c:250-261 | a frame that was free, from the right pool, with count 1 and its bit set; nothing else changes |
| Cow.KernelPages | src/kernel/memory.c:638-646 | n frames of the kernel pool; no ASSERT can fire |
| CowKernel.Kernel.Palloc | src/kernel/memory.c:250-261 | in place: what the model's palloc says, or the halt of a full bitmap |
| CowKernel.Kernel.FreePhyPage | src/kernel/memory.c:413-435 | in place: one reference less, the last one clears the pool bit; ASSERT on a count of 0 |
| CowKernel.Kernel.ModifyPte | src/kernel/memory.c:311-331 | in place: the entry points at the frame with the access right |
| CowKernel.Kernel.PageTableAdd | src/kernel/memory.c:272-303 | in place: a missing page table first, then the entry, which must be absent |
| CowKernel.Kernel.GetAPage | src/kernel/memory.c:340-377 | in place: bitmap bit, frame and entry of one user page |
| CowKernel.Kernel.GetKernelPages | src/kernel/memory.c:638-646 | the loop takes the frames that the recursive specification takes, zeroed |
| CowKernel.Kernel.CreateProcess | src/userprog/fork.c:19-52 | in place: the frames of a new process |
| CowKernel.Kernel.FullChildProcessPageTable | src/kernel/memory.c:951-962 | in place: parent and child entries read-only, count up by one modulo 256 |
| CowKernel.Kernel.CopyPageTables | src/userprog/fork.c:115-143 | the loop over bitmap bytes and bits shares exactly the pages whose bits are set |
| CowKernel.Kernel.SysFork | src/userprog/fork.c:208-266 | in place: child with a copy of the bitmap and all pages shared |
| CowKernel.Kernel.DoWpPage | src/kernel/memory.c:913-934 | in place: what the specification of the handler says |
| CowKernel.Kernel.SplitPage | src/kernel/memory.c:924-933 | in place: the branch for a shared frame |
| CowKernel.Kernel.ReleaseProgResource | src/userprog/wait_exit.c:20-92 | the nested loops give back exactly the frames of the specification, each once, in order |
| CowKernel.Kernel.SysExit | src/userprog/wait_exit.c:182-203 | in place: exit, as far as memory goes |
| CowKernel.Kernel.ThreadExit | src/thread/thread.c:348-382 | in place: page directory and PCB of an exited process |
| CowKernel.Kernel.UserWrite | src/kernel/memory.c:913-934 | in place: a store, through the handler if the entry is read-only |
| PageSpaces.PageSpace.VaddrGet | src/kernel/memory.c:212-242 | the virtual pages found were free; none exactly when no run of that length is free; it halts iff the map is full |
| PageSpaces.PageSpace.MapPage | src/kernel/memory.c:250-303 | a free frame gets mapped at the page: tables agree with one page less to do; it halts iff no frame is free |
| PageSpaces.PageSpace.MallocPage | src/kernel/memory.c:601-630 | exactly cnt new consecutive pages with different free frames; NULL exactly when no run of virtual pages is free; it halts exactly on a full map, or with a run of pages but fewer free frames; ASSERT exactly for a count of 0 or of 3840 and more |
| PageSpaces.PageSpace.UnmapPage | src/kernel/memory.c:413-465 | the frame of the page is free again; the ASSERT on its count holds |
| PageSpaces.PageSpace.MfreePage | src/kernel/memory.c:505-559 | exactly those pages go, from page table, frame pool, mem[] and virtual bitmap |
| PageSpaces.NothingLeft | src/kernel/memory.c:505-559 | with no heap page left, both bitmaps and mem[] are bit for bit what they were before |
| Arenas.BlockInPage | src/kernel/memory.c:718-734 | block2arena undoes arena2block, and a block lies within the page of its arena |
| Arenas.GridIndex | src/kernel/memory.c:718-721 | every address on the grid of a class is a numbered block |
| Arenas.CountFull | src/kernel/memory.c:890-901 | free_cnt reaches blocks_per_arena iff no block of the arena is live |
| Arenas.Classes | src/kernel/memory.c:695-706 | seven classes from 16 to 1024 bytes, each twice the one before, and as many blocks in a page as fit behind its header |
| Arenas.PageCountIs | src/kernel/memory.c:783 | the fewest pages that hold 12 bytes and the block, and one more |
| ArenaSteps.AddSmall | src/kernel/memory.c:810-832 | a new arena: its blocks are the free list, counted, and nothing else changes |
| ArenaSteps.TakeBlock | src/kernel/memory.c:835-841 | handing out the first block of a list keeps lists, counts and live blocks right |
| ArenaSteps.GiveBlock | src/kernel/memory.c:887-890 | a freed block is in its list once, and its arena counts it |
| ArenaSteps.DropSmall | src/kernel/memory.c:890-901 | an arena without live blocks leaves no block in the list and gives its page back |
| ArenaSteps.AddLarge | src/kernel/memory.c:780-800 | whole pages for a large block, behind a header of their own |
| ArenaSteps.DropLarge | src/kernel/memory.c:881-883 | a large block gives exactly its pages back |
| Heaps.Heap.SysMalloc | src/kernel/memory.c:745-843 | a block nobody holds, for the size asked. Up to 1024 bytes: the class's first free block if there is one, else the first block of one new page. More: k new pages, where k - 1 is the least number that holds 12 bytes and the block. NULL exactly for size 0, a size not below the pool's, or when no run of that many virtual pages is free; it halts exactly when new pages are wanted and the map is full, or has a run but too few frames are free; ASSERT exactly when 3840 pages or more are wanted |
| Heaps.Heap.SysFree | src/kernel/memory.c:850-905 | halts on NULL; for a live pointer exactly that block is live no more: a large block gives back exactly its pages, a small one becomes the last of its list or its page goes back; no ASSERT of the loops fires, and the invariant of the heap stays |
| Heaps.Heap.FindDesc | src/kernel/memory.c:804-807 | the smallest class that is large enough |
| Heaps.Heap.LinkBlocks | src/kernel/memory.c:825-830 | the list of all blocks of the arena; the ASSERT that none is in it yet holds |
| Heaps.Heap.UnlinkBlocks | src/kernel/memory.c:893-898 | the list without the arena's blocks; the ASSERT that each is in it holds |
| Heaps.Heap.constructor | src/kernel/memory.c:695-709 | seven empty free lists |
| HeapRuns.LiveBlocksAreSafe | src/kernel/memory.c:745-905 | all bytes of a live block are in mapped pages of the heap, clear of every arena header, of every other live block and of every free block with its list links |
| HeapRuns.PiecesApart | src/kernel/memory.c:718-721 | any two blocks, live or free, small or large, do not overlap |
| HeapRuns.ArenaIsUsed | src/kernel/memory.c:890-901 | every arena holds a live block: no page is kept for nothing |
| HeapRuns.NothingLive | src/kernel/memory.c:890-901 | with nothing live there is no arena, no free block and no page |
| HeapRuns.Serve | src/kernel/memory.c:745-905 | any run of sys_malloc and sys_free of held pointers keeps the invariant, and halts only on a full map of pages or of frames or where 3840 pages are wanted; when the caller holds nothing in the end, virtual bitmap, frame pool and mem[] are as before |
| Bytes.WordsRoundTrip | src/fs/file.c:494-504 | a table of block addresses written to a sector is read back as written |
| Partitions.Partition.BlockBitmapAlloc | src/fs/file.c:92-102 | the first free block, now marked; it halts iff none is free |
| Files.FileWrite | src/fs/file.c:349-601 | append: the bytes of the file are the old ones followed by the buffer, in all four cases of blocks; the file owns size / 512 + 1 data blocks, and the table iff it needs it; no other file, directory or block changes; refused iff the file would exceed 71680 bytes, the ASSERT fires at exactly that size, and it halts for lack of blocks iff fewer are free than the bytes need |
| Files.FileRead | src/fs/file.c:610-734 | exactly the bytes from the position on, as many as asked for or left, and the position moves behind them; -1 exactly when bytes are asked for and none is left; the ASSERT fires exactly when a block index reaches 139 or the position is behind the file |
| Files.WriteThenRead | src/fs/file.c:610-734 | write, seek to where the file ended, read: the buffer comes back |
| Files.SeekSet | src/fs/fs.c:695-728 | the offset if inside the file, else -1 and no move |
| Files.TakeBlocks | src/fs/file.c:426-445 | the allocation loops take free blocks, enter direct ones in the inode, and the bitmap loses exactly those; they halt iff fewer are free than wanted |
| Files.GrowDirect | src/fs/file.c:418-446 | growth within the direct blocks |
| Files.GrowAcross | src/fs/file.c:447-495 | growth from direct blocks across into the indirect table |
| Files.GrowIndirect | src/fs/file.c:496-525 | growth within the indirect table |
| Files.Grow | src/fs/file.c:387-526 | in each case exactly the missing blocks are added, and every block has one owner; it halts iff fewer are free than those and the table, if new |
| Files.FirstBlock | src/fs/file.c:372-386 | a file never written gets its first block |
| Files.WriteChunk | src/fs/file.c:548-582 | one sector's worth of bytes is appended, the rest of the sector kept |
| Files.AppendChunk | src/fs/file.c:551-582 | patching a sector behind the last byte appends to the file's bytes, whatever follows |
| Files.BlockTable | src/fs/file.c:640-703 | the table of addresses read holds the file's blocks over the range |
| Files.ReadChunks | src/fs/file.c:711-729 | the read loop delivers the stretch of the file |
| Files.OwnAfter | src/fs/file.c:372-526 | after a change of one inode's slots to free or own blocks, with the bits following, every block still has one owner |
| Files.ExtendsReslot | src/fs/file.c:387-526 | adding blocks in order keeps the shape of the file and the ownership of blocks |
| Blocks.ReslotExclusive | src/fs/file.c:92-102 | no block gets into two slots |
| Blocks.ReslotBits | src/fs/file.c:92-102 | a bitmap bit is set iff some slot holds the block |
| Blocks.RemoveKeeps | src/fs/inode.c:229-288 | without an inode the blocks of the others are as owned as before |
| Blocks.OthersKeep | src/fs/file.c:548-582 | writes to sectors of one inode leave the blocks and bytes of all others |
| DirTables.NameIsNameOf | src/fs/dir.c:98-172 | the comparison of names finds exactly the entries that store the name |
| DirTables.InsertMaps | src/fs/dir.c:188-328 | an entry in a dead place adds its name to the map, and only that |
| DirTables.DeleteMaps | src/fs/dir.c:338-479 | clearing an entry takes its name out of the map, and only that |
| Directories.SearchDirEntry | src/fs/dir.c:98-172 | found iff the directory's map has the name, with inode and type of the map, through holes and in any block |
| Directories.SyncDirect | src/fs/dir.c:240-323 | over the 12 direct blocks: the map gets the name; the entry takes the first dead place, in a block the directory has or opens; none exactly when all 252 places are taken, and then nothing changed so far |
| DirSpills.SyncDirEntry | src/fs/dir.c:188-328 | the directory stays a good one iff it had a dead place; if it had none, the words of sector 0, the sectors they name and the number of free blocks decide whether the entry is stored, is refused or halts the system, and stored its size counts more entries than it has places |
| DirSpills.SpillOver | src/fs/dir.c:240-327 | the rounds behind block 12 come to exactly what the walk along the words of sector 0 says: the first that is 0, names no sector or names one with a dead record decides |
| DirSpills.FateIs | src/fs/dir.c:240-327 | the first word that is 0, names no sector or names one with a dead record decides, and which of these it is says what comes of the entry |
| DirSpills.ZerosStore | src/fs/dir.c:250-303 | with a sector 0 that begins with zeros and two free blocks the entry is stored |
| DirSpills.OverFullIsBad | src/fs/dir.c:312-323 | a directory with 253 entries in its size has not the shape that all operations need |
| FullDirs.FullIff | src/fs/dir.c:240-327 | a directory is full iff its map has 252 names |
| FullDirs.FillRoot | src/fs/dir.c:188-328 | full directories are reached: 250 times create in the root of a formatted partition, all within the limits, and 251 inodes are in use |
| FullDirs.OneTooMany | src/fs/dir.c:240-303 | one file more, with fewer than 256 inodes in use, spills: the volume is good afterwards iff no file was made, and with a sector 0 that begins with zeros it is made |
| FullDirs.BreakVolume | src/fs/dir.c:240-303 | so a run breaks the volume: on any disk with such a sector 0, format 13 blocks or more and create 251 files |
| Directories.DeleteDirEntry | src/fs/dir.c:338-479 | true iff an entry but the dots has the inode; its name leaves the map, and a block that held only it is free again; both ASSERTs hold |
| Directories.TallyBlock | src/fs/dir.c:371-401 | the scan of a sector counts its entries and finds the one with the inode |
| Directories.ShapeInsert | src/fs/dir.c:250-323 | i_size stays 24 times the live entries, and every block but the first holds one |
| Directories.ShapeDelete | src/fs/dir.c:410-473 | the same after a deletion, with or without a block given back |
| Directories.OneMoreBlock | src/fs/dir.c:250-266 | a block taken by one directory belongs to nobody else |
| Directories.OneLessBlock | src/fs/dir.c:414-425 | a block given back by a directory is free, all others as owned as before |
| DirReading.DirRead | src/fs/dir.c:491-552 | the n-th call after a rewind returns the n-th live entry in block order, the one after the last NULL; it stays within the blocks and its ASSERT holds |
| DirReading.ReadAll | src/fs/dir.c:491-552 | reading until NULL gives all live entries, in order, each once |
| DirReading.DirIsEmpty | src/fs/dir.c:561-566 | true iff the directory lists the dots only |
| DirReading.AssertOneBlock | src/fs/dir.c:579-585 | the ASSERT of dir_remove cannot fire: an empty directory has no block but the first |
| InodeTable.Locate | src/fs/inode.c:24-44 | sector, offset and straddling of a 76-byte record, inside the table |
| InodeTable.RecordRoundTrip | src/fs/inode.c:47-84 | a record written as bytes is read back as written |
| Layouts.RecordLayout | src/fs/inode.h:8-21 | the record by its words: number, size, two that are zero on the disk, 13 addresses, two links that are zero |
| Layouts.EntryLayout | src/fs/dir.h:20-25 | a directory entry by its bytes: 16 of the name, filled up with zeros, then number and type |
| Layouts.BlockLayout | src/fs/file.c:640-703 | data block b of a file is one of 12 addresses in the inode or a word of the table |
| Layouts.FileBlocks | src/fs/file.c:387-526 | a written file has size / 512 + 1 data blocks, and the table iff those are more than 12 |
| Layouts.BitOrder | src/lib/bitmap.c:26-31 | bit k of a byte is its k-th from below |
| Layouts.ReadingOrder | src/fs/dir.c:491-552 | the live entries read one after the other come in the order of their places |
| InodeTable.Inodes.InodeSync | src/fs/inode.c:47-84 | the record of the number cut to 8 bits is the inode; every other record and sector is untouched, also when the record straddles two sectors |
| InodeTable.Inodes.InodeOpen | src/fs/inode.c:97-152 | an open inode is shared and counted, another is read from the disk; the list holds each number once and agrees with the disk |
| InodeTable.Inodes.InodeClose | src/fs/inode.c:155-174 | the last user takes the inode off the list, which closes up; no other count and no record changes |
| InodeTable.Inodes.InodeDelete | src/fs/inode.c:195-222 | the record is all zeros, every other one as before |
| InodeTable.Inodes.InodeRelease | src/fs/inode.c:229-288 | the part about the inode itself, opened, deleted and closed: list and disk agree afterwards iff nobody else had it open; all other records and counts are as before |
| InodeTable.Inodes.DirRemove | src/fs/fs.c:1036-1046 | sys_rmdir has the directory open while it is deleted: in between list and disk disagree, at the end they agree iff nobody else had it open |
| InodeTable.Inodes.FileCreate | src/fs/file.c:197-206 | the new inode is on disk and first in the list, with one user |
| InodeTable.Inodes.WriteNew | src/fs/fs.c:897-904 | the inode of a new directory is on disk, and not in the list |
| InodeTable.Inodes.ChangeAndSync | src/fs/inode.c:47-84 | a changed and synced inode: list and disk agree again |
| InodeTable.SyncNeedsLowNumber | src/fs/inode.c:50 | inode_sync followed by a read gives the inode back for all contents iff its number is below 256 |
| OpenInodes.Serve | src/fs/inode.c:47-288 | over any run of open, close, write, create, mkdir, unlink and rmdir the records on disk and the list of open inodes are what a table of files with their numbers of users says: between the calls list and disk agree, each inode is in the list once, and its record is what was last written |
| OpenInodes.Perform | src/fs/inode.c:47-288 | each call does to disk and list what it does to that table |
| Trees.AddFileKeeps | src/fs/file.c:127-233 | one more file keeps the tree: root, parents, one name per inode |
| Trees.AddDirKeeps | src/fs/fs.c:799-931 | one more directory, one level below its parent, keeps the tree |
| Trees.DropFileKeeps | src/fs/fs.c:735-792 | one file less keeps the tree |
| Trees.DropDirKeeps | src/fs/fs.c:1014-1051 | one empty directory less keeps the tree |
| TreePaths.ResolveFolds | src/fs/fs.c:322-397 | whatever path leads to a directory, folding its dots away gives the directory's own path |
| TreePaths.PathResolves | src/fs/fs.c:1142-1200 | the path by way of ".." to the root, read forwards, leads back to the directory |
| TreePaths.OnlyPath | src/fs/fs.c:322-397 | search_file and sys_getcwd are inverse: a path without dots leads to a directory iff it is the path of that directory |
| Volumes.CreateKeeps | src/fs/file.c:127-233 | create: block ownership, shapes and tree stay, the new file is empty, all files keep their bytes |
| Volumes.MkdirKeeps | src/fs/fs.c:799-931 | mkdir: the same, with one more directory that holds its dots |
| Volumes.MkdirUndone | src/fs/fs.c:915-931 | the rollback of mkdir leaves nothing behind that can be seen |
| Volumes.UnlinkKeeps | src/fs/fs.c:735-792 | unlink: the file is gone, its blocks are free, all else stays |
| Volumes.RmdirKeeps | src/fs/fs.c:1014-1051 | rmdir: the empty directory is gone, its block is free, all else stays |
| Volumes.WriteKeeps | src/fs/file.c:349-601 | write: the tree stays, the file grows, all other files keep their bytes |
| Releasing.InodeRelease | src/fs/inode.c:229-272 | exactly the blocks of the inode, direct, table and indirect, become free; no ASSERT fires |
| FileSystem.Volume.InodeBitmapAlloc | src/fs/file.c:76-83 | the least free number, below 256 while fewer than 256 inodes are in use |
| FileSystem.Volume.FreeInode | src/fs/inode.c:273-275 | the number, and no other, is free again |
| FileSystem.Volume.Create | src/fs/file.c:127-207 | one more empty file, or no change without a slot in the file table; the volume is good afterwards iff the directory had a dead place or no file was made; it halts only without a free block for the entry, or by what sector 0 says of a full directory |
| FileSystem.Volume.Mkdir | src/fs/fs.c:836-931 | one more directory; the volume is good afterwards iff the parent had a dead place or the rollback left nothing to be seen; it halts only with fewer than two free blocks, three for a full parent, or by what sector 0 says |
| FileSystem.Volume.Unlink | src/fs/fs.c:785-791 | the volume stays good; the file is gone |
| FileSystem.Volume.Rmdir | src/fs/dir.c:575-604 | the volume stays good and the directory is gone; if the search took it for its own parent, an entry for a free inode is left |
| FileSystem.Volume.Write | src/fs/file.c:349-601 | the volume stays good; the bytes are appended; it halts iff the file would get exactly 71680 bytes long or too few blocks are free |
| Paths.PathParse | src/fs/fs.c:274-288 | what stands behind the leading slashes up to the next slash, and the rest from that slash on, or NULL at the end |
| Slashes.ComponentsIff | src/fs/fs.c:274-288 | a path has exactly these components iff it consists of them with any number of slashes before, between and behind |
| Slashes.MoreSlashes | src/fs/fs.c:277-279 | one more slash in front of a path that is empty or begins with one changes nothing |
| Slashes.JoinIsSpread | src/fs/fs.c:1180-1195 | a printed path has one slash before each name and none behind |
| Paths.SplitJoin | src/fs/fs.c:274-288 | components joined with slashes are parsed back as they were |
| Searching.SearchFile | src/fs/fs.c:322-397 | what the path resolves to in the tree of directories, and where the search ended; the three names of the root are known without looking |
| Searching.SearchFacts | src/fs/fs.c:322-397 | the search ends at the component that is missing or at the first regular file, in the directory that the components before it lead to |
| Cwd.GetParent | src/fs/fs.c:1062-1076 | the second entry of the first block names the unique parent; its ASSERTs hold |
| Cwd.GetChildName | src/fs/fs.c:1088-1133 | the name of the child in its parent, which is always found |
| Cwd.ClimbUp | src/fs/fs.c:1169-1179 | the walk along ".." ends at the root with all names, last first |
| Cwd.TurnAround | src/fs/fs.c:1180-1195 | cutting at the last slash turns the components around |
| Cwd.GetCwd | src/fs/fs.c:1142-1200 | the path of the directory from the root, if it is shorter than the 512 bytes it is collected in; it halts iff the caller's buffer is shorter |
| Cwd.CwdRoundTrip | src/fs/fs.c:1142-1200 | what sys_getcwd prints, search_file resolves to the directory it was asked about |
| Syscalls.PathDepth | src/fs/fs.c:297-313 | the number of components |
| Syscalls.WhereToCreate | src/fs/fs.c:811-838 | a place iff all but the last component lead to a directory that has no such name |
| Syscalls.SysMkdir | src/fs/fs.c:799-931 | true: one more directory at the missing last component; false: nothing to be seen, and either the place is not missing or the parent is full; the volume is good afterwards iff it was not a full parent that got the entry; it halts only for the reasons of the operation behind it |
| Syscalls.SysCreate | src/fs/fs.c:401-473 | the same for open with O_CREAT, which also refuses a path that ends with a slash; without a free descriptor it answers -1 although the file is there |
| Syscalls.SysUnlink | src/fs/fs.c:735-792 | true iff the search ends at a regular file not in use, which is then gone; that is the entry of the last component iff all components before it lead to a directory; it halts exactly for the root |
| Syscalls.LastInDirectory | src/fs/fs.c:370-385 | the search for a file ends at the last component iff that is looked up in a directory |
| Syscalls.UnlinkBehindFile | src/fs/fs.c:735-792 | "/f/x", with f a regular file: the search ends at f, so f is what is removed |
| Syscalls.SysRmdir | src/fs/fs.c:1014-1051 | true iff the path leads to an empty directory but the root; the tree stays whole iff the last component is not "."; if it is, the parent keeps an entry for a free inode |
| FileSystem.DanglingIsBad | src/fs/fs.c:1014-1051 | a directory that lists an inode which is not in use is no part of a good volume |
| Formatting.FormattedIsGood | src/fs/fs.c:133-262 | a formatted volume is good: a tree of one directory that is its own parent |
| Formatting.FillBlockBitmap | src/fs/fs.c:194-211 | the block bitmap that formatting writes: bit 0 is set, and of the others exactly those behind bit block_bitmap_bit_len, so the clearing loop leaves one block more than there are |
| Formatting.Format | src/fs/fs.c:133-262 | formatting gives such a volume; it has one block more than it counted, unless the count is a multiple of 4096 |
| Formatting.FormatAndServe | src/fs/fs.c:133-262 | after formatting any sequence of mkdir, create, unlink, rmdir (not ending in ".") and write is served one by one, each call doing to the tree and the files what it is for iff it can be done, and else nothing that can be seen; the run ends early only with 256 inodes, with an entry asked for in a full directory, or with a call that may halt; as long as it goes on every block has one owner, a bitmap bit is set iff its block or inode is in use, files and directories have their shape, directories form a tree |
| Formatting.Serve | src/fs/fs.c:401-1051 | one call: done or refused, by conditions on the volume before it; an entry asked for in a full directory; or a halt: of unlink and rmdir iff the path leads to the root, of write iff the file would get exactly 71680 bytes long or too few blocks are free, of mkdir and create only for lack of blocks or in a full directory |
| LockSteps.LocksInAllRuns | src/thread/sync.c:26-99 | in every run from boot, with threads starting and ending: no ASSERT or PANIC fires; one thread runs and READY means being in the ready list once; at most one thread is between its sema_down and its sema_up, and the value is 0 iff one is; the recursion count is its acquires not yet released; a free lock with waiters has a woken thread that will try again; a waiter is asleep, once, in the list of one lock and in no other |
| LockCounts.CallsInAllRuns | src/thread/sync.c:69-99 | in every run from boot: a thread that has called lock_acquire more often than lock_release, and is back from the last call, holds the lock, and the count is the difference; a thread that has not does not hold it |
| Turns.TurnComes | src/thread/thread.c:189-237 | over whole runs: the thread at place k of the ready list runs within k + 1 switches, and one more for each wakeup in between |
| Turns.WaiterComes | src/thread/sync.c:26-66 | over whole runs: the waiter at place k of a lock is woken by the k + 1st release, in front of all ready threads |
| Turns.PreemptTurns | src/thread/thread.c:189-224 | after a tick or a yield the first ready thread runs and the old one is the last; alone it runs on |
| Turns.BlockTurns | src/thread/thread.c:227-237 | after thread_block the first ready thread runs, or idle, and the old one has the status asked for |
| Turns.ExitTurns | src/thread/thread.c:348-382 | the same after a thread that ended |
| LockSteps.StepKeeps | src/thread/sync.c:26-99 | every step of every thread keeps this |
| LockSteps.AcquireKeeps | src/thread/sync.c:69-83 | the holder who acquires again only counts |
| LockSteps.TakeKeeps | src/thread/sync.c:44-46 | taking the semaphore: nobody else was inside |
| LockSteps.WaitKeeps | src/thread/sync.c:31-42 | going to sleep among the waiters: the ASSERT that it is not among them holds, and schedule finds a thread |
| LockSteps.UpKeeps | src/thread/sync.c:52-66 | sema_up: its ASSERT holds, and the first waiter is woken and will try again |
| LockSteps.ReleaseKeeps | src/thread/sync.c:86-99 | the ASSERTs on holder and count hold |
| LockSteps.MovesInside | src/thread/sync.c:69-99 | between sema_down and sema_up, one field at a time |
| ThreadInvariants.PickKeeps | src/thread/thread.c:189-224 | schedule finds a thread: if nobody is ready the idle thread is asleep and can be woken |
| ThreadInvariants.SwitchKeeps | src/thread/thread.c:227-237 | blocking or yielding keeps the scheduler's lists |
| ThreadInvariants.WakeKeeps | src/thread/thread.c:240-255 | waking a thread that is asleep outside the locks keeps them too |
| ThreadInvariants.StartKeeps | src/thread/thread.c:154-173 | a newborn thread is not in the ready list, whose last element it becomes |
| ThreadInvariants.ExitKeeps | src/thread/thread.c:348-382 | a thread that ends itself without holding a lock or having to wait for one is in no list any more, and schedule finds another one |
| ThreadInvariants.ReapKeeps | src/thread/thread.c:348-374 | thread_exit of a process that hangs: it is not in the ready list, and all else stays |
| ThreadKernel.Cpu.ThreadUnblock | src/thread/thread.c:240-255 | in place: first in the ready list, READY; ASSERT and PANIC for a thread that is awake or listed |
| ThreadKernel.Cpu.Schedule | src/thread/thread.c:189-224 | in place: the running thread to the end if it is to run again, the first ready thread runs, the idle thread if there is none |
| ThreadKernel.Cpu.ThreadBlock | src/thread/thread.c:227-237 | in place: asleep with that status, another thread runs |
| ThreadKernel.Cpu.ThreadYield | src/thread/thread.c:258-267 | in place: to the end of the ready list |
| ThreadKernel.Cpu.ThreadStart | src/thread/thread.c:154-173 | in place: last in the ready list, READY |
| ThreadKernel.Cpu.ThreadExit | src/thread/thread.c:348-382 | in place: off the ready list if it is there, gone from all others, and the next thread if asked for |
| ThreadKernel.Cpu.SemaDown | src/thread/sync.c:26-49 | in place: one round of the loop |
| ThreadKernel.Cpu.SemaUp | src/thread/sync.c:52-66 | in place |
| ThreadKernel.Cpu.LockAcquire | src/thread/sync.c:69-83 | in place, up to sema_down |
| ThreadKernel.Cpu.LockRelease | src/thread/sync.c:86-99 | in place, up to the last release |
| ThreadKernel.Cpu.LockField | src/thread/sync.c:69-99 | in place, one field of the lock at a time |
| ThreadKernel.Cpu.Perform | src/thread/sync.c:26-99 | any step callers may make never halts and keeps the invariant |
| Processes.WaitAndExitInAllRuns | src/userprog/wait_exit.c:134-203 | in every run from the start: every parent_pid names one live process that has not begun to exit, pids in use differ, each process is there or was reaped (or ended itself, like the main thread) exactly once, and a waiting parent other than init has a child and no hanging one; only pids can run out |
| Families.FamiliesInAllRuns | src/userprog/fork.c:29 | in every run from the start: the parent of a forked process is the one that forked it, or init once that one has begun to exit; and who reaped it is the one that forked it, or init if that one had begun to exit |
| Processes.StepKeeps | src/userprog/wait_exit.c:134-203 | every step keeps this; no PANIC fires |
| Processes.WaitKeeps | src/userprog/wait_exit.c:148-177 | sys_wait reaps the first hanging child of the caller in the list, returns -1 iff the caller has no child, and waits otherwise |
| Processes.ExitBeginKeeps | src/userprog/wait_exit.c:182-191 | exactly the children of the exiting process become init's, which is there; nobody else changes |
| Processes.ExitEndKeeps | src/userprog/wait_exit.c:195-203 | the parent is found, and woken if it waits, init too; nobody else changes |
| Processes.ForkEndKeeps | src/userprog/fork.c:19-52 | exactly one process is new, the last of the list, with the pid that was taken, as a child of the caller; a recycled pid gains no children; nobody else changes |
| Processes.ForkPidKeeps | src/thread/thread.c:76-83 | the smallest pid that nobody has; it halts iff all 1024 are taken |
| Processes.ReleaseKeeps | src/thread/thread.c:86-92 | exactly that pid goes back after its process |
| Processes.ThreadExitKeeps | src/thread/thread.c:348-382 | a thread without parent and children, like the one of main (src/kernel/main.c:46), ends and gives its pid back, which is then nobody's pid or parent_pid |
| WaitExit.Table.FindHangingChild | src/userprog/wait_exit.c:118-124 | the first hanging child in the list of all threads |
| WaitExit.Table.FindChild | src/userprog/wait_exit.c:102-108 | the first child in the list |
| WaitExit.Table.PidToThread | src/thread/thread.c:396-405 | the first thread with the pid |
| WaitExit.Table.InitAdopt | src/userprog/wait_exit.c:134-140 | every child of the pid, and nobody else, becomes a child of init |
| WaitExit.Table.ForkPid | src/thread/thread.c:76-83 | in place: the loop finds the smallest free pid |
| WaitExit.Table.ForkEnd | src/userprog/fork.c:19-52 | in place: the child's copy of the PCB has its own pid and the caller's as parent_pid, and is the last of the list |
| WaitExit.Table.SysWait | src/userprog/wait_exit.c:148-177 | in place: one round of the loop of sys_wait |
| WaitExit.Table.SysExitBegin | src/userprog/wait_exit.c:182-191 | in place; PANIC exactly for a process without parent |
| WaitExit.Table.SysExitEnd | src/userprog/wait_exit.c:195-203 | in place |
| WaitExit.Table.ThreadExit | src/thread/thread.c:348-382 | in place: off the list of all threads, the pid back; it keeps the invariant |
| WaitExit.Table.Wait | src/userprog/wait_exit.c:148-177 | it keeps the invariant, and says -1 exactly to a caller without children |
| WaitExit.Table.Exit | src/userprog/wait_exit.c:182-203 | its halves never fail and keep the invariant |
| RingBuffers.IoQueue.GetChar | src/device/ioqueue.c:51-75 | one turn: the oldest byte and a wakeup for the producer who waits, or, exactly on an empty queue, to sleep: as the waiter if the lock is free, behind it if not |
| RingBuffers.IoQueue.PutChar | src/device/ioqueue.c:78-98 | one turn: the byte behind the others and a wakeup for the consumer who waits, or, exactly on a queue of 63, to sleep in the same way |
| RingBuffers.IoQueue.GoOn | src/device/ioqueue.c:59-64 | a woken thread: with the lock at last it waits without looking at the queue again; woken from waiting it releases the lock, wakes the next for it and looks again |
| RingBuffers.IoQueue.Wait | src/device/ioqueue.c:35-40 | the ASSERT that nobody waits on that side cannot fire, since the lock is kept across the sleep |
| RingBuffers.WaitsKeeps | src/device/ioqueue.c:59-64 | who waits has the lock, whoever else comes sleeps in its list, and a free lock with such sleepers has one on the way |
| RingBuffers.IoQueue.IoqLength | src/device/ioqueue.c:100-108 | the number of stored bytes, across wraparound |
| RingBuffers.IoQueue.Full | src/device/ioqueue.c:21-25 | true iff 63 bytes are stored |
| RingBuffers.IoQueue.Empty | src/device/ioqueue.c:28-32 | true iff none is |
| RingBuffers.IoQueue.constructor | src/device/ioqueue.c:7-12 | an empty queue on which nobody waits |
| RingBuffers.IoQueue.PipeRead | src/shell/pipe.c:59-80 | the oldest bytes, as many as asked for or there; it never sleeps |
| RingBuffers.IoQueue.PipeWrite | src/shell/pipe.c:83-102 | all bytes are stored iff they fit in the 63 places; otherwise it sleeps after those that fit |
| QueueRuns.Serve | src/device/ioqueue.c:51-98 | over any run of turns of any number of readers and writers: what was stored before followed by what was put is what was taken followed by what is stored, and no ASSERT fires; the buffer and the sleepers are what the run on values says |
| QueueRuns.AloneInRun | src/device/ioqueue.c:51-98 | over any run: nobody gets behind the lock, nobody sleeps for what is there and no two threads are asleep, iff every call that has to wait finds the lock free |
| QueueRuns.TurnAlone | src/device/ioqueue.c:51-98 | one turn keeps this iff the call finds the lock free, should it have to wait |
| QueueRuns.OneInside | src/device/ioqueue.c:51-98 | as long as this holds at most one thread is in a call |
| QueueRuns.OtherSideWakes | src/device/ioqueue.c:51-98 | and a thread that sleeps does not sleep for good: the next call on the other side has not to wait, wakes it, and it finishes when it goes on |
| QueueRuns.BothAsleep | src/device/ioqueue.c:51-98 | a run for which it fails: a reader and a writer that both sleep for good on an empty queue |
| RingBuffers.TakeOne | src/device/ioqueue.c:66-67 | advancing the tail around the end of the buffer takes the first byte |
| RingBuffers.PutOne | src/device/ioqueue.c:91-92 | storing at the head around the end of the buffer appends |
| Washing.WashPath | src/shell/buildin_cmd.c:20-69 | the buffer holds the canonical path: the fold of the components from the left, "." dropped, ".." going up and staying at the root; it halts iff the path is not absolute |
| Washing.WashedComponents | src/shell/buildin_cmd.c:20-69 | a washed path has no ".", no ".." and no doubled or trailing slash |
| Washing.WashTwice | src/shell/buildin_cmd.c:20-69 | washing twice equals washing once |
| Washing.Append | src/shell/buildin_cmd.c:41-60 | one component worked into the buffer in place |
| WashedPaths.WashKeepsDirectory | src/shell/buildin_cmd.c:20-69 | a path to a directory still leads there when it is washed |
| WashedPaths.WashKeepsFile | src/shell/buildin_cmd.c:20-69 | so does a path that ends with a regular file |
| WashedPaths.WashedLeadsTo | src/shell/buildin_cmd.c:20-69 | the washed path leads to a directory iff the components, folded, are the directory's path |
| WashedPaths.WashThroughFile | src/shell/buildin_cmd.c:20-69 | for a path through a regular file the washed path finds the same file iff the components up to the file, folded, are the beginning of all components folded |
| WashedPaths.WashedAwayFile | src/fs/fs.c:322-397 | a path for which it does not: "/f/.." is the file f, and washed it is the root |

## Left out

Stated for less than all inputs, because the code demands it or fails outside:

- FileSystem.Volume.Create: like Mkdir it needs fewer than 256 inodes in use, since `inode_sync` keeps no others; numbers are handed out first fit.
- DirSpills.SyncDirEntry: of a full directory that gets an entry it says what becomes of that directory, not what the sector it was written to was used for; a word that names no sector halts by the driver's ASSERT (src/device/ide.c:109). The count loop in delete, which does not advance behind block 12 (src/fs/dir.c:433-439), is not reached by good directories.
- Searching.SearchFile: paths are absolute, shorter than 512 bytes, with names of 1 to 15 bytes; for a path of several slashes and nothing else the code returns a number it never set.
- Files.FileWrite: the buffer is shorter than 3 GB, being in user space; when it halts nothing is said of the disk.
- Formatting.FormatAndServe: the rmdir calls in the sequence do not end in ".", the case in which `SysRmdir` is proved to break the tree; nothing is promised behind the first entry asked for in a full directory, as `DirSpills` has it; `write` is given a path and opens the file itself.
- Formatting.Format: the partition has room for 8 blocks or more, and the sector behind the last counted block, which the bitmap offers too, is on the disk. The search for a partition and its superblock are not part of this model.
- ThreadInvariants.ExitKeeps: the locks that `release_pid` and `mfree_page` take inside `thread_exit` must be uncontended. They are taken behind the write of TASK_DIED (src/thread/thread.c:352, 374), so a thread that has to wait for one comes back as TASK_RUNNING; `schedule` then queues it again, and when its turn comes it runs into the PANIC behind `schedule`.
- Processes.ThreadExitKeeps: one step, interrupts being off. In the code only the main thread ends in this way.
- Processes.WaitKeeps: waking init on adoption is not there, as in the code (src/userprog/wait_exit.c:190), so a waiting init may have a hanging child; the status stored through the pointer of `sys_wait` (it is the task status, not the exit status) is not modelled.
- Cwd.GetCwd: for a path of 512 bytes or more, which the buffer it is collected in does not hold, nothing is promised but that this is the case; the length without the final NUL is compared with the size of the caller's buffer, as in the code.
- RingBuffers.IoQueue.GetChar: the lock is what `LockSteps` proves of it: an owner, a list, a woken thread that tries again; a turn is what runs without a switch. The assertion that interrupts are off (src/device/ioqueue.c:54, 80) is left out.
- CowRun.GetAPageRefines: what a newly mapped user page shows is what the frame held before, as the code does not clear it; so the refinement takes it from the run.
- PageSpaces.PageSpace.VaddrGet: the user side's ASSERT on the address is not modelled.
- Heaps.Heap.SysMalloc: one address space without fork. The pool's lock makes each call one step. The zeros in a new block and the prints are left out.

Not modelled:

- Boot, assembly, port I/O, interrupt controller, timer, keyboard and screen; `ide_read` and `ide_write` are accesses to an array of sectors.
- The TLB, and stores in kernel mode, which pass over page protection: only user-mode accesses are steps. Kernel virtual addresses stand for their frames.
- `mfree_page` on user ranges after a frame was split: it assumes one pool per range (src/kernel/memory.c:523-558), while split frames come from the kernel pool.
- The user heap across fork: the child's descriptors are reset while its arenas still point at the parent's (src/userprog/fork.c:33).
- Conservation of the pages of the address bitmap: allocation rounds up (src/userprog/process.c:132), release down (src/userprog/wait_exit.c:68).
- Open counts and write_deny across fork and close: slots of the file table are shared without a count (src/userprog/fork.c:195, src/fs/file.c:298-300). Whether a slot is free, and whether a file is in use, are parameters.
- The volume's records are a map from inode numbers; that the packed table on disk stores them, and the list of open inodes caches them, is in `InodeTable` and `OpenInodes` on their own. In the same way `BitmapSyncs` stands beside the volume's bitmaps.
- The paths on which `sys_malloc` fails inside file system calls.
- The ready list, waiters and free lists are sequences where threads and the heap use them; that the pointer operations keep such sequences is in `LinkedLists`.
- A wakeup of a thread outside the locks by another (pipes, devices) may come at any time to any thread that is asleep for no lock.
- The names of processes: `fork` appends to them, and its ASSERT on their length (src/userprog/fork.c:49) ends long chains of forks.
- The rest of PCB and kernel stack in fork (src/userprog/fork.c:153-176).
- The ELF loader, system call stubs, printf, other shell commands.
