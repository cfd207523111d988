# A verified model of the rCore kernel and easy-fs

This project models, in Dafny, the parts of a teaching kernel whose correctness is not
visible from any single function, and proves what they are for.

- **easy-fs**: a write-back cache of sixteen blocks over a device, two bitmaps, inodes with
  direct, indirect and doubly indirect blocks, and one directory of names. The main result
  (`FsRuns.ExecAll`) is that over every sequence of `create`, `write_at`, `read_at`, `clear`,
  `find` and `ls` the image behaves as a list of named byte sequences, and so does the device
  when it is opened anew (`FsRuns.ExecThenRemount`). By the operations alone, a byte read is
  the one written last (`FsHistory.History`), and a reader that knows only the addresses of
  the on-disk format finds it on the device (`Image.ImageReads`). Underneath it is the
  invariant `FsState.FsInv`: the set bits of the data bitmap are exactly the disjoint union of
  the data and index blocks of all inodes, and every free data block is zero.
- **Sv39 address spaces** (section 4.4 of the RISC-V Privileged Architecture, version
  20211203): the three-level table refines a partial map from the low 27 bits of a virtual
  page number to a physical page and flags, which is what a walk over the bytes of physical
  memory finds (`Walk.LookupWalks`); over every run each managed frame is in exactly one
  place (`MemoryRuns.FramesOwnedOnce`), and a space changes by its own operations only
  (`MemoryRuns.Isolated`); fork copies a space onto disjoint frames; user buffers visit exactly
  the bytes that per-byte translation gives.
- **Blocking synchronisation**: mutexes, condition variables and semaphores over a FIFO
  scheduler, as one machine whose steps are the stretches of code between context switches;
  the kernel's objects go through its states (`Threads.ThreadTable.ExecAll`). Each step is
  pinned by the places of the threads, the holders of the mutexes and the counts (`SyncSteps`).
- **Processes**: fork, exit with reparenting and waitpid, with the children lists, the ready
  queue, the pid allocator and an account of all forks, exits and results.
- **Pipes**: the 32-byte ring and the retry loops of `read` and `write` under every
  interleaving of any number of readers and writers.
- **Round robin**: the scheduler of the third chapter, with its fairness.

## How it is arranged

A source object that is updated in place is a class, and each of its methods is proved against
a function or a predicate on values; the hard properties are lemmas about those. Code that only
computes is a function. A panic of the source is an `ok` result of `false`, or `None`, with the
exact condition under which it happens, or a precondition where the source asserts something
of its caller.

| file | models |
|---|---|
| Words, Bitmap (Bits), InodeBytes, Dirent | words, bits and on-disk records as bytes |
| BlockCache, CacheRun | the block cache, and its runs against a plain array |
| Bitmap (Bitmaps), Efs | the bitmap allocator, the regions of the image, data blocks |
| Layout, DiskInode | the block tree of an inode, and the operations of a disk inode |
| FsState, Vfs, FsRun, FsHistory | the invariant of an image, the operations on it, whole runs, and what they give |
| Image | the on-disk format as addresses of bytes |
| Sv39, FrameAllocator, PageTable, MemorySet, MemoryRun, UserBuffer | address spaces, one and all together |
| Walk | address translation on the bytes of physical memory |
| Sync, SyncMachine, SyncSteps, Threads | the primitives, all threads together, what each step does, and the kernel's objects |
| Process, Pipe, RoundRobin | processes, pipes, the first scheduler |

The block tree is numbered by *slots*: the order in which a growing inode uses blocks, index
blocks included. Growing, clearing and looking up are all stated on slots, so that "every
inner id keeps its block across all three kinds of crossing" is one statement
(`InodeTree.PutAllAppends`).

## Model

| member | source | states |
|---|---|---|
| FsRuns.ExecAll | easy-fs/src/vfs.rs:54-210 | over every run whose operations have room, the image shows exactly the named byte sequences that the operations mean, every output is the one they mean, and the device is in step with the cache |
| FsRuns.ExecThenRemount | easy-fs/src/efs.rs:93-116 | after every such run, the device opened anew with an empty cache means the same |
| FsRuns.Exec | easy-fs/src/vfs.rs:54-210 | one operation on the image does what it means on named byte sequences: exactly one file changes, by exactly its range |
| FsHistory.History | easy-fs/src/vfs.rs:54-210 | over every run on a new image, by its operations alone: names are those created, in order and once each; a file ends where the furthest write since its last clearing ends; each of its bytes is the one written last, or zero; and every answer of `create`, `write_at`, `read_at`, `clear`, `find` and `ls` is the one that follows |
| FsHistory.MakeThenExec | easy-fs/src/efs.rs:29-91 | making an image and running any operations on it gives those answers and leaves those files |
| FsHistory.DeviceReads | easy-fs/src/vfs.rs:54-210 | after a run, the bytes of the device, read by their addresses, are the sizes and bytes of the files |
| Image.ImageReads | easy-fs/src/layout.rs:85-176 | in every consistent image, the size, the type and every byte of every file are found by address: the inode 128 bytes times its number after the inode bitmap, and the block through 28 direct, 128 indirect and 128 times 128 doubly indirect little-endian ids |
| Image.SuperReads | easy-fs/src/layout.rs:28-75 | the six words of the super block, in their order, with the magic number first |
| Image.InodeReads | easy-fs/src/layout.rs:85-116 | the size, the indirect ids and the type of an inode at their offsets in its 128 bytes |
| Image.BitmapsRead | easy-fs/src/bitmap.rs:21-76 | bit by bit from the lowest bit of the first byte on: an inode exists, and a data block belongs to a file, if and only if its bit is set |
| Image.DirectoryReads | easy-fs/src/layout.rs:426-477 | each of the 32 bytes of a directory entry: the name, NUL bytes up to byte 28, and the inode number, little-endian |
| FsRuns.UsedIsOccupied | easy-fs/src/layout.rs:125-139 | the number of data blocks in use is the sum, over all inodes, of their data and index blocks |
| FsRuns.OwnedCount | easy-fs/src/layout.rs:125-139 | the same for the first inodes, by induction: no block is counted twice |
| Vfs.FileSystem.WriteAt | easy-fs/src/vfs.rs:189-197 | the file becomes its old bytes with the new ones in their range and zeros in the gap, also for an empty write; no other file changes; its block list grows by fresh blocks only; the device is in step with the cache |
| Vfs.WrittenAt | easy-fs/src/layout.rs:386-420 | byte by byte, what a written file holds: new bytes, old bytes, zeros in the gap |
| Vfs.FileSystem.ReadAt | easy-fs/src/vfs.rs:182-187 | exactly the bytes of the range that exist, nothing at or past the end; no logical block changes |
| Vfs.FileSystem.Clear | easy-fs/src/vfs.rs:199-210 | the file is empty, `total_blocks(size)` blocks are freed and they are exactly its blocks; no other file changes |
| Vfs.WriteThenClear | easy-fs/src/vfs.rs:189-210 | growing an empty inode and clearing it restores the files, the block lists, the owner of every block and the data bitmap |
| Vfs.FileSystem.Create | easy-fs/src/vfs.rs:112-159 | fails exactly when the name exists, then changing nothing; otherwise the next inode id, one more name at the end, an empty file, all other files kept |
| Vfs.FileSystem.Find | easy-fs/src/vfs.rs:79-93 | the inode given to the name at its creation, or none exactly when there is no such name |
| Vfs.FileSystem.FindInodeId | easy-fs/src/vfs.rs:54-77 | the inode number of the entry with that name |
| Vfs.FileSystem.Ls | easy-fs/src/vfs.rs:161-180 | all names, in the order of creation |
| Vfs.FileSystem.AllocInode | easy-fs/src/vfs.rs:112-140 | inode ids are consecutive; exactly one empty file is added |
| Vfs.FileSystem.WriteInode | easy-fs/src/vfs.rs:95-110 | grow then write, on a locked inode, restores the whole invariant |
| Vfs.FileSystem.Load | easy-fs/src/vfs.rs:40-45 | locking an inode's block gives the inode and holds exactly that block |
| Vfs.FileSystem.Store | easy-fs/src/vfs.rs:47-52 | storing a locked inode changes its 128 bytes only and releases its block |
| Vfs.IncreaseSize | easy-fs/src/vfs.rs:95-110 | growing takes fresh blocks of the data area, appends them to the slots, pads the contents with zeros, and touches nothing else |
| Vfs.FileSystem.Make | easy-fs/src/efs.rs:29-91 | formatting any device gives a valid image with one empty directory, flushed |
| Vfs.FileSystem.Open | easy-fs/src/efs.rs:93-116 | opening reads back the geometry that was stored |
| Vfs.Remount | easy-fs/src/efs.rs:93-116 | opening a flushed device with an empty cache shows the same files under the same names |
| Vfs.ZeroBlocks | easy-fs/src/efs.rs:54-66 | formatting zeroes every block |
| FsState.Replaced | easy-fs/src/vfs.rs:47-52 | replacing one inode and its blocks keeps the invariant and every other file |
| FsState.Committed | easy-fs/src/vfs.rs:40-52 | storing an inode after rewriting only its own or free blocks restores the invariant |
| FsState.InodeAdded | easy-fs/src/vfs.rs:124-140 | setting the next inode bit and storing an empty inode adds one empty file |
| FsState.OwnersGrow | easy-fs/src/vfs.rs:95-110 | fresh blocks keep the lists of all inodes disjoint |
| FsState.OwnersClear | easy-fs/src/vfs.rs:199-210 | giving up one inode's list keeps the other lists and frees nothing else |
| FsState.TakenThenDropped | easy-fs/src/vfs.rs:95-110 | giving up what was taken restores the owner of every block; so clearing undoes growing |
| FsState.ListInArea | easy-fs/src/efs.rs:146-148 | the blocks of an inode are distinct blocks of the data area, owned by it |
| DiskInodes.DiskInode.IncreaseSize | easy-fs/src/layout.rs:177-257 | with exactly the blocks needed, every one is consumed, in order, as the next slots; old slots stay; the contents are padded with zeros |
| DiskInodes.DiskInode.FillSlots | easy-fs/src/layout.rs:177-257 | the three loops together put the new blocks into the next slots |
| DiskInodes.DiskInode.FillIndirect1 | easy-fs/src/layout.rs:192-220 | the singly indirect part, from any starting point |
| DiskInodes.DiskInode.FillIndirect2 | easy-fs/src/layout.rs:221-256 | the doubly indirect part, from any pair of quotient and remainder to any other |
| DiskInodes.DiskInode.ClearSize | easy-fs/src/layout.rs:260-345 | the list returned is every block of the inode, exactly once, in slot order; all fields of the inode are zero, and nothing on the disk changes |
| DiskInodes.DiskInode.PushIndirect1 | easy-fs/src/layout.rs:275-297 | the listing of the singly indirect part |
| DiskInodes.DiskInode.PushIndirect2 | easy-fs/src/layout.rs:298-342 | the listing of the doubly indirect part, full and partial index blocks |
| DiskInodes.DiskInode.GetBlockId | easy-fs/src/layout.rs:146-175 | the lookup through zero, one or two index blocks gives the block id in the slot of that inner id, one in use or the next |
| DiskInodes.Lookup | easy-fs/src/layout.rs:146-174 | which id the lookup finds: that of the direct list, of the indirect block, or of the block that the doubly indirect block names, each index block on the way being in use |
| DiskInodes.LookupInjective | easy-fs/src/layout.rs:146-175 | different inner ids have different blocks, and none of them is an index block |
| DiskInodes.DiskInode.ReadAt | easy-fs/src/layout.rs:347-383 | exactly the bytes of the range, across block borders |
| DiskInodes.DiskInode.WriteAt | easy-fs/src/layout.rs:386-420 | exactly the bytes of the range are replaced, across block borders; no index block and no foreign block changes; at the very end nothing changes |
| DiskInodes.EmptyWriteLookup | easy-fs/src/layout.rs:386-405 | the first block looked up is in use if and only if the write is not an empty one at a block boundary at or past the end, and is reached through blocks in use if and only if, besides, no index block would come first |
| Vfs.EmptyWriteFails | easy-fs/src/layout.rs:386-405 | an empty write at the end of a full last block opens only blocks of the device if and only if no index block would come first; otherwise the magic number of the super block is taken for a block id |
| DiskInodes.NextIsZero | easy-fs/src/layout.rs:101-107 | the next, unused block is looked up as block 0 |
| InodeTree.PutAllTail | easy-fs/src/layout.rs:177-257 | growing with zeroed blocks leaves all unused slots empty |
| InodeTree.PutAllAppends | easy-fs/src/layout.rs:177-257 | filling the next slots with fresh distinct blocks keeps all old slots and appends the new ones, and changes no block but index blocks of the tree |
| InodeTree.GrowHolds | easy-fs/src/layout.rs:177-257 | after growing with zeroed blocks the inode holds its old bytes, then zeros |
| InodeTree.PutAt | easy-fs/src/layout.rs:177-257 | putting a block into a slot changes that slot and no earlier one |
| InodeTree.PosMonotone | easy-fs/src/layout.rs:146-175 | slots of data blocks are strictly increasing |
| InodeTree.TotalMonotone | easy-fs/src/layout.rs:125-144 | `blocks_num_needed` never underflows |
| InodeTree.DataWriteHolds | easy-fs/src/layout.rs:386-420 | writing inside one data block changes exactly those bytes of the file |
| InodeTree.HoldsFrame | easy-fs/src/layout.rs:347-383 | what an inode holds depends on its own blocks only |
| InodeBytes.StoreThenLoad | easy-fs/src/layout.rs:88-107 | an inode written into its 128 bytes reads back |
| InodeBytes.StoreElsewhere | easy-fs/src/layout.rs:88-107 | an inode stored at other bytes of the block is not disturbed |
| Dirents.NameRoundTrip | easy-fs/src/layout.rs:433-472 | a name reads back as itself if and only if it has at most 27 bytes and no NUL |
| Dirents.NumberRoundTrip | easy-fs/src/layout.rs:433-476 | an inode number reads back as itself |
| Dirents.DirEntryAt | easy-fs/src/vfs.rs:54-77 | entry k of a directory gives the k-th name and its inode number |
| Efs.RegionsPartition | easy-fs/src/efs.rs:34-53 | the five regions partition the device exactly, and the data bitmap is the smallest that covers what it leaves |
| Efs.SuperRoundTrip | easy-fs/src/layout.rs:53-73 | the super block reads back as stored |
| Efs.InodePosInside | easy-fs/src/efs.rs:131-136 | inodes occupy disjoint slots inside the inode area |
| Efs.AllocData | easy-fs/src/efs.rs:146-148 | the lowest free block; inside the data area if and only if fewer blocks are in use than it has; otherwise the first block past the device, or a panic if the bitmap has no bit for it |
| Efs.DeallocData | easy-fs/src/efs.rs:150-163 | exactly that block is zeroed and exactly its bit cleared |
| Efs.AllocBlocks | easy-fs/src/vfs.rs:95-110 | the blocks taken are distinct, free, in the data area |
| Efs.DeallocBlocks | easy-fs/src/vfs.rs:199-210 | all listed blocks are zeroed and free, nothing else |
| Bitmaps.FindClear | easy-fs/src/bitmap.rs:36-61 | the lowest clear bit of a block, or none when it is full |
| Bitmaps.Bitmap.Alloc | easy-fs/src/bitmap.rs:36-61 | the lowest clear bit over all blocks is set and no other bit changes; none exactly when all are set |
| Bitmaps.Bitmap.Dealloc | easy-fs/src/bitmap.rs:63-72 | exactly that bit is cleared |
| Bitmaps.FlippedBit | easy-fs/src/bitmap.rs:48-72 | adding or subtracting a power of two in one word inverts one bit of the block |
| Bits.TrailingOnesIsLowestClear | easy-fs/src/bitmap.rs:41-46 | the trailing ones of a word count up to its lowest clear bit |
| CacheRuns.ExecAll | easy-fs/src/block_cache.rs:42-144 | for every interleaving of fetch, release, read, modify and flush the cache gives what a plain array gives, whatever is evicted and written back; after a flush the device is that array |
| CacheRuns.History | easy-fs/src/block_cache.rs:42-144 | over every run, by its operations alone: a block holds what was put last, every read gives what was put last before it, and a block has as many handles as fetches that were not released |
| CacheRuns.Exec | easy-fs/src/block_cache.rs:42-144 | one operation of such a run |
| CacheRuns.FullOfPinned | easy-fs/src/block_cache.rs:102-112 | the panic needs sixteen different blocks held, none of them the one asked for |
| BlockCaches.BlockCacheManager.GetBlockCache | easy-fs/src/block_cache.rs:91-120 | one copy per block; a full cache gives up the first unpinned copy from the front, pinned ones stay; and the panic happens exactly when all sixteen copies are pinned and the block is not one of them |
| BlockCaches.BlockCacheManager.Acquire | easy-fs/src/block_cache.rs:91-136 | below three handles, on a block not yet held, the panic cannot happen and the lock is granted; every file-system operation goes through here |
| BlockCaches.BlockCacheManager.Evict | easy-fs/src/block_cache.rs:65-76 | dropping a copy writes it back and keeps the logical blocks |
| BlockCaches.BlockCacheManager.FindUnpinned | easy-fs/src/block_cache.rs:102-112 | the first unpinned entry from the front |
| BlockCaches.BlockCacheManager.Sync | easy-fs/src/block_cache.rs:65-70 | a dirty copy goes to the device and is clean |
| BlockCaches.BlockCacheManager.Modify | easy-fs/src/block_cache.rs:49-63 | exactly one logical block changes, the device does not |
| BlockCaches.BlockCacheManager.SyncAll | easy-fs/src/block_cache.rs:139-144 | the device equals the logical view; the caller has locked none of the cached blocks, whose locks are taken |
| BlockCaches.BlockCacheManager.Flush | easy-fs/src/block_cache.rs:139-144 | the flush of the file system, which takes the lock of every copy, is reached only with no block held, so it cannot wait for itself; then the device equals the logical view |
| BlockCaches.DistinctPinsCount | easy-fs/src/block_cache.rs:102-112 | distinct pinned blocks need a handle each |
| Sv39.PteRoundTrip | os7-ref/src/mm/page_table.rs:30-47 | an entry keeps its page number and flags |
| Sv39.SameKey | os7-ref/src/mm/address.rs:142-152 | two page numbers have the same three indexes if and only if they agree modulo 2^27 |
| Sv39.Indexes | os7-ref/src/mm/address.rs:142-152 | the loop gives nine bits per level, the root level first |
| Sv39.LookupKey | os7-ref/src/mm/page_table.rs:100-116 | the mapping depends on the page number modulo 2^27 only |
| Walk.LookupWalks | os7-ref/src/mm/page_table.rs:100-131 | for every memory, root and virtual address, the mapping is what a three-level walk over the bytes of physical memory finds: nine bits of the address for each level, 64-bit little-endian entries, valid by bit 0, page in bits 10 to 53, flags in the low eight bits |
| Walk.PhysAddrWalks | os7-ref/src/mm/page_table.rs:132-141 | the physical address that the kernel takes for a mapped user address is the one of that walk |
| Walk.Registers | os7-ref/src/mm/page_table.rs:30-147 | an entry has the page from bit 10 on and the flags below, with two zero bits between; the token has mode 8, address space 0 and the root page |
| Sv39.WalksMeet | os7-ref/src/mm/page_table.rs:81-116 | tables form a tree: two walks meet in a table only by the same indexes |
| Sv39.LeafWritten | os7-ref/src/mm/page_table.rs:118-128 | writing a leaf entry changes the mapping at one key and nowhere else |
| Sv39.AddedWalks | os7-ref/src/mm/page_table.rs:81-99 | hanging in a zeroed table lengthens walks by one level at most, to an empty table |
| Sv39.TableAdded | os7-ref/src/mm/page_table.rs:81-99 | hanging in a zeroed table keeps the tree and every lookup |
| PageTables.PageTable.constructor | os7-ref/src/mm/page_table.rs:67-73 | a new table maps nothing and owns one fresh frame |
| PageTables.PageTable.FindPteCreate | os7-ref/src/mm/page_table.rs:81-99 | reaches the leaf table, making fresh tables where missing; no lookup changes; fails only when memory is exhausted |
| PageTables.PageTable.Map | os7-ref/src/mm/page_table.rs:118-122 | exactly the key of that page is mapped; at most two tables are made, and it fails only with fewer frames left than that |
| PageTables.PageTable.Unmap | os7-ref/src/mm/page_table.rs:124-128 | exactly one key is removed, and no table is made |
| PageTables.PageTable.Translate | os7-ref/src/mm/page_table.rs:129-131 | an entry whenever the tables reach it, valid or not; the mapping is that entry if it is valid |
| PageTables.TokenRoundTrip | os7-ref/src/mm/page_table.rs:75-80 | a token leads back to the root frame |
| FrameAllocators.StackFrameAllocator.Alloc | os7-ref/src/mm/frame_allocator.rs:67-76 | a zeroed frame that is not live, the last one recycled or else the next one never used, or none exactly when none is left; every managed frame stays in exactly one of tail, recycled stack and live set |
| FrameAllocators.StackFrameAllocator.Dealloc | os7-ref/src/mm/frame_allocator.rs:77-85 | the panic happens exactly when the frame is neither live nor below the managed range; the allocator stays in order exactly when the frame is not below it |
| FrameAllocators.StackFrameAllocator.DeallocAll | os7-ref/src/mm/frame_allocator.rs:33-37 | dropping the trackers of distinct live frames never panics |
| FrameAllocators.FreeAndLive | os7-ref/src/mm/frame_allocator.rs:43-86 | no frame is lost: the recycled, the never used and the live frames make up the managed range |
| FrameAllocators.ZeroPage | os7-ref/src/mm/frame_allocator.rs:16-25 | the loop zeroes the whole page |
| MemorySets.MapPages | os7-ref/src/mm/memory_set.rs:305-335 | every page of the range is mapped to its own fresh zeroed frame with the area's flags, and nothing else changes |
| MemorySets.UnmapPages | os7-ref/src/mm/memory_set.rs:321-340 | every page of the area is unmapped and its frame freed, and no other lookup changes |
| MemorySets.MemorySet.Push | os7-ref/src/mm/memory_set.rs:78-84 | one more area at the end, the space stays valid, and only its own and fresh frames are written |
| MemorySets.MemorySet.RemoveAreaWithStart | os7-ref/src/mm/memory_set.rs:67-77 | the first area with that start, and only it, is dropped, and exactly its pages are unmapped; nothing but tables is written, so all other mappings and bytes stay; found exactly when there is one |
| MemorySets.MemorySet.RecycleDataPages | os7-ref/src/mm/memory_set.rs:267-270 | the data frames are freed, the tables stay |
| MemorySets.MemorySet.Drop | os7-ref/src/mm/memory_set.rs:40-51 | dropping a space, recycled or not, frees exactly its frames and never panics |
| MemorySets.MemorySet.MapTrampoline | os7-ref/src/mm/memory_set.rs:86-92 | adds the trampoline page and nothing else |
| MemorySets.FromExistedUser | os7-ref/src/mm/memory_set.rs:238-256 | the child has the same areas, permissions and bytes, on frames disjoint from the parent's; the parent is unchanged |
| MemorySets.CopyPages | os7-ref/src/mm/memory_set.rs:245-253 | page by page, the child's bytes become the parent's, and only the child's frames are written |
| MemorySets.SameMapping | os7-ref/src/mm/memory_set.rs:238-256 | parent and child map the same pages with the same flags and bytes |
| MemorySets.WritesIsolated | os7-ref/src/mm/memory_set.rs:238-256 | a write to a frame that a space does not own leaves the space valid, its mapping and its bytes as they were |
| MemoryRuns.AddressSpaces.ExecAll | os7-ref/src/mm/memory_set.rs:45-92 | any sequence of creating, mapping, unmapping, forking, recycling, dropping and writing takes the address spaces through a run, one exact step for each operation, up to the first one, if any, with fewer frames left than three for each page it maps; no drop panics |
| MemoryRuns.AddressSpaces.Exec | os7-ref/src/mm/memory_set.rs:45-92 | one operation is one such step, or there are fewer frames left than that |
| MemoryRuns.Isolated | os7-ref/src/mm/memory_set.rs:238-256 | over every run, whatever the other spaces do, parent and copies included, a space keeps its mapping and its bytes until an operation of its own |
| MemoryRuns.OpKeeps | os7-ref/src/mm/memory_set.rs:45-92 | every operation keeps all spaces well mapped and one owner for each live frame |
| MemoryRuns.OpIsolated | os7-ref/src/mm/memory_set.rs:238-256 | one operation leaves every other space as it was |
| MemoryRuns.AddressSpaces.New | os7-ref/src/mm/memory_set.rs:46-51 | one more space on fresh frames, which maps the trampoline and nothing else |
| MemoryRuns.AddressSpaces.PushArea | os7-ref/src/mm/memory_set.rs:78-84 | one more area of that space, at the end, with that range and permission, mapped on zeroed frames of its own; no other mapping changes |
| MemoryRuns.AddressSpaces.RemoveArea | os7-ref/src/mm/memory_set.rs:67-77 | exactly the first area of that space with that start is gone and its pages unmapped, with every other mapping and byte of the space as before, or nothing changed if there is none |
| MemoryRuns.AddressSpaces.ForkSpace | os7-ref/src/mm/memory_set.rs:238-256 | one more space, with the areas, permissions and bytes of that one, on fresh frames |
| MemoryRuns.AddressSpaces.RecycleSpace | os7-ref/src/mm/memory_set.rs:267-270 | the data frames of that space are free, its tables stay, its leaf entries are stale |
| MemoryRuns.AddressSpaces.DropSpace | os7-ref/src/mm/frame_allocator.rs:33-37 | that space is gone, recycled before or not, and exactly its frames are free |
| MemoryRuns.FramesOwnedOnce | os7-ref/src/mm/frame_allocator.rs:33-86 | over every run of creating, copying, changing, recycling and dropping spaces, each live frame belongs to exactly one space |
| MemoryRuns.ChangedKeeps | os7-ref/src/mm/memory_set.rs:67-92 | a step on one space keeps every other space and the ownership |
| MemoryRuns.CreatedKeeps | os7-ref/src/mm/memory_set.rs:46-51 | so does a new space |
| MemoryRuns.DroppedKeeps | os7-ref/src/mm/memory_set.rs:267-270 | so does dropping one |
| UserBuffers.TranslatedByteBuffer | os7-ref/src/mm/page_table.rs:148-168 | for a mapped range below the top page, no slice is empty and together they are the physical bytes of the range, in order, once each |
| UserBuffers.UserBufferIterator.Next | os7-ref/src/mm/page_table.rs:236-260 | the next byte of the slices, none exactly when all have been visited |
| UserBuffers.VisitRange | os7-ref/src/mm/page_table.rs:132-260 | the iterator visits exactly the bytes that per-byte translation gives |
| UserBuffers.Length | os7-ref/src/mm/page_table.rs:216-222 | the sum of the slice lengths is the number of bytes |
| Threads.ThreadTable.ExecAll | os8-ref/src/sync/mutex.rs:24-88 | along every run of the machine below, the kernel's objects (processor, mutexes of both kinds, condition variables, semaphores) are in its states, so that all that is proved of the machine holds of them |
| Threads.ThreadTable.Exec | os8-ref/src/task/mod.rs:44-71 | one step of one thread or of the scheduler on the objects is the machine's step, and keeps its invariant |
| Threads.ThreadTable.constructor | os8-ref/src/sync/semaphore.rs:15-24 | free mutexes and empty queues are the machine's initial state |
| SyncMachine.RunInv | os8-ref/src/sync/mutex.rs:24-88 | over every run in which only holders unlock: one holder per locked mutex, no waiters on an unlocked one, each unfinished thread in exactly one place, semaphore counts equal their history |
| SyncMachine.UnlockExact | os8-ref/src/sync/mutex.rs:39-87 | any thread may unlock a spinning mutex and a locked blocking one: the invariant survives the unlock if and only if the thread holds the mutex, or it is not locked, or its first waiter is its holder |
| SyncMachine.TwoHolders | os8-ref/src/sync/mutex.rs:24-43 | there is a run from an initial state after which a thread that does not hold the mutex unlocks it and locks it, and two threads hold it |
| SyncMachine.NextInv | os8-ref/src/task/mod.rs:44-71 | every step of every thread keeps that |
| SyncSteps.LockIs | os8-ref/src/sync/mutex.rs:25-76 | what a turn of `lock` does: a free mutex is got at once, by this thread and no other; on a held blocking one the thread is the last waiter and nothing runs; on a held spinning one it is ready, last of all, to try again; nothing else changes |
| SyncSteps.UnlockIs | os8-ref/src/sync/mutex.rs:39-87 | what an unlock does: without a waiter the mutex is free and nobody holds it; otherwise its first waiter holds it, nobody else does, and it is ready, last of all; the thread runs on without it; nothing else changes |
| SyncSteps.WaitIs | os8-ref/src/sync/condvar.rs:31-38 | what `wait` does up to the switch: the same to the mutex, and the thread is the last waiter of the condition variable and has to get the mutex again |
| SyncSteps.SignalIs | os8-ref/src/sync/condvar.rs:24-29 | a signal makes the first waiter ready, last of all, and does nothing else |
| SyncSteps.UpIs | os8-ref/src/sync/semaphore.rs:26-34 | an up counts one more, and makes the first waiter ready if and only if the count was negative |
| SyncSteps.DownIs | os8-ref/src/sync/semaphore.rs:36-44 | a down counts one less; with a positive count the thread runs on and nothing moves, otherwise it is the last waiter and nothing runs |
| SyncSteps.SchedIs | os8-ref/src/task/processor.rs:51-74 | giving the processor up puts the thread last in the ready queue, and the scheduler takes the first; nothing else changes |
| SyncSteps.ExitIs | os8-ref/src/task/mod.rs:74-90 | a thread that ends is nowhere any more, and what it has locked stays locked |
| SyncSteps.SpawnIs | os8-ref/src/task/manager.rs:40-42 | a new thread is ready, last of all, in user code, and holds nothing |
| SyncSteps.RunCounts | os8-ref/src/sync/semaphore.rs:26-44 | over every run, a semaphore's count and history move by its ups and downs among the actions, all of them and no others |
| SyncSteps.CountedFromStart | os8-ref/src/sync/semaphore.rs:12-44 | from the start, by the actions: the count is the initial one with the ups and less the downs, as many threads wait as it is below zero, and the downs that have returned do not outnumber the initial count and the ups |
| SyncSteps.Progress | os8-ref/src/task/processor.rs:51-74 | over every run no state is stuck: the scheduler can go on, or the running thread can, and in user code it may call anything on any object |
| SyncMachine.InitInv | os8-ref/src/sync/mutex.rs:55-64 | it holds at the start |
| SyncMachine.MutualExclusion | os8-ref/src/sync/mutex.rs:24-88 | no two threads hold the same mutex |
| SyncMachine.QueueFifo | os8-ref/src/sync/mutex.rs:67-87 | a queue with a thread in it is released by exactly the unlocks, signals, ups or dispatches that concern it: they take its first thread and make it ready (or running); every other step appends to it or leaves it alone |
| SyncMachine.Served | os8-ref/src/sync/semaphore.rs:26-44 | over every run, a waiter with k before it moves up by one at each release of its queue, is overtaken by nobody, and is taken and woken by release number k |
| SyncMachine.HandOff | os8-ref/src/sync/mutex.rs:79-87 | whoever releases a mutex with waiters, by unlocking or waiting, hands it to the first of them, which is then ready |
| SyncMachine.NoLostSignal | os8-ref/src/sync/condvar.rs:24-38 | over every run, a thread waiting with k before it is woken by signal number k, counting from 0, and is still waiting before that |
| SyncMachine.RunReturnsHolding | os8-ref/src/sync/condvar.rs:31-38 | over every run, a thread that called `lock` or `wait` still has to get the mutex or holds it, through hand-off and ready queue, until it acts in user code again; so it is back in user code only with the mutex |
| SyncMachine.ReturnsHolding | os8-ref/src/sync/condvar.rs:31-38 | in one step it does not stop having to get the mutex without getting it |
| SyncMachine.CallsOwe | os8-ref/src/sync/condvar.rs:31-38 | a thread that calls `lock` or `wait` then holds the mutex or has to get it |
| SyncMachine.KeepsHolding | os8-ref/src/sync/mutex.rs:24-88 | a mutex is lost by nothing but unlocking it or waiting with it |
| SyncMachine.CompletedDowns | os8-ref/src/sync/semaphore.rs:15-44 | downs that have returned never exceed the initial count plus the ups; a non-negative count means an empty queue |
| Processes.ProcessTable.ExecAll | os7-ref/src/task/mod.rs:40-90 | over every sequence of system calls in which the initial process does not exit, the table ends in the state, and the calls give the answers, of the run of the value machine |
| Processes.ProcessTable.Exec | os7-ref/src/syscall/process.rs:29-122 | so does one call of whichever process is running |
| Processes.RunKeeps | os7-ref/src/task/mod.rs:40-90 | over every such run: one children list per process and agreeing parent links, each process in one place, all pids accounted for, zombies childless |
| Processes.StepKeeps | os7-ref/src/task/mod.rs:40-90 | every call keeps that |
| Processes.CollectedOnce | os7-ref/src/syscall/process.rs:89-122 | over every run from the start, by the outputs of the calls alone: each process made is reaped at most once, each exit is collected at most once and with its code, and what is not collected belongs to a zombie still there |
| Processes.RunRecorded | os7-ref/src/syscall/process.rs:46-122 | the account kept beside the state is exactly what the outputs say |
| Processes.WaitKeeps | os7-ref/src/syscall/process.rs:89-122 | reaping in a run keeps the invariant, and nothing refers to the reaped process, so the strong-count assertion and both assertions of the pid allocator hold |
| Processes.ForkedAt | os7-ref/src/task/task.rs:193-242 | after a fork, process by process: the child is new, the last child of the caller, alive and without children, and ready, last of all; its pid is the one given back last, or the next; nothing else changes |
| Processes.ForkThenWait | os7-ref/src/syscall/process.rs:89-123 | a process that waits for its new child at once is answered -2 |
| Processes.WaitedAt | os7-ref/src/syscall/process.rs:89-123 | the answer of `waitpid` by the caller's children alone, with -1 for any of them: -1 if none is of that kind, -2 if none of those is a zombie, otherwise the first zombie among them with its code, which is gone from the processes and the caller's children, its pid free; nothing else changes |
| Processes.EndedAt | os7-ref/src/task/mod.rs:59-102 | after an exit, process by process: a zombie with that code and without children, whose children are the last ones of the initial process; nothing else changes |
| Processes.YieldedAt | os7-ref/src/task/mod.rs:40-57 | giving the processor up puts the process last in the ready queue and changes nothing else |
| Processes.ZombieAnswers | os7-ref/src/syscall/process.rs:89-123 | a parent that asks for a zombie child is answered with it and its exit code |
| Processes.RunSteps | os7-ref/src/task/mod.rs:40-90 | a run is its calls one after the other, each answered in the state that those before it have led to |
| Processes.ProcessTable.Fork | os7-ref/src/task/task.rs:193-242 | a new last child with a pid no unreaped process has, at the end of the ready queue |
| Processes.ProcessTable.Exit | os7-ref/src/task/mod.rs:59-90 | the children go, in order, to the end of the initial process's list, and the process is a zombie that only its parent's list refers to |
| Processes.ProcessTable.WaitPid | os7-ref/src/syscall/process.rs:89-122 | -1 exactly when no child matches, -2 exactly when one matches but no matching one is a zombie; otherwise the first matching zombie and its exit code, and nothing refers to it any more |
| Processes.ProcessTable.AllocPid | os7-ref/src/task/pid.rs:27-34 | a pid that no unreaped process has |
| Processes.ProcessTable.Suspend | os7-ref/src/task/mod.rs:40-56 | the current process goes to the back of the ready queue |
| Processes.ProcessTable.RunNext | os7-ref/src/task/processor.rs:51-70 | the front of the ready queue runs; the queue is never empty then |
| Processes.Search | os7-ref/src/syscall/process.rs:95-110 | which of the three answers, and the first matching zombie |
| Processes.FirstZombie | os7-ref/src/syscall/process.rs:104-109 | the first position of a matching zombie |
| Processes.Reparent | os7-ref/src/task/mod.rs:70-77 | the loop moves all children under the initial process |
| Processes.AdoptEffect | os7-ref/src/task/mod.rs:70-77 | exactly the parent links of the children and the initial process's list change |
| Processes.ExitedLinked | os7-ref/src/task/mod.rs:59-90 | reparenting keeps every process in exactly one children list, with agreeing parent links |
| Processes.Forked | os7-ref/src/task/task.rs:193-242 | so does adding a child |
| Processes.Reaped | os7-ref/src/syscall/process.rs:110-117 | so does reaping, and then no list mentions the reaped process |
| Processes.Reap | os7-ref/src/syscall/process.rs:110-117 | reaping keeps the whole invariant, frees the pid, and leaves the zombie unreferenced, so the strong-count assertion holds |
| Processes.ReapedAccounted | os7-ref/src/syscall/process.rs:110-117 | a process made is reaped at most once, and an exit collected at most once |
| Processes.ExitedAccounted | os7-ref/src/task/mod.rs:59-66 | an exit becomes one pending result |
| Pipes.Pipe.ExecAll | os7-ref/src/fs/pipe.rs:127-178 | any sequence of steps of any number of calls takes the pipe, its calls and its ring to the state of the run of the value |
| Pipes.RunSafe | os7-ref/src/fs/pipe.rs:127-178 | for every interleaving: all bytes written are all bytes read followed by the ring; each call has passed a prefix of its own data, in order; a returned write has passed all of it; a short read returned only with the write end gone and the ring drained |
| Pipes.Delivered | os7-ref/src/fs/pipe.rs:127-178 | over every run from the empty pipe, by its steps: what write number i has put in is a prefix of the data it was called with, all of it once it has returned; what read number i has got is no more than it asked for, and less on return only after the write end is gone and the ring drained; and the bytes put in are those taken, in order, then those in the ring |
| Pipes.RunCalls | os7-ref/src/fs/pipe.rs:127-178 | the calls on the pipe are those the steps have begun, with their own data and sizes, and the write end is gone if and only if it was closed |
| Pipes.ReadIs | os7-ref/src/fs/pipe.rs:130-155 | a read takes the first bytes, as many as there are and as it has room for, and returns if and only if there are more than that or the write end is gone; nothing else changes |
| Pipes.WriteIs | os7-ref/src/fs/pipe.rs:156-177 | a write puts in its next bytes, as many as it has and as there is room for, and returns if and only if there is more room than that; nothing else changes |
| Pipes.CallBegins | os7-ref/src/fs/pipe.rs:130-177 | a call begins with nothing passed and not returned; calls under way and the ring stay as they are |
| Pipes.NextSafe | os7-ref/src/fs/pipe.rs:127-178 | every step keeps that |
| Pipes.Pipe.ReadStep | os7-ref/src/fs/pipe.rs:130-155 | from the top of the loop to a suspension or return: takes the oldest bytes that fit; returns exactly when there is more than its room or the write end is gone |
| Pipes.Pipe.WriteStep | os7-ref/src/fs/pipe.rs:156-178 | the same for write: appends the next bytes that fit; returns exactly when the ring has more room than bytes are left |
| Pipes.PipeRingBuffer.ReadLoop | os7-ref/src/fs/pipe.rs:134-154 | the loop takes the oldest bytes, as many as fit |
| Pipes.PipeRingBuffer.WriteLoop | os7-ref/src/fs/pipe.rs:160-177 | the loop appends the next bytes, as many as fit |
| Pipes.PipeRingBuffer.WriteByte | os7-ref/src/fs/pipe.rs:67-74 | appends one byte to the contents, wrapping round |
| Pipes.PipeRingBuffer.ReadByte | os7-ref/src/fs/pipe.rs:76-84 | takes the oldest byte |
| Pipes.PipeRingBuffer.AvailableRead | os7-ref/src/fs/pipe.rs:86-96 | the number of bytes in the ring |
| Pipes.PipeRingBuffer.AvailableWrite | os7-ref/src/fs/pipe.rs:98-104 | the room left |
| Pipes.BytesOfMore | os7-ref/src/fs/pipe.rs:130-178 | bytes passed by one call extend its own record and no other |
| Pipes.ReadSafe | os7-ref/src/fs/pipe.rs:130-155 | a read step keeps the account of all bytes and all calls |
| Pipes.WriteSafe | os7-ref/src/fs/pipe.rs:156-178 | a write step keeps the account of all bytes and all calls |
| RoundRobin.Fair | os3/src/task/mod.rs:133-161 | over every run, a ready task is dispatched within as many switches as there are applications |
| RoundRobin.FairAgain | os3/src/task/mod.rs:133-161 | over every run, after each of its suspensions a task is dispatched again within as many switches as there are applications |
| RoundRobin.RunAlive | os3/src/task/mod.rs:115-161 | over every run, a task whose own switches are all suspensions never exits, and nothing panics |
| RoundRobin.Waits | os3/src/task/mod.rs:133-161 | until then every switch brings it strictly closer, and none panics |
| RoundRobin.NextCloser | os3/src/task/mod.rs:133-161 | one switch dispatches a ready task or strictly lowers its cyclic distance |
| RoundRobin.NextIs | os3/src/task/mod.rs:133-161 | a switch dispatches the task that comes first in the cyclic order among the ready ones, and the one that suspends only when there is none |
| RoundRobin.RunKeeps | os3/src/task/mod.rs:115-161 | over every run exactly the current task is running, and an exited task stays exited and never runs |
| RoundRobin.NextKeeps | os3/src/task/mod.rs:143-161 | one switch keeps that, panics if and only if the current task exits and all others have, leaves a suspended task ready or running again, and changes no task but the old and the new current one |
| RoundRobin.SearchFinds | os3/src/task/mod.rs:133-139 | the search finds the ready task that comes first in cyclic order, or there is none |
| RoundRobin.TaskManager.ExecAll | os3/src/task/mod.rs:219-228 | any sequence of switches takes the tasks through the run, and it panics exactly where the run ends, all applications having exited |
| RoundRobin.TaskManager.FindNextTask | os3/src/task/mod.rs:133-139 | the loop is that search |
| RoundRobin.TaskManager.RunNextTask | os3/src/task/mod.rs:143-161 | dispatches what the search finds, or panics changing nothing |
| RoundRobin.TaskManager.SuspendCurrentAndRunNext | os3/src/task/mod.rs:219-222 | never panics |
| RoundRobin.TaskManager.ExitCurrentAndRunNext | os3/src/task/mod.rs:225-228 | panics exactly when all applications have exited |
| RoundRobin.TaskManager.RunFirstTask | os3/src/task/mod.rs:98-112 | establishes the invariant |

## Left out

- Console, logging, SBI, trap and switch assembly, CSR access: hardware plumbing; a context switch is a step boundary.
- `from_elf`, `new_kernel`, `exec`, the kernel's own address space and the kernel stacks: they depend on linker symbols and an ELF library.
- `copy_data` with an ELF segment: only the page copies of fork are modelled.
- Descriptor tables: fork copies the parent's table, and `alloc_fd` gives the lowest free number.
- The first scheduler's syscall counters, start times and task contexts, which its choices do not depend on.
- Exit of a multi-threaded process with threads still alive, thread-id reuse, kernel threads and the coroutine demonstrations.
- Timers and `sleep`; stub system calls that return -1.
- The task status field outside the first scheduler: woken tasks enter the ready queue with it unchanged, so the model goes by where a task is, and a zombie flag.
- Liveness of pipe reads and writes: both loops may suspend again when their user buffer is exhausted. Where the bytes of a call lie in user memory is the subject of UserBuffer.
- Two block devices at once, and power loss: the source addresses neither.
- Superpages: the source follows all three levels of a table and makes no leaf above the last, and so does the walk of `Walk`.
- Block cache handles are named by their block id, and a disk inode is decoded when its block is locked and encoded when it is released, instead of being edited in place in the cached bytes.
- Names are byte sequences; that they are UTF-8 is not modelled. Longer names than 28 bytes make the source panic.
- Machine integers: block ids, sizes and page numbers carry their bounds; file offsets are unbounded, since a write past the largest file is excluded.
- Vfs.FileSystem.WriteAt: requires room for the blocks needed and a size within the inode's reach, where the source would panic or leave the device, and excludes exactly the empty writes of `EmptyWriteFails`, which leave the device too.
- Vfs.FileSystem.Create: requires a name that can be stored and room for one more inode and directory entry; the source would panic without room, and would store an unreadable name.
- Efs.AllocBlocks: requires as many free blocks in the data area as it takes, since past that `AllocData` gives out a block past the device.
- UserBuffers.TranslatedByteBuffer: requires a range that is mapped and ends below the top page, where the source would panic or wrap round.
- Processes.ProcessTable.Exit: the initial process does not exit.
- MemoryRuns.AddressSpaces.PushArea: the pages of a new area are not mapped yet, which the source asserts; the trampoline is mapped first in every user space.
- SyncMachine.RunInv: only holders unlock; the source checks no more than that a blocking mutex is locked. `UnlockExact` says which other unlocks keep the invariant.
