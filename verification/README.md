# CoolFrost kernel: a verified model

CoolFrost is an x86_64 kernel. This project models the parts of it that keep hard state and proves what they promise,
in Dafny 4.11. `dafny verify dfyconfig.toml` checks all of it.

What is modelled, one group of modules per part:

- **FAT32 driver** (`Fat32*`). Sectors are bytes. `Fat32Table` and `Fat32Driver` hold the FAT with its one-sector cache
  and its copies; every sector write is recorded, so that crash prefixes can be spoken of. `Fat32Volume` lifts this to a
  view of FAT entries and clusters. Above it: chains, the two allocators, files as byte strings, read and write, 8.3
  names, directories (`Fat32Dirs`, `Fat32Moves`), what a crash leaves (`Fat32Crash`), the defragmenter, and runs of all
  operations. `Fat32Tree` and `Fat32Refine` look at a volume from outside: for every directory and name, what opening and
  reading it yields, and what each operation does to that map.
- **ext2 driver** (`Ext2*`). `Ext2Pool` is the bitmaps with their two levels of counters; `Ext2Volume` the volume by its
  records and the driver's primitive writes, again recorded; `Ext2Map` the direct and indirect block map and who refers
  to which block; then file contents, write and read, the defragmenter, directory records byte by byte, directories, the
  directory operations, what a crash leaves (`Ext2Crash`), and runs of all operations. `Ext2Tree` is the invariant of the
  whole volume; `Ext2Refine` looks at it from outside: for every directory and name, the inode and the bytes it leads to,
  hard links included, and what each operation does to that map.
- **Scheduler** (`Sched*`). `SchedSpec` is the transition function of each entry point, `Scheduler` the imperative code
  over circular buffers proved to compute it, `SchedInvariant` and `SchedLiveness` what holds over every run,
  `SchedSpaces` the address spaces that come and go with the tasks.
- **Kernel heap** (`HeapRuns`, `Heap`, `Kmalloc`). A byte per slot, run boundaries encoded only by differing ids.
- **Address spaces** (`Paging`, `PageBytes`, `Vmm`, `UserRange`, `UserMemory`, `Process`, `ElfExec`, `PageSupply`). Page
  tables as the hardware walks them, their growth, user-pointer checks, what a new process reads at every address of its
  window, its heap, and the pages it takes from the kernel heap and gives back over its whole life.
- **Protocols and arithmetic** (`TrbRing`, `Xhci`, `TicketLock`, `Arith64`).

`Words`, `Products` and `BlockStore` hold shared constants, arithmetic and byte-field facts.

Some things the code or its comments promise turn out false. Each has a lemma with a concrete input and an exact
condition:

- `fat32_read` and `fat32_write` compare `sec_start + 512` in 32 bits, so the last sector below 4 GiB, at 0xFFFFFE00, is
  never touched: a write there returns -1 after growing the file's chain, a write or read that reaches it comes back
  short, and from 2^31 bytes on the count comes back negative (`Fat32Write.LastSectorUnreached`,
  `Fat32Write.WriteAtLastSector`). Unless the volume fills up, a transfer is complete and truly counted exactly when it
  ends at or below 0xFFFFFE00 and is shorter than 2^31 (`Fat32Write.Write`, `Fat32Read.Read`).
- The comment on `fat32_alloc_run` promises the longest free run; a run that straddles the search start is seen as two
  (`Fat32Defrag.StraddlingRunUnseen`). What is taken is the longest exactly when no straddling run lacks an equal on one
  side (`Fat32Alloc.AllocRun`), and defragmentation succeeds exactly when a run on one side exists
  (`Fat32Defrag.DefragOne`).
- A name that fits 8.3 does not always come back from its record: `Fat32Names.RoundTrip` gives the exact condition. A name
  whose first byte is 0xE5 is stored as a deleted record (`Fat32Dirs.Create`, `Fat32Moves.Rename`).
- The comment on `alloc_block_run` promises the best run over all groups; the loop settles in the first group with a free
  block (`Ext2Pool.LaterRunMissed`). What it takes is the best, cut off at the wanted length, exactly when no later group
  has a run that this group lacks (`Ext2Pool.FindRun`, `Ext2Pool.BestUnlessLater`). The model follows the loop, and
  `Ext2Defrag.DefragOne` says exactly which files are moved.
- `kmalloc` adds the header to the size modulo 2^64 (`Kmalloc.RangeFits`, `Kmalloc.HugeRequestOverruns`); if the sum wraps
  to 0 nothing is reserved (`Kmalloc.KernelHeap.Kmalloc`).
- `vmm_range_mapped` lets a wrapped range through that ends in the page it starts in, and in an address space of this
  driver no other (`UserRange.PassesInOwnSpace`, `UserRange.WrapSlipsThrough`); its caller `is_user_range` does not.
- The ELF loader accepts a segment whose rounded end wraps and then maps none of it
  (`ElfExec.CoveredUnlessWrapped`, `ElfExec.WrappedSegmentAccepted`).
- A command ring with all 63 entries outstanding can stop for good at its link entry (`TrbRing.CanGetStuck`); keeping one
  entry back rules it out (`TrbRing.NeverStuck`).
- 16-bit tickets exclude each other for up to 65536 contenders and not for one more (`TicketLock.Exclusive`,
  `TicketLock.OneTooMany`).
- `__divdi3` is right for all signed operands but the one pair whose quotient does not fit (`Arith64.SignedDiv`).

Other facts a maintainer may want to know:

- Two ELF segments that share a page are accepted; the later one's fresh frame hides what the earlier one had there
  (`ElfExec.SharedPageLost`). A byte reads as the last segment that covers its page has it (`ElfExec.LastDecides`).
- `fat32_unlink` frees the chain before it kills the entry: from its first write to its last, a crash leaves a live entry
  on a free cluster (`Fat32Moves.UnlinkCrash`). `fat32_rename` loses nothing at any prefix (`Fat32Moves.RenameCrash`).
- `ext2_unlink` clears the entry first: a crash leaves no name on a released inode, at worst a file without a name
  (`Ext2Crash.UnlinkCrash`). `ext2_rename` loses nothing at any prefix either (`Ext2Crash.RenameCrash`).
- `ext2_write` into a hole takes a block as the medium has it: the bytes around the written ones are whatever was there
  (`Ext2Write.WrotePart` promises nothing of them). Its own files have no holes.
- A DONE task slot keeps the CR3 of a space that has been destroyed and may be handed out again, and runs reach such a
  state (`SchedSpaces.StaleSlot`); of spaces that still exist, none whose task is done is loaded
  (`SchedSpaces.DoneSpaceNotLoaded`).

## Model

| member | source | states |
|---|---|---|
| Fat32Driver.Driver.NextCluster | fs/fat32.c:89-105 | a cached lookup returns what an uncached read of the primary FAT would, and the cache stays equal to the sector its key names |
| Fat32Driver.Driver.SetEntry | fs/fat32.c:112-139 | after an entry write all copies agree in their low 28 bits, every word keeps its own reserved nibble, the view of the FAT is a point update, and the cache is coherent again |
| Fat32Driver.Driver.WriteCopies | fs/fat32.c:118-126 | exactly the entry's word changes, in every copy, whatever number of copies there is |
| Fat32Driver.AfterEntry | fs/fat32.c:112-139 | what an entry write does to every word of every copy, and that nothing else on the disk differs |
| Fat32Table.FatSectorsApart | fs/fat32.c:119 | FAT sectors of different copies, or of different table sectors, never coincide |
| Fat32Table.ViewEntered | fs/fat32.c:122-124 | rewriting a sector of the primary FAT with one entry set is a point update of the FAT view |
| Fat32Table.ViewWritten | fs/fat32.c:69-71 | writing one data sector is a point update of the data view and leaves the FAT alone |
| Fat32Volume.Volume.SetEntry | fs/fat32.c:112-139 | on the view of the volume, exactly one entry changes per recorded step |
| Fat32Chains.ChainAcyclic | fs/fat32.c:469-472 | a chain that reaches an end-of-chain mark never visits a cluster twice |
| Fat32Chains.ChainUnique | fs/fat32.c:585-591 | a first cluster determines its whole chain |
| Fat32Chains.ChainsMeet | fs/fat32.c:89-105 | two chains that share a cluster have the same tail from there on |
| Fat32Chains.ChainJoin | fs/fat32.c:625-629 | linking a run behind a tail concatenates the two chains |
| Fat32Alloc.AllocCluster | fs/fat32.c:147-168 | the cluster handed out had entry 0 and is the first such in circular order from the hint; 0 exactly when no cluster is free |
| Fat32Alloc.ScanRuns | fs/fat32.c:207-218 | one pass finds the longest free run of its range or stops at the wanted length |
| Fat32Alloc.AllocRun | fs/fat32.c:194-233 | the run was free, is the longest that does not straddle the search start (capped at the wish), and is left chained with an end mark; it is the longest of all exactly when no straddling run lacks an equal on one side; 0 exactly when no cluster is free |
| Fat32Alloc.LongestUnlessStraddled | fs/fat32.c:170-219 | the longest run on one side of the search start is the longest of all exactly when no straddling run lacks an equal on one side |
| Fat32Files.ReadsAsOne | fs/fat32.c:452-513 | a directory entry and the primary FAT determine at most one byte string |
| Fat32Files.InvSplit | fs/fat32.c:916-943 | taking one file out leaves an ownership structure in which its clusters are nobody's |
| Fat32Files.InvJoin | fs/fat32.c:1114-1116 | adding a file on unowned clusters keeps every cluster with one owner |
| Fat32Files.KeptInv | fs/fat32.c:564-702 | if every owned cluster keeps its entry and contents, ownership and all file contents are kept |
| Fat32Dirents.FlushDirent | fs/fat32.c:520-533 | one sector write moves the entry on disk to the handle's size and first cluster and touches no other slot |
| Fat32Overlay.Window | fs/fat32.c:657-665 | the sectors chosen, in the 32-bit arithmetic of sec_start, are exactly those that meet the byte range below 0xFFFFFE00; none is found exactly when the offset or the cluster starts at or above that |
| Fat32Overlay.RewriteCluster | fs/fat32.c:667-690 | after the read-modify-write each byte of the cluster is the new data where the reached part of the range covers it and the old byte elsewhere |
| Fat32Write.FindTail | fs/fat32.c:585-591 | the walk ends at the chain's last cluster with the chain's length |
| Fat32Write.AppendRun | fs/fat32.c:597-629 | one growth round adds a zeroed run of formerly free clusters behind the tail and disturbs no cluster in use |
| Fat32Write.Extend | fs/fat32.c:596-630 | the chain grows to what the write needs unless the volume becomes full first |
| Fat32Write.GrowFile | fs/fat32.c:572-630 | the chain before the byte copying: the old chain first, new clusters zeroed, short only on a full volume |
| Fat32Write.Rewrite | fs/fat32.c:641-693 | over the whole chain, each byte is the written one, up to the last sector below 4 GiB, or the old one |
| Fat32Write.WriteDone | fs/fat32.c:695-701 | growth, overlay and flush together make the file read as the spliced string and every other file as before |
| Fat32Write.Write | fs/fat32.c:564-702 | the bytes that reach the file are spliced into it and every other file and slot is unchanged; the result is their number as a C int; unless the start is refused or the volume fills up it is the length asked for if and only if the range ends at or below 0xFFFFFE00 and is shorter than 2^31; -1 exactly for a hole, an empty file on a full volume, or a start at or above 0xFFFFFE00 with room to grow |
| Fat32Write.LastSectorUnreached | fs/fat32.c:482-483 | concrete offsets and lengths at the last sector below 4 GiB, and a count that comes back negative |
| Fat32Write.WriteAtLastSector | fs/fat32.c:659-660 | one byte written at 0xFFFFFE00 to a file of that size, on any volume with room, returns -1 and changes no byte of the file |
| Fat32Read.Read | fs/fat32.c:452-513 | the bytes returned are those asked for that lie below 0xFFFFFE00, and the result their number as a C int; these are all of them, truly counted, if and only if they end at or below it and are fewer than 2^31 |
| Fat32Names.Parse83 | fs/fat32.c:260-286 | the two loops compute the padded upper-case record, or nothing exactly when a part is too long or the base is empty |
| Fat32Names.RoundTrip | fs/fat32.c:236-299 | a name that parses comes back from its record, up to case, if and only if it holds no space and does not end in a dot |
| Fat32Names.SpaceIsLost | fs/fat32.c:236-286 | a concrete name that parses and does not come back |
| Fat32Dirs.FindDir | fs/fat32.c:361-432 | the first matching entry with no end mark before it, or none if there is none |
| Fat32Dirs.FreeSlot | fs/fat32.c:725-758 | the first slot that can be reused, every slot before it being live, or the last cluster exactly when every slot is live |
| Fat32Dirs.DirExtended | fs/fat32.c:760-770 | a zeroed cluster behind a directory adds no live entry and disturbs no file |
| Fat32Dirs.InsertDirent | fs/fat32.c:718-788 | the entry is in the first reusable slot, or the first of a zeroed cluster added because none was; every other slot, of whatever kind of entry, is as it was; no crash on the way makes a file unreadable; it fails exactly when all slots are live and the volume is full, and then changes nothing |
| Fat32Dirs.Create | fs/fat32.c:802-836 | a new empty file under the parsed name in the first reusable slot, all other files and slots unchanged; null exactly for a name that does not parse or no room; a name starting with 0xE5 creates nothing that can be found |
| Fat32Moves.RemovedFile | fs/fat32.c:928-940 | freeing a file's chain and killing its slot removes that file, changes that slot, and nothing else |
| Fat32Moves.Unlink | fs/fat32.c:916-943 | success removes exactly the file of the first matching entry, frees all its clusters and kills its slot, all other slots unchanged; -2 exactly when nothing matches, -3 exactly for a directory, and then nothing changes |
| Fat32Moves.UnlinkCrash | fs/fat32.c:928-940 | after every prefix of unlink's writes all other files are readable; the file itself is not from the first write on, and until the last its live entry leads to a free cluster |
| Fat32Moves.MovedAcross | fs/fat32.c:883-896 | insert then delete hands the chain from the old slot to the new one without touching it |
| Fat32Moves.RenameCrash | fs/fat32.c:856-897 | after every prefix of rename's writes the file reads under its old entry until the last write and under its new one after it, and every other file throughout |
| Fat32Moves.Rename | fs/fat32.c:856-897 | the file keeps chain and bytes under its new slot or name, all other files and slots unchanged, by the in-place path for one node and by insert-then-kill otherwise, also within one directory; -1, -2, -3 and -5 exactly for a name that does not fit, no match, a directory, and no room, and then nothing changes |
| Fat32Tree.NamedIs | fs/fat32.c:361-432 | for every directory and name, opening and reading has one answer: a folder, or the bytes of one file |
| Fat32Tree.EditNamed | fs/fat32.c:718-943 | in a well-formed directory an edit of single slots changes what exactly the edited names mean |
| Fat32Refine.WrittenNamed | fs/fat32.c:564-702 | a write changes the contents under one name of one directory and under no other |
| Fat32Refine.UnmovedNamed | fs/fat32.c:1065-1132 | defragmentation changes what no name means |
| Fat32Refine.UnlinkedNamed | fs/fat32.c:916-943 | unlink makes one name of one directory mean nothing and leaves all others |
| Fat32Refine.CreatedNamed | fs/fat32.c:802-836 | create makes one absent name mean an empty file and leaves all others |
| Fat32Refine.RenamedNamed | fs/fat32.c:872-881 | an in-place rename moves the contents from the old name to the new |
| Fat32Refine.MovedNamed | fs/fat32.c:883-896 | insert then kill moves the contents from one directory and name to another, also within one directory |
| Fat32Defrag.WalkChain | fs/fat32.c:1074-1083 | length of the chain, and whether it is one ascending run |
| Fat32Defrag.CopyChain | fs/fat32.c:1100-1112 | the run holds a copy of the chain's data in order, and only formerly free clusters were written |
| Fat32Defrag.Stage | fs/fat32.c:1086-1112 | a run reserved and filled, or, when no run is long enough, the FAT exactly as it was |
| Fat32Defrag.Commit | fs/fat32.c:1114-1131 | after the one sector write that moves the entry, and at every step of freeing the old chain, every file reads as before |
| Fat32Defrag.LosesReadable | fs/fat32.c:1123-1129 | freeing clusters nobody owns any more loses no byte of any file |
| Fat32Defrag.DefragOne | fs/fat32.c:1065-1132 | after every prefix of its sector writes every file's bytes are still readable from disk; 1 leaves one ascending run and all old clusters free, 0 and -1 leave FAT and data as they were; 0 exactly if already ascending, 1 exactly if a run on one side of the search start exists |
| Fat32Defrag.StraddlingRunUnseen | fs/fat32.c:170-219 | a free run of the wanted length, split by the search start, that the allocator does not find |
| Fat32Session.OwnershipSound | fs/fat32.c:147-233 | under the invariant every chain is in range, acyclic and ended, no cluster is in two chains, and no owned cluster reads as free |
| Fat32Session.Perform | fs/fat32.c:802-943 | each operation, succeeding or not, keeps the invariant and everything outside the volume, and from a well-formed volume does to the map from directory and name to contents exactly what its result says |
| Fat32Session.Run | fs/fat32.c:564-1132 | the invariant holds over every run of create, write, rename (through one node or two), unlink and defragment, and each step refines the map |
| Fat32Session.RunRefines | fs/fat32.c:564-1132 | from a well-formed volume, every run that only takes free names is step by step a run of the map from directory and name to contents |
| Ext2Pool.ZerosFlip | fs/ext2.c:186-187 | flipping a bit moves the count of clear bits of its own range by one and of no other range |
| Ext2Pool.FlipCounted | fs/ext2.c:186-195 | group count equals clear bits and superblock count equals the sum, before and after reserving or releasing a bit |
| Ext2Pool.TakenCounted | fs/ext2.c:303-316 | the same for a run taken in one piece, and a free run never exceeds the counters |
| Ext2Pool.GiveBack | fs/ext2.c:1320-1323 | releasing the first block of a run just taken equals having taken the rest |
| Ext2Pool.FindFree | fs/ext2.c:166-199 | the lowest clear bit at or above the first unreserved number; it reports none only if there is none, so passing over zero-count groups misses nothing |
| Ext2Pool.LongestRun | fs/ext2.c:286-298 | a longest clear run of the group, or one of the wanted length |
| Ext2Pool.FindRun | fs/ext2.c:266-321 | a free run in the first group with any clear bit, of the wanted length or longest there; nothing exactly when all bits are set; the best over all groups, cut off at the wanted length, if and only if no later group has a run that the first group with a clear bit lacks |
| Ext2Pool.BestUnlessLater | fs/ext2.c:258-301 | the longest run of the first group with a clear bit is the best of all exactly when no later group has a better |
| Ext2Pool.SpareNone | fs/ext2.c:140-148 | the superblock's count is 0 exactly when every bit is set |
| Ext2Pool.FreeTwice | fs/ext2.c:380-390 | releasing a bit that is clear already breaks both counters |
| Ext2Pool.LaterRunMissed | fs/ext2.c:258-301 | a pool in which a later group has the wanted run and an earlier group's shorter one is taken |
| Ext2Volume.Volume.AllocBlock | fs/ext2.c:166-199 | 0 exactly when no block is free, else the lowest free block, with both counters moved; files and inodes untouched at each of the three writes |
| Ext2Volume.Volume.AllocNear | fs/ext2.c:215-247 | the goal whenever it is a free block of the volume, else the lowest free block; 0 exactly when none is free |
| Ext2Volume.Volume.AllocRun | fs/ext2.c:266-321 | a run of blocks that were free, in the first group with a free block, reserved in bitmap and counters; shorter than wished only if that group has no longer one; the best of all exactly when no later group has a better |
| Ext2Volume.Volume.AllocInode | fs/ext2.c:327-363 | the lowest free inode that is not reserved, 0 exactly when there is none |
| Ext2Volume.Volume.FreeBlock | fs/ext2.c:369-391 | exactly that block's bit is cleared and both counters rise, which keeps the accounting exactly when the block was reserved |
| Ext2Volume.Volume.FreeInode | fs/ext2.c:394-416 | exactly that inode's bit is cleared and both counters rise, which keeps the accounting exactly when it was in use |
| Ext2Volume.MarkedSound | fs/ext2.c:186-195 | reserving a free block keeps the volume sound and takes exactly that block from the free ones |
| Ext2Volume.RunGivesBack | fs/ext2.c:1320-1323 | a reserved run released block by block restores bitmaps and counters exactly |
| Ext2Map.SetDirect | fs/ext2.c:527-540 | a direct slot filled with a free block: every other reference unchanged, nothing referred to twice |
| Ext2Map.AddIndirect | fs/ext2.c:546-553 | hooking up a zeroed indirect block changes what no logical block resolves to |
| Ext2Map.SetPtr | fs/ext2.c:558-575 | filling one entry of the indirect block changes one logical block of one inode and no contents |
| Ext2Map.Leaked | fs/ext2.c:546-552 | an indirect block reserved by a growth that then fails disturbs nothing on disk |
| Ext2Map.GetOrAlloc | fs/ext2.c:522-579 | success makes get_block return the block there and leaves every other logical block of every inode with its block and contents; 0 exactly beyond the single indirect range or, for an empty logical block, when fewer blocks are free than it and a missing indirect block take; the block after the previous one is taken whenever it is free |
| Ext2Files.EnsureBlocks | fs/ext2.c:809-813 | phase 1 gives blocks to a prefix of the range, short only for want of blocks or range, and moves nothing that was there |
| Ext2Files.WriteLeaf | fs/ext2.c:831-842 | rewriting a data block changes that logical block and nothing else on the volume |
| Ext2Files.Rewrite | fs/ext2.c:826-844 | phase 2 leaves each byte of each block of the file either written or as it was |
| Ext2Write.Clamped | fs/ext2.c:815-820 | the clamped length is what fits the blocks there are, and is 0 exactly if there is none |
| Ext2Write.Write | fs/ext2.c:791-854 | in a file with or without holes the written bytes are there and every other byte that was there is as it was; without holes the file reads as old[..offset] + data[..n] + old[offset+n..]; every other inode keeps its blocks and contents; n is short only on a full volume or at the largest size; -1 exactly for a start past the end |
| Ext2Write.Read | fs/ext2.c:735-771 | the bytes of the request that lie below the file's size, up to the first hole; without holes all of them |
| Ext2Write.PartOfWhole | fs/ext2.c:735-854 | for a file without holes the byte-wise statement of a write is the splice of the byte string |
| Ext2Write.ReadBack | fs/ext2.c:735-854 | reading the written range returns the data, and a range clear of it reads as before |
| Ext2Defrag.Collect | fs/ext2.c:1309-1316 | the block list in logical order and whether it is one run, or a hole |
| Ext2Defrag.CopyBlocks | fs/ext2.c:1329-1336 | the run holds the data, and after each write every logical block still resolves as before |
| Ext2Defrag.MovedResolved | fs/ext2.c:1338-1366 | with the data in both places, every file reads the same however many logical blocks have already moved |
| Ext2Defrag.InodeCommitted | fs/ext2.c:1341-1345 | after the inode write the direct part resolves in the run and the indirect part where it was, with the same contents |
| Ext2Defrag.IndirectCommitted | fs/ext2.c:1354-1365 | after the rewrite of the indirect block, in place, all logical blocks resolve in the run |
| Ext2Defrag.GiveRunBack | fs/ext2.c:1318-1324 | a run too short for the file is given back and the volume is exactly what it was |
| Ext2Defrag.FinalOwned | fs/ext2.c:1371-1372 | with the old blocks released, everything referred to is reserved and referred to once |
| Ext2Defrag.DefragOne | fs/ext2.c:1290-1375 | after every prefix of its block writes, the window between inode and indirect block included, every logical block of every file resolves to its original contents; 0 exactly for an empty file or one in one run without hole, 1 exactly when the file is small enough, has no hole, is not in one run, and the first group with a free block has a run for it; 1 leaves one run and the old blocks free, 0 and -1 leave the volume exactly as it was |
| Ext2Defrag.ShorterRun | fs/ext2.c:1318-1324 | a shorter best run in the first group with a free block means there is no run of the wanted length there |
| Ext2Defrag.ResolvedReads | fs/ext2.c:454-507 | if every logical block resolves to the same contents then every file reads the same |
| Ext2Dirents.Replaced | fs/ext2.c:951-970 | rewriting the bytes of one record, as one record or two, keeps the block tiled and replaces exactly that record's entries |
| Ext2Dirents.FilledOk | fs/ext2.c:953-970 | reusing a free record keeps the tiling and adds exactly the entry |
| Ext2Dirents.SplitOk | fs/ext2.c:956-970 | splitting slack keeps the tiling, keeps the entry that had it, and adds exactly the new one after it |
| Ext2Dirents.ClearedOk | fs/ext2.c:1126-1129 | clearing the inode number keeps the tiling and removes exactly that entry |
| Ext2Dirents.RenamedOk | fs/ext2.c:1101-1111 | rewriting name and length in place keeps tiling, inode and type and changes exactly the name |
| Ext2Dirents.FreshOk | fs/ext2.c:979-986 | a new block is tiled by one record that holds the entry |
| Ext2Dirents.OthersStay | fs/ext2.c:1123-1129 | rewriting one record leaves every other live record at its offset with its entry |
| Ext2Dirs.ScanName | fs/ext2.c:681-722 | a live record with the name, or no entry of the block has it |
| Ext2Dirs.ScanRoom | fs/ext2.c:944-970 | the first record with enough to spare, or no record of the block has |
| Ext2Dirs.FindName | fs/ext2.c:654-729 | a live record of the directory with the name, or no entry has it |
| Ext2Dirs.InsertMaps | fs/ext2.c:919-990 | as a map from names to inodes, inserting an absent name adds exactly that key |
| Ext2Dirs.RemoveMaps | fs/ext2.c:1192-1216 | as a map, removing an entry removes exactly its key |
| Ext2Dirs.RenameMaps | fs/ext2.c:1101-1111 | as a map, renaming in place moves the inode from the old key to the new |
| Ext2Dirs.DirAppended | fs/ext2.c:975-989 | growth, new block and inode write together extend the directory by that block and disturb no other inode |
| Ext2Dirs.InsertDirent | fs/ext2.c:919-990 | by whichever path, the live entries gain exactly the new one, every live record stays at its place, no other inode is touched; it fails exactly for a bad name, or with no room and no block to grow by, and then the directory is as before; until the last write everything reads as before |
| Ext2Ops.RenameInPlace | fs/ext2.c:1101-1111 | exactly one entry changes its name |
| Ext2Ops.MoveEntry | fs/ext2.c:1123-1131 | the new entry is inserted and the old record, still at its offset, is the one cleared, also within one directory |
| Ext2Ops.Rename | fs/ext2.c:1040-1132 | the entry has its new name with inode and type unchanged and the old name is gone; -1, -5 and -7 exactly for a bad name, a directory, and a name that neither fits in place nor finds room, -3 only when no entry has the name; any failure leaves both directories as before; no other inode is touched; at every write the directories are as before, or both names are there, or it is done |
| Ext2Ops.RelabelledMaps | fs/ext2.c:1040-1132 | as a map, a rename within a directory removes the old key and adds the new one, by either path |
| Ext2Ops.BlockList | fs/ext2.c:1224-1237 | the blocks to free are exactly those the inode refers to, each once |
| Ext2Ops.Discard | fs/ext2.c:1224-1252 | exactly the file's blocks and inode number become free, the record is blank, ownership and accounting hold |
| Ext2Ops.Unlink | fs/ext2.c:1160-1255 | the entry goes, at the first write; with links left only the link count drops, else the file is given back block for block; all other inodes keep blocks and contents at every write; refused for an empty name, no such entry, or a directory, and then nothing changes |
| Ext2Ops.TakeAndGive | fs/ext2.c:1013-1016 | an inode number taken and given back leaves bitmap and counters exactly as they were |
| Ext2Ops.Create | fs/ext2.c:1000-1019 | a new empty file under the name on the lowest unreserved free inode; 0 exactly when no such inode is free, or the name is bad or finds no room, and then the directory and all inode numbers are as they were |
| Ext2Crash.UnlinkCrash | fs/ext2.c:1215-1255 | after any write of an unlink the name is gone, every other file reads as before, and so does the file itself, by its other names, up to the last write |
| Ext2Crash.RenameCrash | fs/ext2.c:1101-1132 | after any write of a rename, carried out or failed, the file is named in its old or in its new directory, and every file reads as before |
| Ext2Tree.Preserved | fs/ext2.c:791-1375 | an operation that disturbs two inodes keeps the invariant if it keeps it for these two |
| Ext2Refine.MadeMeaning | fs/ext2.c:1000-1019 | on the map from names to files, a create makes one absent name lead to an empty file that no name led to |
| Ext2Refine.PutMeaning | fs/ext2.c:791-854 | a write makes every name of that file lead to the spliced bytes and changes no other name's |
| Ext2Refine.MovedMeaning | fs/ext2.c:1040-1132 | a rename, within or across directories, makes the new name lead where the old one led and the old one nowhere |
| Ext2Refine.RemovedMeaning | fs/ext2.c:1160-1255 | an unlink makes exactly one name lead nowhere; other names of the same file still lead to its bytes |
| Ext2Refine.ResolvedMeaning | fs/ext2.c:1290-1375 | a defragmentation changes what no name leads to |
| Ext2Session.Make | fs/ext2.c:1000-1019 | with a look for the name first, creation keeps the invariant and is the step of the map, refused exactly for a taken name, no free inode, or no place |
| Ext2Session.Put | fs/ext2.c:791-854 | a write through a name keeps the invariant and is the step of the map, short only on a full volume or at the largest size |
| Ext2Session.Remove | fs/ext2.c:1160-1255 | unlinking keeps every remaining name leading to an inode in use; as a map, the name goes exactly when it leads to a file |
| Ext2Session.Defragment | fs/ext2.c:1290-1375 | a defragmentation keeps the invariant and changes what no name leads to |
| Ext2Session.Move | fs/ext2.c:1040-1132 | renaming keeps every inode named exactly as often as before; as a map, a free new name takes over what the old one led to, or nothing changes for want of a file or of room |
| Ext2Session.Run | fs/ext2.c:791-1375 | over every run of create, write, rename, unlink and defragment: both accounting laws, one owner per block, directories tiled with no name twice, every name leading to an inode in use with links enough and no hole; and each operation is, step by step, the operation on the map from directory and name to file |
| SchedInvariant.PushNeverDrops | cpu/sched.c:21-26 | a task that is not queued finds room, so the drop branch of rq_push is never taken |
| SchedInvariant.SubmitInv | cpu/sched.c:227-383 | each way of submitting keeps the invariant, whether or not it finds a slot and a stack |
| SchedInvariant.KillInv | cpu/sched.c:457-462 | killing the current task keeps the invariant |
| SchedInvariant.DispatchInv | cpu/sched.c:413-450 | choosing the next task keeps the invariant |
| SchedInvariant.IrqEndInv | cpu/sched.c:396-451 | an interrupt exit keeps the invariant |
| SchedInvariant.RunInv | cpu/sched.c:205-489 | in every state of every run nothing is lost or duplicated, and CR3 and RSP0 are those of the current task |
| SchedInvariant.ReadyIffQueuedOnce | cpu/sched.c:21-34 | a pool task is READY if and only if it is queued, and then exactly once, at its own level |
| SchedInvariant.IdleOnlyWhenEmpty | cpu/sched.c:413-418 | the idle thread is chosen only when every queue is empty |
| SchedSpaces.LifePrivate | kernel/elf.c:205-208 | over every run of submissions, each process bringing a space no existing process has, and destructions: every active process runs in an existing space that was submitted with it alone |
| SchedSpaces.SpacesDistinct | cpu/sched.c:334-383 | hence no two active processes share an address space |
| SchedSpaces.DoneSpaceNotLoaded | kernel/kernel.c:943-945 | in every state of every such run, if the task of an existing space reads DONE and is not the current one, that space is not in CR3 |
| SchedSpaces.DestroyedNotLoaded | kernel/kernel.c:303-306 | so a space that is destroyed is not loaded and is no active process's |
| SchedSpaces.StaleSlot | cpu/sched.c:211-218 | a run that reaches a state in which a DONE slot keeps the CR3 of a destroyed space and the current process runs in a new space with that CR3 |
| SchedInvariant.ExitInv | cpu/sched.c:484-489 | sched_exit keeps the invariant; on the idle thread it asks for a switch |
| SchedLiveness.IrqProgress | cpu/sched.c:396-451 | each effective interrupt exit serves the waiting task or lowers its rank |
| SchedLiveness.QuietProgress | cpu/sched.c:387-475 | no other event raises the rank, unless it submits above the level |
| SchedLiveness.BoundedWait | cpu/sched.c:396-475 | with nothing above level p, a task at position k has run within the current task's remaining ticks plus k quanta of effective interrupt exits |
| SchedLiveness.ResumesLastSaved | cpu/sched.c:396-451 | a switch resumes the task with the stack pointer last saved for it over the whole run |
| Scheduler.Kernel.RqPush | cpu/sched.c:21-26 | the circular buffer's queue gains the task at its end |
| Scheduler.Kernel.RqPop | cpu/sched.c:28-34 | the circular buffer's queue loses its head, which is returned |
| Scheduler.Kernel.FindFreeSlot | cpu/sched.c:211-218 | the slot the specification picks, -1 exactly when the pool is full |
| Scheduler.Kernel.SubmitPrio | cpu/sched.c:227-273 | the whole new state is that of the specified submission of a kernel task, and the slot or -1 |
| Scheduler.Kernel.SubmitUser | cpu/sched.c:281-331 | likewise for a ring-3 task of the shared space, refused when the pooled stacks are used up |
| Scheduler.Kernel.SubmitUserAs | cpu/sched.c:334-383 | likewise for a process in its own address space |
| Scheduler.Kernel.SchedTick | cpu/sched.c:387-390 | the new state is the specified tick |
| Scheduler.Kernel.WantReschedule | cpu/sched.c:471-475 | the answer and new state are the specified ones |
| Scheduler.Kernel.KillCurrent | cpu/sched.c:457-462 | the new state is the specified kill |
| Scheduler.Kernel.SchedExit | cpu/sched.c:484-489 | the new state is the specified exit |
| Scheduler.Kernel.SchedIrqEnd | cpu/sched.c:396-451 | state and returned stack pointer are those of the specified interrupt exit |
| HeapRuns.PaintAddsRun | libc/heap.c:71-76 | painting free slots with an id unlike both neighbours adds exactly that run to the maximal runs |
| HeapRuns.ClearRemovesRun | libc/heap.c:103-106 | clearing from a run's start up to the first other id removes exactly that run |
| HeapRuns.RunsAfterAlloc | libc/heap.c:50-87 | the runs after an allocation are those before and the new one |
| HeapRuns.AllocThenFree | libc/heap.c:50-110 | freeing what was just allocated restores the bitmap |
| HeapRuns.UsedPaint | libc/heap.c:76 | painting n free slots uses n more |
| Heap.NextId | libc/heap.c:44-48 | an id that is neither neighbour's and not 0, and the search for it ends |
| Heap.GuardIsRight | libc/heap.c:59 | the used-space guard refuses only where no free run is long enough |
| Heap.Block.constructor | libc/heap.c:15-42 | everything free but the slots the bitmap lies in, which are one run |
| Heap.Block.FindFree | libc/heap.c:66-82 | the first free run long enough, or none exists: skipping past short runs misses nothing; for no slots at all, the first free slot or the end |
| Heap.Block.TryAlloc | libc/heap.c:59-83 | exactly one run more, at the first place it fits, or no change when none fits; a request for nothing changes nothing |
| Heap.Block.FreeRun | libc/heap.c:100-107 | from any slot on, the slots with its id up to the first with another are cleared, one whole run if it starts there, and the used count drops by as many, which keeps it right exactly when the slot was in use |
| Heap.HeapBM.Alloc | libc/heap.c:50-87 | null exactly when no block has a long enough free run; otherwise the first block that has one gains one run, at its first fit, and no other block changes; a request for nothing points at a free slot or the end and reserves nothing |
| Heap.HeapBM.Free | libc/heap.c:89-110 | the block is found by address and loses the slots of that allocation from the pointer's slot on, all of it for a pointer to its start |
| Kmalloc.RangeFits | libc/mem.c:60-71 | the user range lies behind its header and inside the slots, page-aligned on request, if and only if adding the extra bytes does not wrap 64 bits |
| Kmalloc.HugeRequestOverruns | libc/mem.c:61-62 | a request of 2^64 - 1 bytes is granted a single slot |
| Kmalloc.KernelHeap.Kmalloc | libc/mem.c:57-75 | one live allocation more, its header word and byte range in its own run and found again through the header; the runs stay exactly the bitmap's own and one per live allocation; 0 exactly when no free run is long enough; a size whose sum with the header wraps to 0 reserves nothing |
| Kmalloc.RangesDisjoint | libc/mem.c:57-75 | header words and byte ranges of different live allocations share no byte and lie in the arena |
| Kmalloc.SlotsAccounted | libc/mem.c:57-81 | a slot is in use exactly when it is the bitmap's own or belongs to a live allocation, and then to one only: nothing leaks and nothing is shared |
| Kmalloc.KernelHeap.EnsureInit | libc/mem.c:50-55 | the fresh heap has the bitmap's own run and no other |
| Kmalloc.KernelHeap.Kfree | libc/mem.c:77-81 | exactly the allocation of that pointer is gone |
| Kmalloc.KernelHeap.MallocFree | libc/mem.c:57-81 | kfree of what kmalloc returned restores bitmap and used count exactly |
| Paging.WalkLinked | cpu/vmm.c:54-71 | the four-level walk through well-linked tables reads exactly the leaf slot of the address, or nothing |
| Paging.TablesDecide | cpu/vmm.c:82-110 | memory that agrees on an address space's own tables translates its window alike |
| Paging.LinkPd | cpu/vmm.c:57-61 | linking a zeroed directory changes no translation |
| Paging.LinkPt | cpu/vmm.c:64-68 | linking a zeroed page table changes no translation |
| Paging.SetLeaf | cpu/vmm.c:71 | writing a leaf changes the translation of that page and of no other |
| Vmm.AddressSpace.AllocPage | cpu/vmm.c:11-20 | a zeroed page that nobody held, recorded as owned; 0 exactly at the page limit or when the allocator fails |
| Vmm.AddressSpace.Create | cpu/vmm.c:22-44 | an empty window, the master's kernel and MMIO slots, nothing else in memory touched; or null with memory as it was |
| Vmm.AddressSpace.MapPage | cpu/vmm.c:46-73 | a point update of the translation on success and none on failure; success exactly for a window page whose missing tables can be had; only own tables and unused pages are written, and every new page comes from the allocator |
| Vmm.AddressSpace.Destroy | cpu/vmm.c:75-80 | exactly the owned pages are released |
| Vmm.OthersKept | cpu/vmm.c:46-73 | another process's tables, pages and translations are untouched by any growth of this address space |
| PageSupply.TakePages | cpu/vmm.c:11-20 | any number of kmalloc(4096, 1) calls return page-aligned pages, none live before and none twice |
| PageSupply.SupplyFromHeap | cpu/vmm.c:11-20 | what the heap hands out is aligned, not in use by any address space, and handed out once: what the address-space model assumes of its supply |
| PageSupply.DrawnBacked | cpu/vmm.c:11-20 | whatever an address space drew from such a supply is a live page of the heap, and so is every page it owns |
| PageSupply.DestroyAndFree | cpu/vmm.c:75-80 | destroying an address space gives the heap back exactly the pages it owned and its record, and every page still in use stays a live allocation |
| PageSupply.ExecToDestroy | kernel/kernel.c:936-946 | elf_exec, any run of SYS_SBRK and vmm_destroy_address_space, or an elf_exec that fails: memory is as before, and the live allocations are what they were less the record and exactly the pages taken |
| PageSupply.BorrowSettled | libc/mem.c:57-81 | when every allocation made since has been freed, the bitmap is what it was, id for id |
| PageSupply.Lifetime | kernel/kernel.c:936-946 | over a whole process life, from kmalloc of the record on, memory, live allocations, bitmap and count of used slots end as they began |
| UserRange.RangeMapped | cpu/vmm.c:82-110 | for every 64-bit pointer and length: true exactly when the bounds test passes on the wrapped end and every page from the first to the last, around the end of the address space if need be, is present and user |
| UserRange.UnwrappedBytes | cpu/vmm.c:82-110 | short of wrapping, every page is the process's exactly when every byte is |
| UserRange.WrappedRefused | cpu/vmm.c:84-87 | a wrapped range that starts in the window passes exactly when its end wraps into the page it starts in and that page is mapped |
| UserRange.HighRefused | cpu/vmm.c:82-110 | a range that starts behind the window and passes the bounds test wraps, and is refused |
| UserRange.PassesInOwnSpace | cpu/vmm.c:82-110 | in an address space of this driver, for every 64-bit pointer and length: passed exactly if all bytes are the process's, or the range wraps into its own first, mapped page |
| UserRange.LeafDecides | cpu/vmm.c:54-71 | in an address space built by this driver the leaf bits that are checked are what the processor enforces over all four levels |
| UserRange.WrapSlipsThrough | cpu/vmm.c:84-87 | a wrapped range that passes the bounds check and ends in its own first page |
| UserRange.InRange | cpu/paging.c:45-50 | membership of the whole range for all 64-bit operands, without forming the sum |
| UserRange.IsUserRange | cpu/paging.c:52-78 | for every 64-bit pointer and length: in the arena, or in the window with every byte backed by a user page; no wrapped range passes |
| UserMemory.PrivateStep | kernel/elf.c:69-71 | mapping a fresh frame keeps every mapped frame owned, distinct and none of them a table |
| UserMemory.ImageStep | kernel/elf.c:73-82 | one more page shows the next bytes of the file in their place and zeros around them |
| PageBytes.FillByte | kernel/elf.c:78 | bytes stored into a page of 64-bit words read back, and every other byte is as it was |
| UserMemory.MapRun | kernel/elf.c:64-84 | the range is mapped readable, writable and user on frames of its own and reads as the file's bytes from the given offset on and zeros; whatever happens no other address is translated or reads differently; only want of pages or a file that is too short stops it |
| Process.MappedEndBounds | cpu/syscall.c:223-226 | the round-up relative to the heap start is a page boundary at or above the break and at or below any aligned ceiling |
| Process.Task.Sbrk | cpu/syscall.c:205-238 | a grant starts at the old break, moves it by exactly the increment and is zeroed and mapped; earlier pages, argv page and stack keep their translation and their bytes; failure leaves the break, and within bounds means pages ran out |
| Process.Task.SbrkRun | cpu/syscall.c:205-238 | over any run of calls the grants tile the range from first to last break and read as zeros, and nothing mapped before or at the ceiling is translated or reads differently |
| Process.GrantsDisjoint | cpu/syscall.c:235-236 | consecutive grants are pairwise disjoint and ordered |
| ElfExec.CoveredUnlessWrapped | kernel/elf.c:129-137 | an accepted segment is covered by the pages mapped for it if and only if rounding its end does not wrap |
| ElfExec.WrappedSegmentAccepted | kernel/elf.c:129-137 | a segment that passes the checks and gets no page |
| ElfExec.LoadSegments | kernel/elf.c:123-147 | every loadable segment mapped and read in, so that each byte of the window reads as the segments loaded in order make it; the highest end returned, nothing mapped above it; it fails only on a refused segment, a short file or want of pages |
| ElfExec.LastDecides | kernel/elf.c:64-84 | a byte reads as the last segment that covers its page has it |
| ElfExec.NoneDecides | kernel/elf.c:123-147 | a byte is unmapped exactly when no segment covers its page |
| ElfExec.SharedPageLost | kernel/elf.c:69-71 | two accepted segments that share a page, the earlier one's byte lost |
| ElfExec.BuildArgs | kernel/elf.c:186-203 | the argument page holds the count, a pointer in the process's addresses to each argument's bytes and NUL, null pointers after; as many arguments as there are places and room for, in order |
| ElfExec.ArgumentRead | kernel/elf.c:86-94 | what the started process reads at the address it is handed: the count, and behind each pointer the argument byte for byte |
| ElfExec.MapStack | kernel/elf.c:158-184 | four zeroed stack pages below the guard page and the filled argument page below them, nothing else changed |
| ElfExec.Exec | kernel/elf.c:115-225 | every byte of the window reads as arguments, zeroed stack or segments have it, on private frames, and nothing else is mapped; heap and guard page free if no segment reaches past the argument page; failure leaves memory exactly as it was |
| TrbRing.SeesFresh | drivers/xhci.c:158-160 | the cycle bit at the consumer matches if and only if an entry is outstanding: no stale entry passes for fresh |
| TrbRing.CtrlKeeps | drivers/xhci.c:112-119 | storing the control word last publishes exactly the entry whose body was stored |
| TrbRing.RelinkKeeps | drivers/xhci.c:121-127 | handing over the link entry keeps both ends in step |
| TrbRing.TakeKeeps | drivers/xhci.c:161-172 | what is taken is the oldest outstanding entry |
| TrbRing.StreamIsPrefix | drivers/xhci.c:93-181 | over every interleaving of the ends' single stores and reads, with at most as many outstanding as the ring holds, the consumer's stream is a prefix of what was submitted |
| TrbRing.ProgressUnlessStuck | drivers/xhci.c:121-127 | with entries outstanding the consumer can go on if and only if it is not at a link entry that was handed over again |
| TrbRing.StuckForever | drivers/xhci.c:121-127 | in that state neither end can ever move |
| TrbRing.NeverStuck | drivers/xhci.c:108-129 | a producer that keeps one entry back never reaches it, in any run |
| TrbRing.CanGetStuck | drivers/xhci.c:108-129 | one that does not, can |
| Xhci.RingInit | drivers/xhci.c:93-103 | all entries zero, the last a link with cycle bit 0 |
| Xhci.CommandRing.Enqueue | drivers/xhci.c:108-129 | one call is one submission of the protocol; the sanity check never fires |
| Xhci.EventRing.TryTake | drivers/xhci.c:610-624 | an event is returned exactly when one is outstanding, and it is the oldest; the dequeue-pointer register then holds the next entry's address |
| TicketLock.StepKeeps | libc/spinlock.h:26-42 | every atomic step of every thread keeps tickets numbered from the owner along the queue, modulo 2^16 |
| TicketLock.EntersAtHead | libc/spinlock.h:36 | a spinning thread that sees its ticket is the one that drew first |
| TicketLock.Exclusive | libc/spinlock.h:26-42 | over every interleaving with at most 65536 contenders, no two threads hold the lock and threads enter in the order they drew |
| TicketLock.HeadCanStep | libc/spinlock.h:26-42 | while tickets are out, the thread at the head can move |
| TicketLock.OneTooMany | libc/spinlock.h:17-20 | with 65537 contenders a run in which two threads hold the lock |
| Arith64.Clz | libc/arith64.c:115-124 | the number of leading zeros of every nonzero 64-bit word |
| Arith64.SignTest | libc/arith64.c:187 | the sign bit of the wrapped difference is set exactly when the remainder is not below the divisor |
| Arith64.DivMod | libc/arith64.c:152-192 | for every 64-bit numerator and nonzero divisor exactly the quotient and remainder; a trap for zero |
| Arith64.SignedDiv | libc/arith64.c:195-199 | the quotient truncated toward zero if and only if the operands are not the least value and -1, which give the least value back |
| Arith64.SignedMod | libc/arith64.c:228-233 | the remainder of truncated division for every pair with nonzero divisor |

## Left out

- I/O errors of the block devices: reads and writes succeed; what is modelled of failure is a full volume, a missing name and a crash after any write.
- Concurrent handles on one file, the node and mount pools, and the VFS layer's own limits; names are within the 256-byte path limit.
- FAT32: mounting and readdir, long names, the batching of transfers by drive, free-space hints on disk; the FAT copies agree in their low 28 bits at mount and the FAT is large enough for the cluster count; directories are known to the model from the start.
- Fat32Write.Write: a write ends below 4 GiB and no file's clusters reach past it, as the 32-bit size field demands; cluster sizes are the powers of two the FAT32 specification allows (a volume with another size is mounted by the source and outside the model).
- Fat32Dirs.Create and Fat32Moves.Rename: do not forbid a target name that already exists, because the driver does not look; Fat32Session.RunRefines speaks of runs that take free names only.
- ext2: locating group descriptors and inodes inside their blocks (locate_bgd, locate_inode), since descriptors and inodes are records of their own here; bitmap bits are booleans, not bits of bytes; i_blocks, times and the other inode fields no code path reads.
- ext2: ext4 extents, double and triple indirect blocks and files with a nonzero i_size_high, which the write paths refuse; the refusals themselves (-6, -7 of ext2_unlink and the checks at the head of ext2_write) are left out with them.
- Ext2Ops.Create: does not forbid a name that already exists, because the driver does not look; Ext2Session.Make and Ext2Session.Move look first.
- Ext2Write.Write: what a filled hole holds around the written bytes is left open, being what the medium had; Ext2Session.Run is about files without holes, the only ones the driver makes.
- Scheduler: names, cpu ids, the register layout of a new stack, and the never-freed kernel stacks; stack allocation is a parameter.
- Scheduler.Kernel.SchedExit: up to its software interrupt; the idle thread's own state field, which nothing reads, is not modelled.
- Kmalloc.KernelHeap.Kfree: pointers that kmalloc did not return, whose header word would be arbitrary memory.
- Heap.HeapBM.Free: pointers into a block's header, behind its last slot, or into a free slot; what the last does to its block is in Heap.Block.FreeRun.
- Address spaces: what the allocator will return next is a parameter, so that its failures are covered; PageSupply derives what is assumed of it from the heap, and has the kfree of the record that Vmm.AddressSpace.Destroy leaves to it. paging_mark_user_region and huge pages are left out.
- ElfExec.Exec: starts at the program headers, so neither the ELF header check nor opening the file is modelled; a read returns what the file holds.
- PageSupply.Lifetime: the pages a process may need are taken ahead and those it did not need given back at the end; in the source each is taken when it is needed.
- Xhci.EventRing.TryTake: stands for one round of evt_poll too; the retry count is left out, and so are transfer rings shorter than XHCI_RING_SIZE.
- Xhci.CommandRing.Enqueue: the caller leaves the cycle bit clear and keeps at most 63 entries outstanding, neither of which the source checks.
- TicketLock: spinlock_trylock, whose packing does not follow the fields, and the interrupt-saving variants.
- Arith64: the other routines of the file; signed negation is taken to wrap, which the C standard leaves undefined for the least value.
- Port I/O, device drivers, the window system, the shell, networking, NTFS and XFS: they would add members, not difficulty.
