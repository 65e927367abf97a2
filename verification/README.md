# Pulsar OS kernel: a verified model of its bookkeeping

A Dafny model of the architecture-independent core of the Pulsar OS kernel, one module (sometimes a few)
per component, and proofs of what each component promises to the rest of the system. `dafny verify
dfyconfig.toml` checks all of it.

Fixed tables, arrays and in-place updates of the kernel are classes with methods; each method is proved
against a specification on values, and the specifications carry the lemmas. A critical section under one
lock is one step. Integers are unbounded except where width matters: sequence numbers, cache ages and
hashes wrap, reference counts of frames saturate, 64-bit overflow checks are written out. I/O results,
the clock, free frames and the outcome of lookups elsewhere in the kernel are parameters or
nondeterministic choices.

## Components

| component | modules | main result |
|---|---|---|
| Virtual memory areas and shared objects | `VmaTable`, `ShmObjects`, `AddressSpaces`, `PageFaults` | the sorted table refines a map from pages to protection and backing page under mmap, munmap, mprotect, mremap, fork and release; map counts equal the entries that name an object, over all spaces; faults bring in what the map says, for pages of files exactly when the table has not moved them meanwhile |
| Block cache | `BlockCache`, `CachedAllocation` | the logical disk: every access, write-back, read-ahead and flush is invisible except the writes themselves; the dirty count is exact; a successful flush leaves the device equal to it; no free block is ever cached |
| Block map, allocation, regular files | `BlockRoutes`, `BlockTree`, `InodeMap`, `Truncation`, `BlockAllocator`, `Ext2Files`, `FileBytes`, `RegularFiles` | files refine byte sequences under read, write and truncate on a volume in which no two files share a block, sector counts are exact and no empty indirect block stays |
| Directories | `DirBlocks`, `DirListings`, `NameCache`, `Directories` | blocks stay exact tilings of records, each change alters one answer, and the name cache agrees with a full scan for every name but ".." |
| Namespace | `NamespaceTrees`, `Climbs`, `Namespaces`, `StaleParents` | what the directories answer, inodes and types, is a tree with exact link counts, and stays one under create, mkdir, rmdir, link and unlink; for rename, which trusts cached ".." answers, exactly when it does and a run in which it does not |
| Processes | `ProcessTable`, `Rendezvous`, `Dispatching`, `Processes` | one invariant over the 256 slots kept by every operation: members equal users, page tables given back exactly once, nobody blocked on a dead slot, each send at most one result and -1 when its partner dies, one CPU per running slot, bounded wait |
| TCP | `TcpEndpoint`, `TcpLink`, `TcpConnection` | over a channel that loses, repeats and reorders segments the reader has a prefix of what the writer queued (sections 3.4, 3.8.6 and 3.10.7.4 of RFC 9293) |
| Sleeping and waking | `WaitConditions`, `Wakeups`, `EpollSleepers` | in every interleaving no sleeper whose condition has come true is forgotten, as long as the queue of 64 keys does not overflow; for sleepers on an epoll set, exactly which changes of the set keep that |
| Pipes and local connections | `ByteRings`, `LocalStreams`, `LocalChannels` | bytes in order and once across the ring's end, packets one at a time, descriptors with the first byte of their message |
| Descriptors | `ReferenceBags`, `Descriptors` | every count equals table entries plus attachments in flight plus backlog entries, and storage goes with the last reference |
| Frames | `FrameAllocator` | the free count, the bitmap and the reference counts agree; searches fail only when there is nothing to find |
| Executables | `LittleEndian`, `PageMemory`, `Executables`, `LoadPieces`, `ElfSegments`, `Relocations`, `PulseConversion` | a program is in memory as its file says, at whatever base, and two bases give images that differ by exactly their distance; loading the converted .pulse v3 file means what loading the ELF file means |

`Basics` holds the types all of them use.

## Where the code differs from what it says of itself

- The cache victim is said to be preferably a clean slot (kernel/src/ext2.rs:106); the code takes the
  longest unused one, clean or dirty, and so does the model. The file's heading speaks of 4 ways
  (kernel/src/ext2.rs:12); the table has 8.
- A write that stores nothing past the end of a file still grows it, although it may report an error
  (kernel/src/ext2.rs:797-806): `FileBytes.WriteOfNothing` says exactly when.
- A page fault on a file reads it with the table unlocked and then looks only at whether the entry it finds is of
  the same file (kernel/src/vm.rs:491). If the file was mapped there anew from another offset meanwhile, pages of the
  old place are mapped: `PageFaults.MovedMeanwhile`; `PageFaults.LoadedRight` says exactly when what is mapped is right.
- A page shared by two ELF segments is said to get the union of their permissions
  (kernel/src/exec.rs:108); the code sets the later segment's with read and write added. The conversion
  theorem is about segments that share no page, where this cannot show.
- A writer blocked on a full local connection sleeps on a key that the read which makes room does not
  signal (kernel/src/unix.rs:170, kernel/src/unix.rs:186): `WaitConditions.BlockedWriterUnheard`.
- Descriptors sent with an empty message on a stream make every later attachment of that direction
  unreachable, if the read that hands them over takes a byte (`LocalStreams.EmptyMessageJams`,
  `LocalStreams.JamStays`); the properties of attachments are about non-empty messages.
- dir_add writes the name cache before it knows whether the name can be added
  (kernel/src/ext2.rs:957): `Directories.Volume.DirAdd` says exactly when cache and directory agree after
  a failure.
- A cached ".." survives rmdir and is believed when the inode number is used again
  (kernel/src/ext2.rs:915-922): `NameCache.DotdotStale`. is_ancestor climbs through such answers, so rename
  can move a directory below itself, which cuts it off from the root (`StaleParents.RenameBreaks`), or refuse
  a sound move. `Namespaces.Namespace.Rename` says exactly when, from the state of the cache before the call.
- epoll_ctl signals nothing. A thread that sleeps on a set to which a ready item is added, or in which one
  is armed again, is not woken (`EpollSleepers.RearmLost`), nor does it hear of a descriptor whose bucket is
  not in its mask yet (`EpollSleepers.RearmUnheard`); `EpollSleepers.GainExactly` says exactly which changes
  are harmless.
- Sending again starts over at the first unacknowledged byte (kernel/src/net.rs:534); an acknowledgment that covers more
  than has been sent again since is ignored (kernel/src/net.rs:470): `TcpLink.Recovers`. In RFC 9293 a retransmission
  leaves SND.NXT where it is (section 3.10.8), so that such an acknowledgment is acceptable (section 3.10.7.4).
- An endpoint in the error state still takes in-order data in (kernel/src/net.rs:480-501); the model
  does too.

## Model

| member | source | states |
|---|---|---|
| VmaTable.AtMapped | kernel/src/vm.rs:98-112 | An address is mapped exactly when some entry of the table covers it, so looking an address up is a function of the whole table and not of the search |
| VmaTable.CarvedAt | kernel/src/vm.rs:153-178 | Carving a range removes exactly its addresses from the page map; every other address keeps its protection and backing page, also inside entries that are trimmed or split |
| VmaTable.CarvedSorted | kernel/src/vm.rs:153-178 | A carved table is again sorted and disjoint and has grown by at most one entry, which is what callers reserve room for |
| VmaTable.InsertedAt | kernel/src/vm.rs:187-204 | An entry put where it fits maps its own addresses and no others |
| VmaTable.FusedAt | kernel/src/vm.rs:196-211 | Two entries that may be merged are one run of pages: fusing them does not change the page map |
| VmaTable.HalvedFused | kernel/src/vm.rs:215-223 | Splitting an entry at a page border and fusing the halves gives the table back |
| VmaTable.ReprotectedAt | kernel/src/vm.rs:341-347 | After both borders were split, changing the entries inside changes the protection on the range only, and what backs each page nowhere |
| VmaTable.Lower | kernel/src/vm.rs:98-106 | The binary search finds the first entry that ends after the address |
| VmaTable.Find | kernel/src/vm.rs:108-112 | The entry found is the one that says what the page map says, and none is found exactly for unmapped addresses |
| VmaTable.Overlaps | kernel/src/vm.rs:132-136 | True exactly when some address of the range is mapped |
| VmaTable.Covered | kernel/src/vm.rs:139-149 | True exactly when every address of the range is mapped |
| VmaTable.GapFrom | kernel/src/vm.rs:227-238 | First fit: the lowest free range of that length in the mmap region at or after the start, and none only when there is none |
| VmaTable.Gap | kernel/src/vm.rs:240-243 | Next fit: the range found is the first free one from the hint on, or if there is none the first of all, and the search fails exactly when no free range of that length exists anywhere in the region |
| ShmObjects.DeadUnnamed | kernel/src/shm.rs:57-66 | An unused object is blank and no entry of any space names it |
| ShmObjects.MapRefDrop | kernel/src/shm.rs:150-154 | A reference whose entry is gone is given back: the counts are exact again and objects that are held stay |
| ShmObjects.MapRefAdd | kernel/src/shm.rs:150-154 | A reference added for an entry already in a table makes the counts exact again |
| AddressSpaces.Vm.Reserve | kernel/src/vm.rs:83-95 | Room for more entries, by doubling the table when it is full, fails exactly when the table would be too large or no frames can be had; the entries stay |
| AddressSpaces.Vm.Carve | kernel/src/vm.rs:153-178 | The table after the loop is the carved table, and each object loses one reference per entry that named it and is gone |
| AddressSpaces.Vm.AddVma | kernel/src/vm.rs:187-204 | Adding an entry and merging it with both neighbours changes the page map on its range only and keeps every reference count equal to the entries that name the object |
| AddressSpaces.Vm.MergeAround | kernel/src/vm.rs:187-211 | Merging leaves the page map as it was |
| AddressSpaces.Vm.SplitAt | kernel/src/vm.rs:215-223 | No entry straddles the address afterwards and the page map is as before |
| AddressSpaces.Vm.MmapFull | kernel/src/vm.rs:272-305 | Success changes the page map on the returned range only, which starts on a page, lies in the mmap region, was free unless replacement was asked for, and is the hinted place if that is free and otherwise the next fit, behind which the next search starts; it succeeds exactly when the arguments are good, the table has or gets room, and the fixed place may be used or some gap is long enough; failure changes nothing, and each error is given exactly for its cause |
| AddressSpaces.Vm.Munmap | kernel/src/vm.rs:308-322 | Nothing of the range is mapped afterwards and the rest is as before; the result is -EINVAL, -ENOMEM or 0 exactly as arguments and room decide |
| AddressSpaces.Vm.Mprotect | kernel/src/vm.rs:326-349 | The protection changes on the range and nowhere else, the backing pages nowhere; it succeeds exactly when the arguments are good, the whole range is mapped and there is room for the two splits |
| AddressSpaces.Vm.Mremap | kernel/src/vm.rs:354-392 | Shrinking unmaps the tail, growing gives the run its new length with its protection, in place exactly when what follows is free, otherwise at a free range with the old one unmapped; when it succeeds is characterised exactly; the new place is the next fit |
| AddressSpaces.Vm.Grow | kernel/src/vm.rs:370-391 | The growing half: it succeeds exactly when one private anonymous entry covers the run, there is room, and the run can grow where it is or may move to a gap |
| AddressSpaces.Vm.FitsHere | kernel/src/vm.rs:376-377 | A run can grow where it is exactly when it stays in the region and what follows is free |
| AddressSpaces.PageUpLeast | kernel/src/vm.rs:253 | Rounding up gives the least multiple of a page, and fails exactly when it would overflow 64 bits |
| AddressSpaces.CapFits | kernel/src/vm.rs:83-95 | As many entries as the frames of the table have bytes for |
| PageFaults.FaultBegin | kernel/src/vm.rs:396-458 | What a fault brings in is what the page map says backs the page: a page of the object, a zeroed one, or pages of the file; refused exactly when nothing is mapped, the access is not allowed, or private memory lies outside the region; each of up to eight pages read around it is the file page that the page map names, and as many as the entry and the pages already there allow |
| PageFaults.FaultEnd | kernel/src/vm.rs:480-505 | After the file was read: which pages are mapped, and with which pages of the file |
| PageFaults.LoadedRight | kernel/src/vm.rs:475-497 | The table may have changed meanwhile: what ends up in memory is right exactly when nothing is mapped, or the entry found the second time has the file at the same place |
| PageFaults.UndisturbedRight | kernel/src/vm.rs:396-505 | It is right when the table did not change, and the page asked for is among the pages mapped unless somebody else brought it in |
| PageFaults.MovedMeanwhile | kernel/src/vm.rs:491 | A change of the table after which the wrong page of the file is mapped |
| PageFaults.AllowsMeans | kernel/src/vm.rs:402-406 | Which accesses each of the eight protections allows |
| AddressSpaces.Vm.AddRegion | kernel/src/vm.rs:556-563 | A region is added exactly when its range is free and there is room |
| AddressSpaces.Vm.AddRegionOver | kernel/src/vm.rs:585-591 | A region replaces whatever its range held and touches nothing else |
| AddressSpaces.Vm.CloneSpace | kernel/src/vm.rs:566-580 | The copy has the same entries, and every shared object gains the references of the copy |
| AddressSpaces.Vm.Release | kernel/src/vm.rs:595-601 | The space is blank and every entry gave its reference back, so all counts are exact |
| AddressSpaces.Vm.Create | kernel/src/shm.rs:88-102 | A new object takes a slot that was unused, and fails only when all are used |
| AddressSpaces.Vm.CreateAnon | kernel/src/shm.rs:105-116 | An object for shared anonymous memory starts without references; if its pages cannot be indexed it is gone again |
| AddressSpaces.Vm.MaybeFree | kernel/src/shm.rs:57-66 | An object is reclaimed exactly when it has no descriptor, no mapping and no name |
| AddressSpaces.Vm.FdRef | kernel/src/shm.rs:143-148 | Opening and closing moves the descriptor count, and the last close reclaims the object exactly when nothing else holds it |
| AddressSpaces.Vm.Unlink | kernel/src/shm.rs:134-141 | Removing the name reclaims the object exactly when nothing else holds it |
| BlockCache.SetOf | kernel/src/ext2.rs:96-97 | The multiplicative hash stays inside the table of sets |
| BlockCache.AgeMeans | kernel/src/ext2.rs:110 | The age of a slot is the number of uses since it was used, although the clock wraps, below 2^32 |
| BlockCache.DistinctSets | kernel/src/ext2.rs:214-229 | Any 62 consecutive blocks fall into pairwise distinct sets, so one prefetch never uses a slot twice |
| BlockCache.EvictClean | kernel/src/ext2.rs:114-120 | Emptying a slot that is not dirty is invisible on the logical disk |
| BlockCache.WriteBackInvisible | kernel/src/ext2.rs:114-117 | A write-back is invisible on the logical disk even when it fails half way |
| BlockCache.CleanView | kernel/src/ext2.rs:168-169 | With no dirty slot the device holds the logical disk |
| BlockCache.WroteRun | kernel/src/ext2.rs:193-200 | One request for a run of dirty blocks disturbs only blocks that dirty slots hold |
| BlockCache.Sort | kernel/src/ext2.rs:181 | The list of dirty slots in block order is a rearrangement of the list |
| BlockCache.RunLength | kernel/src/ext2.rs:185-191 | The items that go into one request are consecutive blocks, and it stops only at a gap, at the end, or at 62 |
| BlockCache.Cache.Bget | kernel/src/ext2.rs:94-129 | The slot returned is the only one that holds the block and holds what the logical disk says; the logical disk is unchanged, except that a block asked for without loading becomes zeros if it was not cached; on a working device it never fails; the slot is marked as used now, and on a miss it was empty or the longest unused of its set |
| BlockCache.Cache.Update | kernel/src/ext2.rs:132-149 | A write through the returned slot changes the logical disk at that block only, also when the 256th dirty block sets off a flush |
| BlockCache.Cache.Bforget | kernel/src/ext2.rs:152-164 | The block is not cached afterwards, and every other block reads as before |
| BlockCache.Cache.Flush | kernel/src/ext2.rs:168-204 | The logical disk never changes; true means that no slot is dirty, the dirty count is 0 and the device holds the logical disk; on a working device the result is true |
| BlockCache.Cache.Collect | kernel/src/ext2.rs:173-176 | The list holds every dirty slot with its block, once |
| BlockCache.Cache.FlushRun | kernel/src/ext2.rs:193-200 | On success the slots of the run are clean; the slots of other runs are as before; the view never changes |
| BlockCache.Cache.Victim | kernel/src/ext2.rs:107-113 | The slot to reuse is an empty one or the one used longest ago, by wrapping 32-bit age |
| BlockCache.Cache.Prefetch | kernel/src/ext2.rs:208-235 | Reading ahead is invisible, whether the request succeeds or not; it asks for as many blocks as there are before a cached one, a set without a slot to spare, or 62, and on a working device all of them are cached afterwards |
| BlockCache.Cache.Claim | kernel/src/ext2.rs:214-231 | The slots claimed for a run are pairwise different, empty, and each in the set of its block |
| BlockCache.Cache.CleanVictim | kernel/src/ext2.rs:219-223 | The slot given up for reading ahead is one whose loss costs nothing, and the longest unused of those; none exactly when there is none |
| CachedAllocation.Blocks.AllocBlock | kernel/src/ext2.rs:424-440 | No free block is ever cached, so a block just allocated reads as zeros whatever the device holds, and no other block changes; on a working device it fails exactly when every block is in use |
| CachedAllocation.Blocks.FreeBlock | kernel/src/ext2.rs:443-454 | The block is free and forgotten by the cache, every other block reads as before |
| CachedAllocation.Blocks.Prefetch | kernel/src/ext2.rs:722-729 | Reading ahead blocks that are in use caches no free one |
| BlockRoutes.RouteMeaning | kernel/src/ext2.rs:594-606 | The route of a logical block names a pointer slot of the right depth, stays inside the pointer blocks, and counts back to that logical block, so no two blocks share a route |
| BlockRoutes.RoutesReach | kernel/src/ext2.rs:594-606 | Exactly the first 12 + p + p² + p³ logical blocks have a route, p being the pointers of a block |
| BlockRoutes.TripleRouteFound | kernel/src/ext2.rs:602-605 | Every path of three indices below the last pointer is the route of some logical block; the shorter ones have the like |
| BlockTree.FollowDistinct | kernel/src/ext2.rs:609-618 | In a tree without aliases different walks end in different blocks |
| BlockTree.GraftFollow | kernel/src/ext2.rs:620-639 | Hanging a fresh block on a null pointer changes where exactly that walk ends |
| BlockTree.LeafWrite | kernel/src/ext2.rs:609-618 | Writing a data block changes neither the tree nor any walk |
| InodeMap.GraftRoot | kernel/src/ext2.rs:624-627 | A fresh block as the root of an inode pointer keeps the file sound and the other pointers' trees as they were |
| InodeMap.GraftBelow | kernel/src/ext2.rs:629-637 | A fresh block hung on an indirect block on the route keeps the file sound and every other route as it was |
| InodeMap.MapAnswers | kernel/src/ext2.rs:594-617 | The block map case by case, without routes: the direct pointers, then single, double and triple indirect blocks entry by entry, then nothing |
| Truncation.ThroughChild | kernel/src/ext2.rs:649-662 | Paths through child i of an indirect block are paths below that child, i spans further on |
| Truncation.ChildTrimmed | kernel/src/ext2.rs:649-662 | A child that was cut short is finished, and what it lost joins the freed blocks |
| Truncation.UnderwayDone | kernel/src/ext2.rs:644-664 | When all children are done, exactly the paths before the cut lead where they led and all others lead nowhere |
| Truncation.PackedPastCut | kernel/src/ext2.rs:644-664 | A tree in which every indirect block leads to data, and whose data is gone, is gone itself |
| Truncation.PastCutGone | kernel/src/ext2.rs:672-689 | After a cut no pointer of the inode at or past it is left; a cut at 0 leaves nothing at all |
| BlockAllocator.FirstClear | kernel/src/ext2.rs:397-409 | The first clear bit of a word that has one |
| BlockAllocator.BitmapFind | kernel/src/ext2.rs:397-409 | The lowest clear bit below the limit, and none only when all are set |
| BlockAllocator.Allocator.Flip | kernel/src/ext2.rs:397-421 | Setting or clearing one bit keeps the group's and the volume's counters equal to the clear bits |
| BlockAllocator.Allocator.AllocBlock | kernel/src/ext2.rs:424-440 | A block that was free, and no other, becomes used: the lowest free one of the first group, from the goal around, that has any; none exactly when every block is in use |
| BlockAllocator.Allocator.AllocIn | kernel/src/ext2.rs:428-436 | The lowest free block of a group, and none only when the group is full |
| BlockAllocator.Allocator.FreeBlock | kernel/src/ext2.rs:443-454 | That block is free and no other changes; blocks outside the volume and free ones are left alone |
| Ext2Files.Ext2.AllocBlock | kernel/src/ext2.rs:424-440 | On the disk as the cache presents it: the block was in use nowhere, reads as zeros, and nothing else changes; why it reads as zeros is CachedAllocation.Blocks.AllocBlock |
| Ext2Files.Ext2.Bmap | kernel/src/ext2.rs:609-617 | The loop finds the physical block of every logical one: direct pointers, then the entries of single, double and triple indirect blocks by their indices, 0 for holes and from 12 + p + p² + p³ on |
| Ext2Files.Ext2.BmapAlloc | kernel/src/ext2.rs:620-639 | Only the asked logical block may change, from a hole to a zeroed block; EFBIG exactly without a route, ENOSPC only when no block is free; the file stays without aliases and its sector count exact |
| Ext2Files.Ext2.TruncInd | kernel/src/ext2.rs:644-664 | Exactly the data blocks at or past the cut and the indirect blocks left empty below are freed, the sector count falls by as much, and true means that nothing is left |
| Ext2Files.Ext2.CutPointers | kernel/src/ext2.rs:672-689 | All 15 pointers cut: what is freed is exactly what lies at or past the cut, with no empty indirect block kept |
| Ext2Files.Ext2.FreeBlock | kernel/src/ext2.rs:443-454 | The block leaves the set in use and every other block keeps its contents |
| Ext2Files.Ext2.WriteBytes | kernel/src/ext2.rs:793-794 | The bytes of one chunk change and nothing else |
| FileBytes.WriteOfNothing | kernel/src/ext2.rs:797-806 | A write that stores nothing leaves the file alone exactly when it starts at or before the end; past the end it grows the file to the offset |
| FileBytes.WritesJoin | kernel/src/ext2.rs:773-807 | Two writes in a row are one write of both |
| FileBytes.ShrinkThenGrow | kernel/src/ext2.rs:667-704 | What was cut off reads as zeros when the file grows again |
| FileBytes.MapDistinct | kernel/src/ext2.rs:609-617 | Different logical blocks never share a physical block |
| FileBytes.GrowthMap | kernel/src/ext2.rs:620-639 | Growth at one logical block leaves every other mapping and every mapped block's contents |
| FileBytes.ChunkWritten | kernel/src/ext2.rs:780-796 | Writing a chunk changes exactly the bytes it covers, read back through the block map |
| FileBytes.CutMap | kernel/src/ext2.rs:672-689 | After a cut the map is the old one before it and empty from there on |
| FileBytes.CutBytes | kernel/src/ext2.rs:667-704 | After a cut the bytes before the size are the old ones, and those past it read as zeros once the rest of the last block is cleared |
| FileBytes.Bystander | kernel/src/ext2.rs:620-706 | A file that shares no block with the one that changed keeps its blocks and every byte, and still shares none |
| RegularFiles.VolumeStep | kernel/src/ext2.rs:773-818 | A change confined to one file keeps the whole volume sound, every other file byte for byte |
| RegularFiles.RawIsContents | kernel/src/ext2.rs:745-769 | Once the device holds what the cache shows, reading the device gives the file's bytes |
| RegularFiles.Files.Read | kernel/src/ext2.rs:710-731 | The bytes returned are exactly those of the byte sequence at the offset, as many as it has, holes as zeros; the rest of the buffer is untouched |
| RegularFiles.Files.Create | kernel/src/ext2.rs:1258-1271 | A new inode is an empty file, and every other file is as it was |
| RegularFiles.Files.Write | kernel/src/ext2.rs:773-807 | The file becomes the old sequence overwritten by the reported prefix, all other files are unchanged; the prefix is shorter than asked only at a block no route reaches or on a full volume, and the call fails exactly when it stored nothing of something; directories and overflow are refused unchanged |
| RegularFiles.Files.WriteChunk | kernel/src/ext2.rs:780-796 | One turn of the loop: the chunk is stored, or nothing changes |
| RegularFiles.Files.Truncate | kernel/src/ext2.rs:809-818 | The file becomes the old sequence cut or extended with zeros, all other files unchanged; only directories are refused |
| RegularFiles.Files.TruncateInode | kernel/src/ext2.rs:667-704 | Pointers cut and the rest of the last block cleared |
| RegularFiles.Files.ZeroTail | kernel/src/ext2.rs:690-700 | What the last block holds past the size reads as zeros, and nothing else changes |
| RegularFiles.Files.ReadAllPhys | kernel/src/ext2.rs:745-769 | The coalesced direct read returns, byte for byte, what the device holds for each mapped block and zeros for holes; when the device holds the logical disk these are the file's contents |
| RegularFiles.Files.RunFrom | kernel/src/ext2.rs:761-765 | A run covers neighbours on the disk, or holes, and stays within one request |
| DirBlocks.TilesReplace | kernel/src/ext2.rs:974-987 | Replacing some records of a block by others that fill the same bytes keeps the block an exact tiling |
| DirBlocks.OneTiling | kernel/src/ext2.rs:931-940 | A tiling is unique: it is the records one reads from the start of the block |
| DirBlocks.WrittenRec | kernel/src/ext2.rs:1004-1012 | The record written is read back with its inode, type, length and name, and no byte outside it changes |
| DirBlocks.DirentBytes | kernel/src/ext2.rs:1004-1012 | The record byte by byte: inode, length, length of the name, type, name |
| DirBlocks.NeedLeast | kernel/src/ext2.rs:953 | A record needs the least multiple of four bytes that holds its header and name |
| DirBlocks.SharedFits | kernel/src/ext2.rs:974-987 | The shortened record and the new one fill exactly the bytes of the old one, and the old name is intact |
| DirBlocks.AddedAnswers | kernel/src/ext2.rs:974-987 | A new name put into the spare bytes of any record changes the answer of a scan for that name alone |
| DirBlocks.RemovedAnswers | kernel/src/ext2.rs:1043-1052 | A record merged away changes the answer for its own name alone, if names are unique |
| DirBlocks.FindInBlock | kernel/src/ext2.rs:929-948 | The record loop answers for a block what its records say |
| DirBlocks.PlaceInBlock | kernel/src/ext2.rs:966-990 | The new record goes into the first record with room, the block stays an exact tiling, and no room is reported exactly when no record has enough |
| DirBlocks.TakeFromBlock | kernel/src/ext2.rs:1033-1055 | The first record of that name goes, into the one before it or into a gap at the start; the block stays an exact tiling; nothing is found exactly when no record has the name |
| DirListings.FindIn | kernel/src/ext2.rs:924-949 | The block loop answers what a scan of all records says, and always answers when every block can be read |
| DirListings.AskNonzero | kernel/src/ext2.rs:941-945 | What a scan finds has an inode number, so the cache's 0 means that a name is absent |
| DirListings.PlaceIn | kernel/src/ext2.rs:960-991 | The record goes into the first block with room; no room is reported exactly when no block has any |
| DirListings.PlacedOrderly | kernel/src/ext2.rs:956-991 | After a name was added in place, the directory is in good order, finds the new name, and answers as before for every other |
| DirListings.AppendedOrderly | kernel/src/ext2.rs:992-1001 | The same when a new block at the end holds the new name |
| DirListings.TakeFrom | kernel/src/ext2.rs:1027-1058 | The name leaves the first block that has it; not found means that the directory does not have it |
| DirListings.TakenOrderly | kernel/src/ext2.rs:1023-1058 | After a removal the name is not found, every other answer is as before, and the directory is in good order |
| DirListings.FreshOrderly | kernel/src/ext2.rs:1290-1301 | A new directory finds "." and "..", and nothing else |
| DirListings.Redirect | kernel/src/ext2.rs:1072-1083 | The second record gets the new parent: the answer for ".." changes and no other |
| DirListings.Readdir | kernel/src/ext2.rs:887-913 | Each call returns the next live record in scan order and a position from which exactly the live records after it remain; the end means there is none left |
| DirListings.IsEmpty | kernel/src/ext2.rs:1062-1069 | True exactly when the directory finds no name but "." and ".." |
| NameCache.DcacheIdx | kernel/src/ext2.rs:839-845 | The hash loop in wrapping 64-bit arithmetic, as a function of directory and name, inside the table |
| NameCache.PutSlots | kernel/src/ext2.rs:847-858 | After a put the only slot for that name holds what was put, and every other slot is as it was |
| NameCache.InvalidatedSlots | kernel/src/ext2.rs:861-868 | After an invalidation no slot answers for that name |
| NameCache.PutAgrees | kernel/src/ext2.rs:847-858 | Caching what a scan says keeps every cached answer right, whatever it displaces |
| NameCache.AnnouncedAgrees | kernel/src/ext2.rs:956-957 | When a name is cached before it is added, the cache is right in the end exactly when the name is too long to be cached or was really added |
| NameCache.DotdotStale | kernel/src/ext2.rs:1072-1073 | A cached ".." of a removed directory whose number is used again is right exactly when the new parent is the old one |
| Directories.Volume.CachePut | kernel/src/ext2.rs:847-858 | The slot table after dcache_put |
| Directories.Volume.CacheInv | kernel/src/ext2.rs:861-868 | The slot table after dcache_inv |
| Directories.Volume.Lookup | kernel/src/ext2.rs:915-951 | For every name but "..", from the cache or not, the answer is what a full scan gives; names not found are cached as such |
| Directories.Volume.DirAdd | kernel/src/ext2.rs:956-1001 | The answer changes for the new name only or not at all; success means that it is found and cache and scan agree; after any outcome cache and scan agree exactly when the name was really added or is too long to be cached; without read errors it succeeds exactly when some block has room or a block can be had |
| Directories.Volume.DirRemove | kernel/src/ext2.rs:1023-1060 | The answer changes for that name only, from present to absent, and cache and scan agree whatever the outcome; without errors it succeeds exactly when the name is there |
| Directories.Volume.SetDotdot | kernel/src/ext2.rs:1072-1083 | On success ".." names the new parent; no other answer changes |
| Directories.Volume.MakeDir | kernel/src/ext2.rs:1288-1302 | A new directory, even under a number used before, changes no answer the cache may hold except ".." |
| Directories.Volume.CheckEmpty | kernel/src/ext2.rs:1387 | rmdir may go on exactly when no name but "." and ".." is found |
| Directories.Volume.DropDir | kernel/src/ext2.rs:1389 | Releasing an empty directory changes no answer the cache may hold except ".." |
| NamespaceTrees.Acyclic | kernel/src/ext2.rs:1398-1405 | In a tree no directory lies above itself |
| NamespaceTrees.FileLinkedOk | kernel/src/ext2.rs:1352-1368 | One more name for a file keeps the tree and all link counts exact |
| NamespaceTrees.FileLinkedOnly | kernel/src/ext2.rs:1258-1273 | A new name leaves all other entries, kinds and parents alone |
| NamespaceTrees.FileUnlinkedOk | kernel/src/ext2.rs:1327-1336 | One name less keeps them exact; the inode stays without links if it is open, and goes otherwise with its last name |
| NamespaceTrees.FileUnlinkedOnly | kernel/src/ext2.rs:1327-1336 | With one name less, the inode stays exactly when it is open or has another name, and everything else is as it was |
| NamespaceTrees.DirMadeOk | kernel/src/ext2.rs:1286-1305 | A new directory has two links, gives its parent one, and names it in ".." |
| NamespaceTrees.DirMadeOnly | kernel/src/ext2.rs:1286-1305 | A new directory leaves all other entries, kinds and parents alone |
| NamespaceTrees.DirRemovedOk | kernel/src/ext2.rs:1383-1395 | Removing an empty directory takes one link from its parent and keeps the tree |
| NamespaceTrees.DirRemovedOnly | kernel/src/ext2.rs:1383-1395 | Only the directory and its entry go |
| NamespaceTrees.FileMovedOk | kernel/src/ext2.rs:1433-1434 | A file under a new name: nothing else changes |
| NamespaceTrees.DirMovedOk | kernel/src/ext2.rs:1433-1442 | Moving a directory keeps the tree a tree exactly when it does not lie above its new place; link counts follow |
| NamespaceTrees.MovedUnderItself | kernel/src/ext2.rs:1410-1412 | A directory moved below itself would be cut off from the root |
| NamespaceTrees.ClearedKeeps | kernel/src/ext2.rs:1414-1431 | Clearing the new name keeps the tree and touches neither the moving entry nor the directories involved |
| NamespaceTrees.RenameCompletes | kernel/src/ext2.rs:1407-1444 | The move that ends a rename keeps the tree exactly when no directory moves below itself |
| NamespaceTrees.RenamedOnly | kernel/src/ext2.rs:1407-1444 | A renamed inode keeps its kind, a directory has the new parent, what was at the new name goes unless it is a file that is open or has another name, and everything else is as it was |
| Namespaces.Namespace.Create | kernel/src/ext2.rs:1258-1273 | A new file is linked exactly when the name is free, otherwise EEXIST and nothing changes; what a scan of the directories answers, inode and type, follows the tree |
| Namespaces.Namespace.Mkdir | kernel/src/ext2.rs:1286-1306 | A new directory is made exactly when the name is free, and its entry says that it is one |
| Namespaces.Namespace.Rmdir | kernel/src/ext2.rs:1383-1395 | Exactly the empty directories go; each other case has its error and changes nothing |
| Namespaces.Namespace.Link | kernel/src/ext2.rs:1352-1369 | One more link exactly for a file below the largest count under a free name, recorded with the type given; each other case has its error |
| Namespaces.Namespace.Unlink | kernel/src/ext2.rs:1373-1381 | The name of a file goes, its inode with the last one unless it is open |
| Namespaces.Namespace.IsAncestor | kernel/src/ext2.rs:1398-1405 | The loop finds what the climb through lookups of ".." finds, cached answers included, and leaves the cache as those lookups do |
| Namespaces.Namespace.Rename | kernel/src/ext2.rs:1407-1445 | For every state of the cache and any depth: a rename is refused exactly for what the climb through cached answers will find and for the other causes, each with its error and nothing changed; otherwise the entry moves with what was at the new name cleared, and a scan answers at the new name what it answered at the old one, inode and type; and the tree stays a tree exactly unless a directory moves below itself because the climb did not find that |
| Namespaces.Namespace.ClearName | kernel/src/ext2.rs:1414-1431 | A file gives way to a file, an empty directory to a directory, and nothing else does |
| Namespaces.Namespace.Lookup | kernel/src/ext2.rs:915-951 | A name is answered as the tree says, inode and recorded type, and only directories are recorded as such; ".." as the cache or the directory says |
| Namespaces.EmptyVacant | kernel/src/ext2.rs:1062-1069 | A scan finds a directory empty exactly when the tree has no entry in it |
| Namespaces.NameAdded | kernel/src/ext2.rs:956-1001 | Directories and tree agree after a name was added to both |
| Namespaces.NameRemoved | kernel/src/ext2.rs:1023-1058 | And after one was removed from both |
| Namespaces.FoundAgain | kernel/src/ext2.rs:1432-1433 | A moved entry is found under its new name exactly as it was under the old one |
| Namespaces.RefusalMeans | kernel/src/ext2.rs:1407-1431 | Which error a rename gives for which tree: nothing to move, a directory over a file, a file over a directory, a directory over one with entries |
| Climbs.ClimbRight | kernel/src/ext2.rs:1398-1405 | With nothing wrong cached about ".." of the directories on the way up, the climb finds what the directories record |
| Climbs.TrueClimbAbove | kernel/src/ext2.rs:1398-1405 | In a tree the climb through recorded parents meets a directory exactly when it lies above, if the root is less than 256 steps away |
| StaleParents.RightlyForeseen | kernel/src/ext2.rs:1410-1412 | Less than 256 levels deep a rename is refused for moving below itself exactly when it would, if no directory on the way up has a cached ".." other than its real one |
| StaleParents.MisledBySomeone | kernel/src/ext2.rs:1410-1412 | A wrong verdict is always owed to a wrong cached ".." of some directory on the way up |
| StaleParents.RenameBreaks | kernel/src/ext2.rs:1407-1444 | A run of mkdir, lookup, rmdir, mkdir and rename from an empty volume after which two directories lie below each other |
| StaleParents.SlotsApart | kernel/src/ext2.rs:839-845 | The hashes of the names in that run fall into different slots |
| ProcessTable.Join | kernel/src/process.rs:185-290 | A process that enters a space keeps the member count of every owner equal to the live slots that use it |
| ProcessTable.Leave | kernel/src/process.rs:832-848 | A process that leaves keeps the counts, and the page tables it gives back are exactly those of a space nobody uses any more |
| ProcessTable.LastUser | kernel/src/process.rs:832-848 | At one member the leaving slot is the only user, and the owner, if it is another slot, is a zombie |
| ProcessTable.NoUsers | kernel/src/process.rs:24-95 | A free slot has neither users nor a space |
| ProcessTable.LiveRootOpen | kernel/src/process.rs:832-855 | No live process runs on page tables that were given back |
| Rendezvous.PhaseExplained | kernel/src/process.rs:1010-1106 | What a process is waiting for is what the history of sends, receipts, replies and deaths says |
| Rendezvous.ReplyJustified | kernel/src/process.rs:1090-1106 | A reply comes from the process that took the message, and what it took is what was sent to it |
| Rendezvous.OneResult | kernel/src/process.rs:1010-1106 | Between two results of one process there is another send: each send ends at most once |
| Rendezvous.Die | kernel/src/process.rs:641-655 | A dying process leaves only its peers to be released |
| Rendezvous.Release | kernel/src/process.rs:646-655 | A peer of a dead process is released with a failure |
| Rendezvous.Queue | kernel/src/process.rs:1026-1031 | Queueing a message for a process that is not receiving keeps the protocol |
| Rendezvous.Take | kernel/src/process.rs:1049-1059 | The sender of a taken message waits for the reply of the one that took it |
| Rendezvous.Hand | kernel/src/process.rs:1017-1025 | Handing over to a waiting receiver is queueing and taking at once |
| Rendezvous.Answer | kernel/src/process.rs:1090-1106 | A reply from the process that took the message ends the send |
| Rendezvous.Await | kernel/src/process.rs:1064-1076 | With no sender waiting for it a process may wait to receive: nobody is left blocked on a receiver |
| Dispatching.RunsOnce | kernel/src/process.rs:520-561 | A slot is running exactly when it is current on some CPU, and then on one only |
| Dispatching.Closer | kernel/src/process.rs:526-537 | Every dispatch, on whichever CPU, brings a slot that stays ready strictly closer to its turn |
| Dispatching.BoundedWait | kernel/src/process.rs:526-537 | A slot that stays ready is chosen within 256 decisions |
| Dispatching.BoundReached | kernel/src/process.rs:526-537 | The bound is tight: with all slots ready the one just passed waits for all others |
| Processes.Kernel.WakeSleepers | kernel/src/process.rs:479-498 | Each slot is as Processes.AwakeMeans says |
| Processes.AwakeMeans | kernel/src/process.rs:479-498 | A wait ends exactly when it is one that program_timer watches and its time has come, with 0 for a sleep, -2 or -110 by ABI for a futex, -1 for a receive, and no result for other waits; nothing else about the slot changes |
| Processes.Kernel.ProgramTimer | kernel/src/process.rs:503-518 | The interrupt comes at the end of the time slice or of the first timed wait, and not before |
| Processes.NothingDueBefore | kernel/src/process.rs:479-518 | Between a dispatch and the interrupt programmed then no wait comes to its end |
| Processes.Kernel.Schedule | kernel/src/process.rs:565-575 | The current process becomes ready, and the rest is what a dispatch does |
| Processes.Kernel.Wait | kernel/src/process.rs:582-619 | The current process waits as told, and the rest is what a dispatch does |
| Processes.Kernel.Choose | kernel/src/process.rs:526-537 | The nearest ready slot from the round-robin position, and the position moves past it |
| Processes.Kernel.Dispatch | kernel/src/process.rs:520-561 | The CPU runs the slot chosen after waking the sleepers, or idles when none is ready; other CPUs keep theirs |
| Processes.Kernel.DropMm | kernel/src/process.rs:832-848 | The slot leaves its space; its page tables are given back exactly when it was the last user, and an owner others depend on stays a zombie |
| Processes.Kernel.FreeMm | kernel/src/process.rs:850-855 | The page tables are given back, once |
| Processes.Kernel.Release | kernel/src/process.rs:819-827 | A dead slot leaves its space and is free, or a zombie while others use it |
| Processes.Kernel.ReleasePeers | kernel/src/process.rs:646-655 | Exactly those that waited for the dead process are ready with the result -1, their buffers untouched |
| Processes.Kernel.Reap | kernel/src/process.rs:641-673 | A slot ends, with its whole group if it leads one; members that run elsewhere are told to end; everybody who waited for one of the dead and lives on is ready with the result -1, everybody who waits for somebody alive still does, the parent that vfork suspended goes on, and no buffer changes |
| Processes.Kernel.ExitLocked | kernel/src/process.rs:944-967 | The calling process is gone and its CPU runs something else; the same holds for those that live on |
| Processes.Kernel.ExitIfKilled | kernel/src/process.rs:378-386 | A process marked as killed ends at the entry to the kernel, and no other does |
| Processes.Kernel.ExitGroup | kernel/src/process.rs:869-883 | The caller is gone; if its leader runs on another CPU that one is gone or told to end, and otherwise, if it still leads itself, every live member of the group is told to end |
| Processes.Kernel.Kill | kernel/src/process.rs:982-1004 | The process is gone, with the same consequences for the others, or marked when it runs on another CPU; false exactly when no live slot has the pid |
| Processes.Kernel.SlotOf | kernel/src/process.rs:165-169 | The live slot of a pid, none exactly when there is none |
| Processes.Kernel.Install | kernel/src/process.rs:185-217 | A free slot becomes a ready process with a pid never used before |
| Processes.Kernel.Create | kernel/src/process.rs:185-217 | A process with a space of its own; none exactly when no slot is free |
| Processes.Kernel.ThreadCreate | kernel/src/process.rs:219-292 | A process in the caller's group and space, whose owner gains one member |
| Processes.Kernel.Fork | kernel/src/process.rs:1198-1262 | A child with a copied space, or for vfork one that borrows the caller's while the caller is suspended; all others are as a dispatch leaves them; none exactly when no slot is free |
| Processes.Kernel.ExecReplace | kernel/src/process.rs:1268-1312 | The caller gets the new page tables as their only user and the group's other threads end or are told to; refused, without losing its space, only for threads and when others use the space it owns |
| Processes.Kernel.FindSender | kernel/src/process.rs:1036-1045 | The first blocked sender after the receiver's slot, none exactly when nobody waits to send to it |
| Processes.Kernel.IpcSend | kernel/src/process.rs:1010-1033 | The message is handed over, with the sender's slot and pid, or queued, and the caller waits; the others are as a dispatch leaves them; refused exactly for itself and for pids nobody has |
| Processes.Kernel.AcceptFrom | kernel/src/process.rs:1049-1059 | The receiver has exactly the message that was queued and the sender waits for its reply |
| Processes.Kernel.IpcRecv | kernel/src/process.rs:1064-1076 | A queued message is taken at once, exactly when there is one; otherwise the caller waits |
| Processes.Kernel.IpcTryRecv | kernel/src/process.rs:1079-1086 | A queued message is taken, or the result is -1 and nothing else changes |
| Processes.Kernel.IpcReply | kernel/src/process.rs:1090-1106 | The sender is ready with the result 0 and the reply in its buffer, if it gave one, exactly when the caller took its message; otherwise nothing happens |
| TcpEndpoint.OutputWindow | kernel/src/net.rs:403-418 | Sending goes on until the data or the window of the peer is used up, and what is in flight afterwards exceeds neither what it was nor that window |
| TcpEndpoint.OutputCarries | kernel/src/net.rs:403-418 | Each segment carries queued bytes under their own number, no more than the peer takes in one, and the current acknowledgment and window |
| TcpEndpoint.OutputFull | kernel/src/net.rs:403-418 | All segments but the last are as long as the peer takes them, and the last is shorter only when it uses up the data or the window |
| TcpEndpoint.OutputLeaves | kernel/src/net.rs:403-418 | What is in flight grows by what the segments carry; the window announced and the time are recorded exactly when something is sent |
| TcpEndpoint.OutputFollows | kernel/src/net.rs:403-418 | The segments follow each other without a gap from the next number on |
| TcpEndpoint.InputMeans | kernel/src/net.rs:466-514 | A segment takes away exactly the acknowledged bytes if they were in flight, appends exactly what continues the stream and fits, and data is acknowledged at once |
| TcpEndpoint.TimerMeans | kernel/src/net.rs:517-540 | When the time is up the first segment sent starts at the first unacknowledged byte; after the last retry the connection fails; before, nothing happens |
| TcpEndpoint.RecvMeans | kernel/src/net.rs:605-629 | The oldest bytes leave and nothing else changes; the window is announced exactly when it opens from below a quarter to half of the ring |
| TcpEndpoint.SendMeans | kernel/src/net.rs:588-603 | A prefix of the data is queued, short of all of it only when the buffer is full |
| TcpEndpoint.WindowLargest | kernel/src/net.rs:384 | The window announced is the largest that 16 bits and the free room allow |
| TcpEndpoint.BackoffDoubles | kernel/src/net.rs:522 | The wait for an acknowledgment starts at 400 ms and doubles with each retry, four times |
| TcpEndpoint.OutputKeeps | kernel/src/net.rs:403-418 | Sending changes nothing that was received or acknowledged |
| TcpLink.AckMeans | kernel/src/net.rs:467-479 | An acknowledgment that is not too old is taken for the position it stands for |
| TcpLink.DataMeans | kernel/src/net.rs:481-501 | Data that is not too old is accepted exactly as far as it continues the stream: all of what lies past the bytes received, if it joins them, and nothing otherwise |
| TcpLink.HalfTheSpace | kernel/src/net.rs:466-501 | Segments less than half the sequence space old are not too old |
| TcpLink.EdgeMoves | kernel/src/net.rs:370-401 | Whatever the step, the right edge of the receive window does not move left |
| TcpLink.StepKeeps | kernel/src/net.rs:403-628 | Every step of either endpoint or the network keeps all that is known about both directions |
| TcpLink.Established | kernel/src/net.rs:420-465 | Right after the handshake the invariant holds |
| TcpLink.RunKeeps | kernel/src/net.rs:403-628 | So does every run, and streams only grow |
| TcpLink.Safety | kernel/src/net.rs:403-628 | At every moment of every run the reader has a prefix of what the writer queued, every byte dropped from the send buffer as acknowledged was received, and announced right edges never move left |
| TcpLink.Monotone | kernel/src/net.rs:588-628 | What was delivered stays delivered |
| TcpLink.Sents | kernel/src/net.rs:370-401 | Every segment a step sends goes onto the network, once, and stands for the positions its numbers mean |
| TcpLink.CanRecover | kernel/src/net.rs:517-539 | When bytes are in flight and the time is up, a round trip of a segment sent again and its answer is possible in every state |
| TcpLink.Recovers | kernel/src/net.rs:466-539 | After it the peer has what it lacked of the segment, as far as it fits, and the sender knows how far the peer has come, exactly if that is no more than what was sent again: an acknowledgment of more is ignored |
| TcpLink.TooOld | kernel/src/net.rs:481-501 | The age bound is exact: data a whole sequence space old is taken for new, and is harmless exactly when it happens to equal what was to come |
| TcpConnection.Tcp.TcpOutput | kernel/src/net.rs:403-418 | The loop over the record and its buffer sends the segments that the endpoint's output consists of: each of at most the peer's segment size, and shorter only as the last one, when data or window is used up |
| TcpConnection.Tcp.TakeAck | kernel/src/net.rs:467-479 | Shifting the send buffer down is dropping the acknowledged bytes |
| TcpConnection.Tcp.TakeData | kernel/src/net.rs:481-501 | The bytes written around the ring are the accepted data, appended |
| TcpConnection.Tcp.TcpInput | kernel/src/net.rs:466-514 | One segment, on the record, is one input of the endpoint |
| TcpConnection.Tcp.TcpTimer | kernel/src/net.rs:517-540 | One timer turn, on the record, is one of the endpoint |
| TcpConnection.Tcp.TcpSend | kernel/src/net.rs:588-603 | The bytes that fit are queued, and their number returned; -1 exactly after an error |
| TcpConnection.Tcp.TcpRecv | kernel/src/net.rs:605-629 | The oldest bytes go to the caller's buffer in order; -2 when there are none, -1 when there never will be |
| WaitConditions.OpAnnounces | kernel/src/file.rs:446-487 | Every operation signals the key of every condition it makes true |
| WaitConditions.KeysApart | kernel/src/unix.rs:77-78 | Different objects, and the two ends of one, have different keys |
| WaitConditions.SectionAnnounces | kernel/src/file.rs:403-420 | So does a whole section of operations under one lock |
| WaitConditions.BlockedWriterUnheard | kernel/src/unix.rs:184-187 | A writer blocked on a full connection sleeps on a key that the read which makes room does not signal |
| Wakeups.Bump | kernel/src/process.rs:1331-1334 | A signal counts in its bucket and in the poll counter |
| Wakeups.BumpOnly | kernel/src/process.rs:1331-1334 | No other bucket counts |
| Wakeups.BumpCounts | kernel/src/process.rs:1330-1351 | A signal that a sleeper hears changes the count it looks at, and no signal takes it back |
| Wakeups.SumExact | kernel/src/process.rs:1341-1351 | The count for a mask moves exactly with the counters of its buckets |
| Wakeups.SectionKeeps | kernel/src/file.rs:147-165 | What a section makes true is seen by deciders as a changed count and queued for sleepers |
| Wakeups.SleepKeeps | kernel/src/process.rs:1360-1389 | An unchanged count means that nothing came true since the decision, so going to sleep loses nothing |
| Wakeups.TakeKeeps | kernel/src/file.rs:158-165 | Keys taken from the queue stay due until they are fired |
| Wakeups.FireKeeps | kernel/src/process.rs:1393-1409 | Firing a key leaves nobody asleep who hears it |
| Wakeups.StepKeeps | kernel/src/process.rs:1316-1409 | Every step of every interleaving keeps the property |
| Wakeups.RunKeeps | kernel/src/process.rs:1316-1409 | In every interleaving in which the queue never overflows, a sleeper whose condition is true has its key in the queue or in a list some CPU has taken and not fired; what a sleeper waits for stays the same here |
| Wakeups.QuietSleepersWait | kernel/src/file.rs:137-179 | With no signal queued or taken every sleeper is right to sleep |
| Wakeups.QueuedOrLost | kernel/src/file.rs:147-155 | A key pushed is due afterwards exactly when it was due before or the queue had room |
| Wakeups.LostWhenFull | kernel/src/file.rs:147-155 | With 64 other keys queued a wakeup can indeed be lost |
| Wakeups.PollMask | kernel/src/file.rs:1747-1785 | The mask that poll sleeps on hears every key that can make one of its descriptors ready, and is made of the buckets of its descriptors only |
| EpollSleepers.EpollScan | kernel/src/file.rs:1838-1875 | The items reported are the first that are ready and switched on, in order, up to the number asked for; of these exactly the one-shot ones are switched off; a scan that reports nothing listens to the buckets of the items that are switched on |
| EpollSleepers.EpollCtl | kernel/src/file.rs:1811-1833 | Which set each operation leaves, and its errors |
| EpollSleepers.ScanHears | kernel/src/file.rs:1853-1854 | What a scan listens to hears everything its armed items wait for |
| EpollSleepers.ScanMaskItem | kernel/src/file.rs:1853-1854 | And it listens to no bucket but theirs |
| EpollSleepers.WaitKeeps | kernel/src/file.rs:1838-1875 | Going to wait on a set after a scan that found nothing keeps the property |
| EpollSleepers.GainExactly | kernel/src/file.rs:1822-1829 | Adding an item to a set, or arming one again, loses no wakeup exactly when everybody who waits on the set listens to what the item wants and, if that holds already, has its signal on the way |
| EpollSleepers.QuietGain | kernel/src/file.rs:1822-1829 | With no signal on the way: exactly when the item is not ready and its keys lie in the masks of all sleepers on the set |
| EpollSleepers.LossKeeps | kernel/src/file.rs:1828 | Removing items or switching them off loses no wakeup |
| EpollSleepers.EpollRunKeeps | kernel/src/file.rs:1811-1875 | In every interleaving that never fills the queue and changes sets safely in that sense, no wakeup is lost, epoll sleepers included |
| EpollSleepers.RearmLost | kernel/src/file.rs:1829 | Arming a one-shot item again while it is ready leaves a sleeper on the set asleep with nothing due |
| EpollSleepers.RearmUnheard | kernel/src/process.rs:1399-1409 | If it becomes ready later, its signal passes the sleeper by |
| Wakeups.Waker.PushWake | kernel/src/file.rs:147-155 | push_wake on the array is the push of the model |
| Wakeups.Waker.TakeWakes | kernel/src/file.rs:158-165 | The keys taken are those queued, in order, and the queue is empty |
| Wakeups.Waker.FlushWakes | kernel/src/file.rs:168-172 | Everything queued is fired: nobody stays asleep who hears one of the keys, and nobody else is woken |
| Wakeups.Waker.IoWake | kernel/src/process.rs:1393-1409 | Exactly those who sleep and hear the key wake |
| Wakeups.Waker.IoSeqMask | kernel/src/process.rs:1341-1351 | The counters of the mask added up; an empty mask means the counter of all polls |
| Wakeups.Waker.IoWait | kernel/src/process.rs:1360-1389 | The caller sleeps exactly when nothing it hears was signalled since its decision and no signal is pending for it |
| ByteRings.Ring.CopyOut | kernel/src/unix.rs:160-166 | Chunks that stop at the end of the ring copy its oldest bytes in order |
| ByteRings.Ring.CopyIn | kernel/src/unix.rs:196-202 | Chunks that stop at the end of the ring append the bytes in order |
| ByteRings.Ring.Consume | kernel/src/unix.rs:167-169 | The oldest bytes leave, the others stay in order |
| LocalStreams.WriteTracks | kernel/src/unix.rs:176-211 | A message of at least one byte keeps the queue in step with all that was sent |
| LocalStreams.StreamRead | kernel/src/unix.rs:130-172 | A stream read returns the next bytes in order, with the descriptors attached to the first of them, and passes no other attachment |
| LocalStreams.StreamStops | kernel/src/unix.rs:153-157 | It stops only at the length asked for, at the end of what there is, or at the next attachment |
| LocalStreams.PacketRead | kernel/src/unix.rs:130-172 | A packet read returns the next message, cut to the buffer, flagged exactly when it was longer, the rest discarded, with all its descriptors |
| LocalStreams.HandedOn | kernel/src/unix.rs:141-148 | Each attachment is handed over once, by the read that takes the first byte of its message, and those behind wait |
| LocalStreams.JamStays | kernel/src/unix.rs:141-148 | Once an attachment has been passed, no later read hands over any |
| LocalStreams.EmptyMessageJams | kernel/src/unix.rs:188-210 | Descriptors sent with no bytes do that, exactly when the read that hands them over takes a byte of the next message |
| LocalChannels.Pipe.Read | kernel/src/file.rs:447-466 | The oldest bytes, in order, and the writers' key is signalled, as the model of waiting has it; empty pipes give end of file, EAGAIN or a wait |
| LocalChannels.Pipe.Write | kernel/src/file.rs:468-487 | What fits is appended in order and the readers' key is signalled, as the model of waiting has it; EPIPE, EAGAIN or a wait otherwise |
| LocalChannels.Pipe.DropEnd | kernel/src/file.rs:199-210 | One end less, which the other side is told, as the model of waiting has it; with the last end the pipe is blank |
| LocalChannels.Queue.Read | kernel/src/unix.rs:130-172 | The ring, sizes and attachments after a read are those of the model, and the queue is what the model of waiting says; the buffer has the bytes, and the sizes held stay those of the bytes held |
| LocalChannels.Queue.Write | kernel/src/unix.rs:176-211 | The ring, sizes and attachments after a write are those of the model; as many bytes are taken as fit, or a whole packet; each refusal has its cause and changes nothing |
| LocalChannels.Queue.Share | kernel/src/unix.rs:149-159 | How much a read takes: one whole message, or up to the next attachment |
| LocalChannels.Queue.TakeFiles | kernel/src/unix.rs:141-148 | The descriptors handed over are those attached to the next byte |
| FrameAllocator.Frames.AllocFrame | kernel/src/frame_allocator.rs:95-110 | A frame that was free, and no other, is used once; none only when no frame is free |
| FrameAllocator.BitsEnough | kernel/src/frame_allocator.rs:11 | The bitmap is whole words and less than one word longer than there are frames |
| FrameAllocator.Frames.FirstClear | kernel/src/frame_allocator.rs:99-105 | The lowest clear bit of a word, none when it is full |
| FrameAllocator.Frames.FreeIdx | kernel/src/frame_allocator.rs:113-129 | One reference less, and with the last one the frame is free |
| FrameAllocator.Frames.FreeFrame | kernel/src/frame_allocator.rs:131-138 | Exactly the frame at that address loses a reference; other addresses change nothing |
| FrameAllocator.Frames.IncRef | kernel/src/frame_allocator.rs:74-83 | Exactly the frame at that address gains a reference, up to 65535, and the bookkeeping stays right exactly when that frame was in use |
| FrameAllocator.Frames.AllocContig | kernel/src/frame_allocator.rs:149-173 | For two frames or more, the lowest free run of that length, all its frames used once; none only when no such run exists |
| FrameAllocator.Frames.FindRun | kernel/src/frame_allocator.rs:152-168 | Skipping full words misses no free run |
| FrameAllocator.Frames.FreeContig | kernel/src/frame_allocator.rs:176-186 | Exactly the frames of the run lose a reference |
| ReferenceBags.EntryChanges | kernel/src/file.rs:182-250 | Changing one descriptor changes what all tables name by exactly the two entries |
| ReferenceBags.QueuePush | kernel/src/unix.rs:176-211 | A message with descriptors adds them to what is in flight |
| Descriptors.ConnEmptied | kernel/src/unix.rs:104-123 | Emptying both queues of a closed connection puts what was in flight into the closer's hands |
| Descriptors.Files.DropRef | kernel/src/file.rs:199-250 | One reference is given up; storage goes exactly with the last, and then the references it held, however deep; the counts stay exact |
| Descriptors.Files.AddRef | kernel/src/file.rs:182-196 | One more reference, for something that has some |
| Descriptors.Files.Install | kernel/src/file.rs:535-544 | The lowest free descriptor from the minimum on; EMFILE exactly when there is none |
| Descriptors.Files.Close | kernel/src/file.rs:630-637 | The descriptor is free and its reference given up; EBADF exactly when it was not open |
| Descriptors.Files.Dup | kernel/src/file.rs:644-662 | The copy, with the close-on-exec mark asked for, goes to the lowest free descriptor, or replaces the one asked for; when it fails is characterised exactly, and nothing changes then |
| Descriptors.Files.CloneTable | kernel/src/file.rs:504-509 | The child's table is a copy, and every object gains as many references as it has entries there |
| Descriptors.Files.Release | kernel/src/file.rs:495-501 | Everything the process named is given up, and its table has the three console descriptors again |
| Descriptors.Files.ExecCleanup | kernel/src/file.rs:512-521 | Exactly the descriptors marked close-on-exec are closed |
| Descriptors.Files.NewObject | kernel/src/file.rs:1200-1208 | A new object with one descriptor; with no free descriptor it is given up again |
| Descriptors.Files.NewPair | kernel/src/file.rs:1304-1321 | Two new ends with two descriptors; with fewer than two free both are given up |
| Descriptors.Files.Listen | kernel/src/file.rs:1664-1684 | An unconnected socket turns into the listener, a listener stays one, and anything else, or a socket without a free address and slot, is refused unchanged |
| Descriptors.Files.Connect | kernel/src/file.rs:1466-1487 | The client end takes the place of the socket and the server end waits in the backlog; refused, unchanged, exactly without a socket, a listener at the address, room in its backlog or a free connection |
| Descriptors.Files.Accept | kernel/src/file.rs:1369-1379 | The connection that waited longest gets a descriptor; with none free it is given up |
| Descriptors.Files.Send | kernel/src/file.rs:1391-1408 | Each descriptor sent gains a reference that travels with the message; a refused message leaves all counts as they were |
| Descriptors.ObjectsEach | kernel/src/file.rs:1391-1408 | The message carries the object of each descriptor, in order |
| Descriptors.Files.Receive | kernel/src/file.rs:1411-1427 | The descriptors of the message leave the queue and are installed in order as long as there is room, the others are given up |
| Descriptors.Files.Discard | kernel/src/file.rs:1381-1388 | A plain read gives up the descriptors attached |
| PageMemory.CopyInto | kernel/src/exec.rs:102-134 | The pages of the range hold the data over what was there, zeros where nothing was, with the protection given or widened on shared pages; it fails exactly when frames run out |
| Executables.MapElf | kernel/src/exec.rs:138-188 | Loading an ELF is the fold over its headers, whose meaning at any base is ElfSegments and Relocations |
| Executables.LoadPulse | kernel/src/exec.rs:304-333 | Loading a .pulse v3 is the fold over its table |
| Executables.Convert | tools/elf2pulse.py:35-81 | The output is header, table and bytes as laid out, and an error exactly where the script raises one |
| LoadPieces.AddAllHolds | kernel/src/exec.rs:102-131 | Pieces that share no page, loaded one after the other, all hold at the end: their bytes, zeros after them, their protection |
| LoadPieces.CopiedBytes | kernel/src/exec.rs:102-134 | On any memory: the bytes of the piece are at their addresses, and every other byte is what it was, or zero on a new page |
| LoadPieces.CopiedProt | kernel/src/exec.rs:106-112 | A new page gets the protection of the piece; a shared one is readable and writable, and executable if the later piece is |
| LoadPieces.NewCounts | kernel/src/exec.rs:113-121 | The frames taken are as many as pages were missing |
| LoadPieces.AddAllRanges | kernel/src/exec.rs:82-90 | The smallest page ranges around the first 24 pieces are recorded, in order |
| LoadPieces.TwinHolds | tools/elf2pulse.py:57-62 | A piece moved back to the start of its page holds everything the piece itself would |
| LoadPieces.AddAllTwins | kernel/src/exec.rs:102-131 | Moved pieces load exactly when the originals do, onto the same pages, with the same ranges |
| ElfSegments.LoadSucceeds | kernel/src/exec.rs:138-188 | Loading succeeds exactly when the file's header is right, every path of an interpreter and every segment is in the file and every segment at its base in the user's addresses, and the frames suffice |
| ElfSegments.LoadedProgram | kernel/src/exec.rs:138-188 | At any base: each segment's bytes at its address plus the base, zeros after them, and its protection |
| ElfSegments.EntryByte | kernel/src/exec.rs:187 | The program starts at the byte that the file has at its entry, and the entry keeps its distance to every segment |
| ElfSegments.PhdrBytes | kernel/src/exec.rs:181-186 | The program headers that the process is told of are the file's, byte for byte, when the first loaded segment holds them |
| ElfSegments.PhdrGiven | kernel/src/exec.rs:161 | Or they are where the last PT_PHDR says, plus the base |
| ElfSegments.ProtBits | kernel/src/exec.rs:175-177 | Readable, writable and executable are taken from the right bits |
| ElfSegments.PhdrRead | kernel/src/exec.rs:151-167 | A program header laid out as the ELF format has it is read back |
| ElfSegments.EhdrRead | kernel/src/exec.rs:139-150 | So is the file header, and which ones are accepted |
| Relocations.AddAllMoved | kernel/src/exec.rs:102-134 | Pieces moved by whole pages load exactly when the originals do, and pages, ranges and frames are the same, moved |
| Relocations.Relocated | kernel/src/exec.rs:149-187 | A position-independent program loaded at two bases: both succeed or neither, and pages, ranges, entry and the address of the program headers differ by exactly the distance of the bases |
| PulseConversion.GatherLoads | tools/elf2pulse.py:50-67 | The script's loop collects the segments the loader would load, and the same address for the program headers |
| PulseConversion.SegTwin | tools/elf2pulse.py:57-62 | For a segment whose place in the file agrees with its address within the page, the bytes cut out are the segment's, from its page on |
| PulseConversion.TotalBound | tools/elf2pulse.py:69-80 | Segments that share no page fit the 32-bit positions of the table |
| PulseConversion.SegRead | kernel/src/exec.rs:318-320 | A table entry is read back as written |
| PulseConversion.HeaderFront | kernel/src/exec.rs:305-310 | Magic, version, count, entry and table position are read back as written |
| PulseConversion.ScanTable | kernel/src/exec.rs:316-328 | Reading the table and the bytes behind it loads the segments that were written |
| PulseConversion.MeaningKept | tools/elf2pulse.py:35-81 | For a static fixed-address program whose segments are congruent and share no page, the converted file loads exactly when the ELF does, with the same entry, program headers, pages, ranges and frames, and both hold each segment's bytes, zeros after them and its protection |

## Preconditions that come from the callers

- AddressSpaces.Vm.MmapFull: a shared object must be held by a descriptor or a name, or be new, as
  the three system calls that reach it ensure; otherwise replacing its last mapping would free it.
- Directories.Volume.DirAdd: the name is not in the directory, as every caller in ext2.rs has just looked up.
- Namespaces.Namespace: names are those parent_of lets through, 1 to 255 bytes and neither "." nor ".."
  (kernel/src/ext2.rs:1231-1232).
- Namespaces.Namespace.Create and Link: the type recorded is not a directory's, as in every caller
  (kernel/src/ext2.rs:1268, kernel/src/ext2.rs:1282, kernel/src/ext2.rs:1321, kernel/src/ext2.rs:1361-1366).
- CachedAllocation.Blocks.Bget and Prefetch: the blocks are in use, as those of files and tables are.

## Left out

Weaker than the code or the full promise:

- Namespaces.Namespace.Rename: reading and writing never fail at this layer and a block can always be had when a directory needs one, so an operation that stops half way is not covered.
- Wakeups.RunKeeps: the 64-bit event counters do not wrap, and the pending queue does not overflow; blocking local-connection writers are not among the sleepers (see above), nor are network sockets, which are polled on a timer.
- EpollSleepers.EpollRunKeeps: what a descriptor number refers to does not change while somebody sleeps on it, and sets do not contain sets; items that are always ready, whose edge-triggered report comes once, are left out.
- Processes.Kernel.ExitGroup: that a live process's leader leads itself is not part of the invariant: after the leader's slot was given to another group, a member that has been told to end may still be running.
- RegularFiles.Files.ReadAllPhys: the device is a parameter; that it equals the disk the cache presents after a successful flush is `BlockCache.Cache.Flush`.
- TcpLink.Safety: about established connections; set-up, close, resets and liveness are not modelled.
- RegularFiles.Files.Write: I/O errors do not occur at this layer, where the disk is the logical disk that the cache presents; goal groups are parameters and times are not kept.
- RegularFiles.Files.Read: the read-ahead it triggers is `BlockCache.Cache.Prefetch`, which is invisible, and is not called here.
- Ext2Files.Ext2.BmapAlloc: sector counts stay below 2^32, as on any volume of that format.
- Processes.Kernel.Wake: signals, futexes, exits of children and I/O events wake an arbitrary set of the slots that wait for them; which ones is the subject of `Wakeups`.
- Descriptors.Files.Send: whether the message fits is a parameter, as is the reason it does not.
- Descriptors.Files.Receive: descriptors of files and devices, which are not counted, are not followed inside messages.
- PageFaults.FaultEnd: a frame that cannot be had or mapped ends the fault early in the code; here all pages read are there.
- Descriptors.Files.Connect: only connections to local listeners; a remote TCP connection leaves the descriptor as it is.
- Directories.Volume.Lookup: directory blocks are exact tilings, which every operation keeps; a volume damaged on the device, which the code answers with EIO, is not modelled.
- DirListings.Readdir: a position is a block and an offset in it, not one number.
- Executables.MapElf: addresses and offsets near 2^64 do not wrap; page-table frames are not counted.
- PulseConversion.MeaningKept: bytes outside the segments' own ranges may differ: the converted file also fills the start of a segment's first page from the file.
- FrameAllocator.Frames.IncRef: past 65535 references the count no longer tells how many there are, as in the code.

Not modelled:

- Page tables, copy-on-write and running out of frames during a fault, and the contents of shared objects (page index, resizing, reading and writing).
- Named shared memory opened through paths, memory files, descriptor flags and offsets, and the open-but-unlinked list.
- Path resolution, symbolic links, inode allocation, the inode cache, timestamps and the superblock.
- A directory that has been removed while somebody still uses it, and the overflow of its parent's 16-bit link count.
- The ring of exit statuses, alarms, signal frames, floating-point state, inter-processor interrupts, and load accounting.
- Address keys of local sockets: the result of looking one up is a parameter.
- ARP, UDP, checksums and header encoding, and the TCP handshake beyond the state it leaves.
- Loading an ELF interpreter from a second file, the initial stack, and the native .pulse formats: they add further uses of the same copying loop.
- Device drivers, trap entry, boot, the Linux system-call tables, `/proc` text and the other file systems: hardware, tables and formatting.
