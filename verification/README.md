# A verified model of the storage, heap and loader code of a small RP2040 system

The repository boots an RP2040, mounts a FAT32 volume on an SD card, keeps a heap, and loads ELF programs from
the card into memory. This project models that pipeline in Dafny and proves it:

- **Heap** (`HeapBlocks`, `HeapMemory`, `HeapBytes`, `HeapHarm`, `HeapLinks`, `HeapWhole`, `Heap`, `HeapRuns`,
  `HeapProgram`, `HeapStray`, `HeapWreck`): the allocator works in place on headers stored inside the memory it hands out. It is proved to do to
  those headers exactly what functions on a list of blocks do, and the laws are proved about the functions and about
  whole runs. The flag `relinks` of class `Heap` selects the split: `false` is `splitMemorySpace` as written, `true`
  also re-points the `prev` field of the block behind the leftover. Operations and runs are proved for either split;
  where the split as written loses a property, the exact condition and a run that shows it are given.
- **FAT32** (`Disk`, `FatVolume`, `FatGeometry`, `FatTable`, `FatHandle`, `FatFile`, `FatNames`, `FatRecords`,
  `FatNameReading`, `FatNameWriting`, `FatLongNames`, `FatDir`, `FatListing`, `FatPath`, `FatTree`, `FatMount`,
  `FatFormat`, `FatStored`, `FatSession`): three cursors
  over linked structures on disk, each proved to refine something flat. A file handle refines a position in a byte string,
  the directory iterator refines a scan over a list of records, the path walker refines a lookup in a tree. The table of
  open files refines a machine of sixteen independent slots, whether reads fail or not. The on-disk formats are
  written out field by field, in the order of the specification, and what the code reads is proved to be what was
  written: partition table, boot sector, table entries, directory records with and without long names.
- **Boot checksum** (`Crc32*`): the table-driven loop computes a long division of polynomials over GF(2), and what follows
  for error detection.
- **Loader** (`Memory`, `ElfImage`, `Elf`, `ElfLoader`, `ElfFormat`): on top of heap and FAT32, over one memory.
- **SD blocks and number printers** (`SdBlock`, `HexUtils`).

Memory is `array<byte>`, indexed by address. 32-, 16- and 8-bit wrap-around is written out wherever the source
computes in those widths. A card may refuse any read unless it is marked reliable; the SD commands around a block read
are a parameter of the model in that form. A ghost argument or field names the cluster chain of a file or
directory; the code only follows the table.

What the FAT32 code relies on without checking is a precondition here (`FatVolume.Consistent`, `FatVolume.Chain`,
`FatHandle.FileOk`, `FatPath.Walkable`): sectors of 512 bytes, a layout that fits the card, chains that end in an
end mark, files no longer than their chains. `FatTable.BpbConsistent` derives the layout part from the numbers in
the boot sector.

Where the code does not do what is expected of it:

- `splitMemorySpace` does not re-point the old successor's `prev`. For the code as written that has these consequences:
  - A heap stays whole (`next` and `prev` inverse, no two free neighbours) over a run if and only if no call of it splits
    a block that has a live block behind it (`HeapRuns.WholeRun`). `HeapStray.BackLinkRun` runs six calls that leave two
    adjacent free blocks although everything has been freed, `HeapStray.ReallocRun` four calls that end in a `realloc`
    and do the same. `HeapBlocks.StaleBackLink` says when a lost link matters to a `free`, `Heap.Heap.FreeValid` that
    freeing the very block whose allocation lost the link repairs it. The loader does just that, so its theorem holds
    for the source as written.
  - The headers keep describing a tiling of the heap, and live payloads stay untouched, as long as every `free` of the
    run goes through a `prev` field that is null or names a block (`HeapRuns.RunKeeps`, `HeapProgram.Execute`). That is
    so when no call merges away a block that a lost link still names (`HeapRuns.OrphansNoneFrees`), and over a run all
    `prev` fields name blocks if and only if no call does (`HeapRuns.NamedRun`).
  - A `free` through a `prev` field that names no block takes whatever bytes lie there for a header. The headers survive
    it if and only if the words that its merge then stores leave each of them as it was (`HeapHarm.FreeAstray`).
    `HeapStray.StrayRun` runs eleven calls, the last of which writes eight bytes of a live payload in this way;
    `HeapWreck.WreckRun` twelve, the last of which overwrites the next field of a live block's header, so that no list of
    blocks is what memory holds.
- `realloc` of more than 2^32 - 4 bytes rounds its request to zero but copies as much as the old block holds. Where the
  first free block can be split, the copy goes over the header behind the new, empty block unless the old one is empty
  too (`HeapLinks.HugeCopies`, and `HeapLinks.HugeRealloc` for an input); `HeapLinks.CopyFitsWhen` has the exact condition.
- `min` of the FAT32 reader is signed: a read takes the right first chunk if and only if count and rest of the file are
  below 2^31 (`FatHandle.ReadCondition`). For a count and a rest of exactly 2^31 nothing is read and 2^31 bytes are
  counted as read (`FatHandle.TooLong`).
- A failed table lookup at the end of a cluster leaves a stranded handle (`FatHandle.Stranded`). A later read delivers
  the first sector of the physically next cluster, whatever the chain says, and then stands at the start of the chain's
  next cluster with a position that is too far ahead (`FatFile.Driver.StrandedPass`). After every other failure the
  handle is good, and the next read goes on at the right byte.
- After a failed sector read the directory iterator goes through its old buffer again, and then on behind the sector
  that could not be read (`FatDir.DirIterator.RetryRereads`, `FatDir.DirIterator.RetrySkips`).
- The name assembly reads beyond its twenty part buffers when more parts than that are counted and the checksum matches.
  That takes more than twenty long-name records before the short one (`FatListing.PartsInBounds`), as only a damaged
  directory has them; n of them that are all flagged last and numbered 1 are counted, up to the eight bits of the counter
  (`FatListing.PartsOutOfBounds`).
- A mount that fails on the boot sector has already overwritten two fields of the old volume (`FatMount.Mount`).
- The count of bytes to drain in a partial block read wraps around when the request leaves the block
  (`SdBlock.DrainsBlock`).
- `read_le32` cuts its offset to 16 bits, so the loader sees a program header in its place if and only if its last field
  starts below 65536 (`ElfImage.FieldsReached`); one at 65536 is never loaded (`ElfImage.HeaderAt65536`).
- `ALIGN_4BYTE` wraps to zero for requests above 2^32 - 4 (`HeapBlocks.Align4Covers`).

## Model

| member | source | states |
|---|---|---|
| HeapBlocks.Align4Covers | libc/src/stdlib/heap.c:16 | rounding up covers the request if and only if it is at most 2^32 - 4; above, it gives 0 |
| HeapBlocks.FootprintConserved | libc/src/stdlib/heap.c:47-78 | headers and payloads of all blocks together always make up the whole region |
| HeapBlocks.MallocKeeps | libc/src/stdlib/heap.c:92-102 | malloc keeps the invariant (tiling, alignment, no two free neighbours) and adds exactly one live block, at the first fit |
| HeapBlocks.MallocGrants | libc/src/stdlib/heap.c:33-45 | for requests up to 2^32 - 4: a payload that is 4-aligned, of at least n and at most n + 23 bytes, in the lowest block that fits |
| HeapBlocks.MallocRefuses | libc/src/stdlib/heap.c:33-45 | malloc finds nothing if and only if every free block is too small |
| HeapBlocks.FreeKeeps | libc/src/stdlib/heap.c:125-137 | free keeps the invariant and removes exactly the one live block |
| HeapBlocks.FreeShape | libc/src/stdlib/heap.c:125-137 | free replaces the block and its free neighbours by one free block that covers them all, and nothing else |
| HeapBlocks.StaleBackLink | libc/src/stdlib/heap.c:133-136 | a back link that does not name the block in front leaves two free neighbours if and only if that block is free |
| HeapBlocks.FreeUndoesMalloc | libc/src/stdlib/heap.c:92-137 | free(malloc(n)) gives back the block list exactly |
| HeapBlocks.FreeAllRestores | libc/src/stdlib/heap.c:125-137 | freeing all live blocks in any order leaves the single initial block |
| HeapBlocks.ReallocKeeps | libc/src/stdlib/heap.c:104-123 | realloc keeps the invariant and replaces exactly the old live block by the new one |
| HeapMemory.MergeHolds | libc/src/stdlib/heap.c:47-60 | the header writes of a merge keep next, size and prev right, whatever prev the absorbed block had |
| HeapMemory.CutHolds | libc/src/stdlib/heap.c:62-73 | the header writes of a split keep next and size right, and prev if and only if the back link is repaired or there is no block behind |
| HeapMemory.SplitHolds | libc/src/stdlib/heap.c:62-78 | the same for the split with the merge of its leftover: prev is right if and only if repaired, or no split, or no live block behind |
| HeapMemory.SplitMends | libc/src/stdlib/heap.c:62-78 | a link lost by a split is that of the block behind the free leftover |
| HeapMemory.MergeMends | libc/src/stdlib/heap.c:47-60 | merging the block with its leftover sets that link right |
| HeapMemory.PayloadWrite | libc/src/stdlib/heap.c:101 | a client that writes inside its block changes no header and no other payload |
| HeapBytes.MergeBytesView | libc/src/stdlib/heap.c:47-60 | the bytes that the merge writes are the headers of the merged list, and no live payload changes |
| HeapBytes.FreeBytesView | libc/src/stdlib/heap.c:125-137 | the bytes that free writes are the headers of the freed list if the block's prev field is null or names a block; no other live payload changes |
| HeapHarm.FreeAstray | libc/src/stdlib/heap.c:131-136 | through a prev field that names no block: memory reads as the list with the block released if and only if the bytes there do not read as a free header with a free one next, or the words the merge then stores leave every header as it was |
| HeapHarm.MissesSpares | libc/src/stdlib/heap.c:47-60 | in particular when those words miss every header |
| HeapHarm.AstrayKeeps | libc/src/stdlib/heap.c:131-136 | such a free leaves every other live payload that the words miss |
| HeapLinks.MallocBackUp | libc/src/stdlib/heap.c:62-102 | malloc keeps every prev field null or naming a block in front if and only if its split merges away no block that a lost link names |
| HeapLinks.FreeBackUp | libc/src/stdlib/heap.c:125-137 | free keeps that if and only if neither of its merges does |
| HeapLinks.CopyFitsWhen | libc/src/stdlib/heap.c:110-117 | the copy of realloc stays in the new block for every request up to 2^32 - 4; above, if and only if the old block is no larger than the new one |
| HeapLinks.HugeCopies | libc/src/stdlib/heap.c:104-123 | above, where the first free block can be split, the new block is empty with a header right behind it, and the copy fits if and only if the old block is empty |
| HeapLinks.HugeRealloc | libc/src/stdlib/heap.c:104-123 | an input: realloc of a 100-byte block to 2^32 - 3 bytes copies over the header of the rest |
| HeapWhole.MallocWhole | libc/src/stdlib/heap.c:62-102 | malloc keeps the full invariant if and only if the split is repaired or no live block lies behind the one it splits |
| HeapWhole.FreeWhole | libc/src/stdlib/heap.c:125-137 | free keeps the full invariant, with either split |
| HeapWhole.ReallocWhole | libc/src/stdlib/heap.c:104-123 | realloc keeps the full invariant if and only if its malloc does; the free in it never mends the lost link |
| HeapWhole.ReallocNamed | libc/src/stdlib/heap.c:104-123 | the free inside realloc goes through a block when every prev field names one and the malloc makes no orphan |
| Heap.Heap.constructor | libc/src/stdlib/heap.c:84-90 | init_malloc sets up one free block over the aligned region and touches nothing outside |
| Heap.Heap.FindFreeSpace | libc/src/stdlib/heap.c:33-45 | the walk along the next fields returns the first fit, or null |
| Heap.Heap.MergeNextMemorySpace | libc/src/stdlib/heap.c:47-60 | in place, exactly the loads and stores of the merge, on whatever bytes are within reach, a list's headers or not, overlapping or not |
| Heap.Heap.MergeInList | libc/src/stdlib/heap.c:47-60 | on a block of the list, the merge of the list; no live payload changes |
| Heap.Heap.SplitMemorySpace | libc/src/stdlib/heap.c:62-78 | in place, exactly the split of the list, with the headers it leaves; no live payload changes |
| Heap.Heap.Malloc | libc/src/stdlib/heap.c:92-102 | in place, exactly the malloc of the list; the back links stay right if and only if the split is repaired or loses none; no live payload changes |
| Heap.Heap.Free | libc/src/stdlib/heap.c:125-137 | in place, exactly the writes of free, whatever the prev field holds; when it is null or names a block, the free of the list, and no other live payload changes; when it names none, the heap is sound afterwards if and only if the stray merge spares the headers |
| Heap.Heap.FreeValid | libc/src/stdlib/heap.c:125-137 | free keeps the full invariant with either split, and restores it if the only wrong link is one that this block's own malloc lost |
| Heap.Heap.Realloc | libc/src/stdlib/heap.c:104-123 | with either split: the first min(old size, new size) bytes carry over, other blocks keep theirs, and when it returns NULL nothing has changed; a whole heap stays whole if and only if the split is repaired or loses no back link |
| Heap.Heap.ValidReady | libc/src/stdlib/heap.c:104-123 | on a whole heap, whatever the split, the free inside any realloc goes through a block |
| HeapRuns.RunKeeps | libc/src/stdlib/heap.c:92-137 | every run of malloc, free and realloc whose frees go through blocks, with either split, keeps tiling, alignment and total, and the program's pointers good and apart |
| HeapRuns.WholeRun | libc/src/stdlib/heap.c:92-137 | a run keeps the full invariant throughout if and only if no call loses a back link |
| HeapRuns.RepairedLosesNone | libc/src/stdlib/heap.c:62-78 | with the repaired split none does |
| HeapRuns.NamedRun | libc/src/stdlib/heap.c:92-137 | throughout a run every prev field is null or names a block in front if and only if no call merges away a block that a lost link names |
| HeapRuns.WholeOrphansNone | libc/src/stdlib/heap.c:92-137 | a run that loses no back link never does that |
| HeapRuns.OrphansNoneFrees | libc/src/stdlib/heap.c:92-137 | a run that never does that frees through blocks only |
| HeapRuns.RepairedFreesNamed | libc/src/stdlib/heap.c:62-137 | with the repaired split every run from a whole heap does |
| HeapRuns.RunThenFreeAll | libc/src/stdlib/heap.c:92-137 | after every run that loses no back link, freeing what is live in any order gives the initial heap |
| HeapRuns.InitialSane | libc/src/stdlib/heap.c:84-90 | the heap after init_malloc is a start for such runs |
| HeapProgram.Execute | libc/src/stdlib/heap.c:92-137 | the in-place allocator, with either split, follows the list and its headers over every run whose frees go through blocks, changes no payload byte of a block the run does not operate on, and ends whole if the run loses no link |
| HeapProgram.SmallCopiesFit | libc/src/stdlib/heap.c:110-117 | over every run whose frees go through blocks and without requests above 2^32 - 4, every copy of realloc stays in its new block |
| HeapStray.BackLinkRun | libc/src/stdlib/heap.c:62-78 | as written: six calls, after which nothing is live and two free neighbours remain |
| HeapStray.ReallocRun | libc/src/stdlib/heap.c:104-123 | as written: four calls, the last a realloc, after which two free neighbours remain |
| HeapStray.StrayRun | libc/src/stdlib/heap.c:125-137 | as written: eleven calls, the last of which, a free of another block, rewrites eight bytes of a live payload |
| HeapWreck.WreckRun | libc/src/stdlib/heap.c:62-137 | as written: twelve calls, the last of which changes the next field of a live block's header; no list of blocks is what memory holds then |
| Crc32Table.TableEntry | src/arch/arm_cortexm/rp2040/boot2/compCrc32.c:9-42 | every table entry is eight bit steps of its index |
| Crc32Poly.IterXor | src/arch/arm_cortexm/rp2040/boot2/compCrc32.c:44-53 | the register step is linear over XOR |
| Crc32Poly.FeedAtOnce | src/arch/arm_cortexm/rp2040/boot2/compCrc32.c:47-51 | feeding bits one by one is XORing them in at once and stepping |
| Crc32Poly.FeedIsDivision | src/arch/arm_cortexm/rp2040/boot2/compCrc32.c:44-53 | feeding bits is long division by the polynomial |
| Crc32Poly.BurstDetected | src/arch/arm_cortexm/rp2040/boot2/compCrc32.c:44-53 | bit strings that differ only within 32 consecutive bits never lead to one register |
| Crc32Poly.OwnChecksum | src/arch/arm_cortexm/rp2040/boot2/compCrc32.c:44-53 | 32 more bits lead to zero if and only if they are the register |
| Crc32Bridge.TableRound | src/arch/arm_cortexm/rp2040/boot2/compCrc32.c:48-50 | one pass of the loop feeds the eight bits of a byte |
| Crc32.CalculateCrc32 | src/arch/arm_cortexm/rp2040/boot2/compCrc32.c:44-53 | for every length, the loop computes the bit-by-bit checksum |
| Crc32.CrcIsRemainder | src/arch/arm_cortexm/rp2040/boot2/compCrc32.c:44-53 | that checksum is the remainder of a division by 0x04C11DB7 of the message and 32 zeros |
| Crc32.BurstErrorsDetected | src/arch/arm_cortexm/rp2040/boot2/compCrc32.c:44-53 | different inputs of one length that differ within 32 consecutive bits have different checksums |
| Crc32.OwnBytesGiveZero | src/arch/arm_cortexm/rp2040/boot2/compCrc32.c:44-53 | four more bytes give 0 if and only if they are the checksum, big-endian |
| FatGeometry.ClusterInside | src/driver/fs/FAT32.c:224-228 | every cluster lies behind the tables and inside the volume, and its address does not wrap |
| FatGeometry.ClustersDisjoint | src/driver/fs/FAT32.c:224-228 | different clusters share no sector |
| FatGeometry.EntryBytes | src/driver/fs/FAT32.c:193-205 | the four bytes read for cluster c are bytes 4c to 4c + 3 of the table and never straddle a block |
| FatGeometry.ChainUnique | src/driver/fs/FAT32.c:184-222 | a start cluster has at most one chain |
| FatGeometry.ChainDistinct | src/driver/fs/FAT32.c:184-222 | no cluster occurs twice in a chain |
| FatGeometry.ContentSlice | src/driver/fs/FAT32.c:450-457 | bytes inside a sector of cluster j stand at their place in the flattened chain |
| FatTable.GetNextCluster | src/driver/fs/FAT32.c:184-222 | exactly what the 28-bit entry says, an error for a cluster out of range, a read failure only on an unreliable card |
| FatTable.ParseMbr | src/driver/fs/FAT32.c:105-124 | the first active FAT32 entry of a table with the right signature, or none |
| FatTable.LayoutConsistent | src/driver/fs/FAT32.c:153-161 | numbers that fit the card give a consistent layout; none of the 32-bit sums wraps |
| FatTable.BpbConsistent | src/driver/fs/FAT32.c:127-165 | the same for the bytes of the boot sector |
| FatHandle.SignedMinIsMin | src/driver/fs/FAT32.c:92-94 | the signed min of two unsigned words is their minimum if and only if they are equal or on the same side of 2^31 |
| FatHandle.ReadCondition | src/driver/fs/FAT32.c:442-457 | a read takes the right first chunk if and only if its count and the rest of the file are below 2^31; then the 16-bit length is that chunk too |
| FatHandle.TooLong | src/driver/fs/FAT32.c:442-466 | for a count and a rest of 2^31 it asks for no byte and counts 2^31 |
| FatFile.Driver.CopyFromSector | src/driver/fs/FAT32.c:447-466 | one pass, for any count: the cursor moves by the chunk computed, and its low 16 bits say how many bytes of the chain arrive |
| FatFile.Driver.CopyLoop | src/driver/fs/FAT32.c:447-481 | delivers the next bytes of the chain, as many as wanted unless a read fails; then a shorter piece, with the cursor behind it or stranded |
| FatFile.Driver.ReadFile | src/driver/fs/FAT32.c:429-482 | hands over the next min(n, rest) bytes of the file; after a failed sector read the cursor is good and behind what did arrive, and only a failed table lookup at a cluster's end can strand it; no other handle changes; nothing at all before mounting or for a handle that is not open |
| FatFile.Driver.Read | src/driver/fs/FAT32.c:587-596 | the same, with success as a bool |
| FatFile.Driver.ReadRun | src/driver/fs/FAT32.c:429-482 | any run of reads, on any card, hands over the file's next bytes one piece behind the other, whichever sector reads fail in between, until it is done or stranded; on a reliable card min(sum of lengths, rest) of them |
| FatFile.Driver.CursorGood | src/driver/fs/FAT32.c:471-478 | a handle is stranded if and only if it stands at the end of a cluster with more of the file to come |
| FatFile.Driver.StrandedPass | src/driver/fs/FAT32.c:447-478 | one pass on a stranded handle: the sector behind the used-up cluster arrives, the position moves on by it, and the cursor, if the lookup works now, is at the start of the chain's next cluster and good for no position |
| FatFile.Driver.BehindCluster | src/driver/fs/FAT32.c:224-228 | the sector behind a cluster is the first of the cluster with the next number |
| FatFile.Driver.Install | src/driver/fs/FAT32.c:562-575 | the lowest free slot gets a cursor at the start of the file, also beside stranded ones; 2^32 - 1 if and only if all are taken |
| FatFile.Driver.Close | src/driver/fs/FAT32.c:578-585 | frees that slot, stranded or not, and no other |
| FatNameReading.SfnToString | src/driver/fs/FAT32.c:241-254 | the buffer holds the short name, terminated |
| FatNameReading.SfnChecksum | src/driver/fs/FAT32.c:256-262 | the sum of section 7.2 of the Microsoft FAT Specification over the eleven bytes: from 0, a rotation and the next byte in eight bits |
| FatNameReading.LfnToUtf8 | src/driver/fs/FAT32.c:264-286 | appends the characters before the terminator, '?' for what is not ASCII, as far as there is room, and a NUL inside the buffer |
| FatNameReading.ReadPart | src/driver/fs/FAT32.c:384-389 | the three runs of a record in one terminated string, within the 40 bytes |
| FatNameReading.Assemble | src/driver/fs/FAT32.c:400-406 | the parts joined and cut to 255 characters, terminated within the 256 bytes |
| FatNameReading.Strncat | libc/src/string/strncat.c:3-20 | appends at most n characters and a NUL |
| FatLongNames.LongNameReported | src/driver/fs/FAT32.c:359-413 | a complete run of up to twenty long-name records before its short record gives the long name, cut to 255 characters, if its checksum is the section 7.2 sum of the short name and not zero, otherwise the short name |
| FatRecords.StopsExactly | src/driver/fs/FAT32.c:345-424 | for every attribute byte: a call ends at a record that starts with 0x00; it reports any other record if and only if that does not start with 0xE5 and its attributes are neither the four bits of a long-name record nor volume without directory |
| FatRecords.GoesOn | src/driver/fs/FAT32.c:351-424 | a deleted record changes nothing, a label makes the scan forget a pending long name |
| FatRecords.FieldsRead | src/driver/fs/FAT32.c:415-418 | a short record written field by field (section 6) is read back with its cluster, size, attributes and directory bit |
| FatRecords.ShortNameRead | src/driver/fs/FAT32.c:241-254 | its name is the base, or base, 0x2E and extension |
| FatRecords.PlainScanned | src/driver/fs/FAT32.c:395-424 | so it is reported under that name when no long name is pending |
| FatRecords.Rotation | src/driver/fs/FAT32.c:259 | the step of that sum is a rotation of eight bits to the right |
| FatRecords.SumIsSection | src/driver/fs/FAT32.c:256-262 | the sum that the scan compares is that of section 7.2 |
| FatLongNames.ShortNameInjective | src/driver/fs/FAT32.c:241-254 | different padded 8.3 names are reported as different strings |
| FatNameWriting.DirectoryRoundTrip | src/driver/fs/FAT32.c:353-425 | a whole directory written field by field (sections 6 and 7), entries with and without long names, deleted records and labels between them, is listed from its start as what was written: name, cluster, size, attributes, directory bit; ASCII names of up to 255 characters exactly |
| FatDir.RecordAt | src/driver/fs/FAT32.c:337-346 | the record under the cursor is the one at the cursor's place in the flattened directory |
| FatDir.CollectPart | src/driver/fs/FAT32.c:364-393 | the buffers and the loops over them do what the flat scan does with a long-name record |
| FatDir.MakeInfo | src/driver/fs/FAT32.c:395-418 | the same for a short record: the name in the buffer is the long name if its checksum matches, otherwise the short one |
| FatDir.DirIterator.Init | src/driver/fs/FAT32.c:288-304 | the cursor stands before the first record |
| FatDir.DirIterator.LoadSector | src/driver/fs/FAT32.c:318-343 | the next sector of the chain in the buffer; the end of the chain is reported only when no record is left; a failure keeps the old buffer with the cursor at its first record |
| FatDir.DirIterator.Next | src/driver/fs/FAT32.c:306-427 | what the scan over the flat list of records finds from the cursor on: the next entry, the end marker, or the end of the chain; and where the iterator stands after a call that did not succeed |
| FatDir.DirIterator.RetryRereads | src/driver/fs/FAT32.c:318-343 | when the sector behind a used-up buffer cannot be loaded, the next call finds the sixteen records before the cursor once more |
| FatDir.DirIterator.RetrySkips | src/driver/fs/FAT32.c:318-343 | behind them it goes on sixteen records later if the sector could not be read, and in place if the table could not |
| FatListing.ScanTakesFirst | src/driver/fs/FAT32.c:351-425 | one call stops at the next short record that is no label, and only there |
| FatListing.ListIsFilter | src/driver/fs/FAT32.c:351-425 | all calls together list exactly the short records up to the first 0x00 record, in order, none left out or repeated |
| FatListing.ReadDirectory | src/driver/fs/FAT32.c:306-427 | repeated calls on a directory's chain report that list unless a read fails |
| FatListing.PartsInBounds | src/driver/fs/FAT32.c:357-406 | the reported name uses at most as many parts as there are long-name records before its short record, so twenty or fewer stay within the part buffers |
| FatListing.PartsOutOfBounds | src/driver/fs/FAT32.c:364-393 | n long-name records in a row that are all flagged last and numbered 1 are counted as n parts, modulo 256 |
| FatPath.SplitJoined | src/driver/fs/FAT32.c:500-521 | splitting a path of plain names gives back the names |
| FatPath.ExtraSlash | src/driver/fs/FAT32.c:519-521 | doubled slashes change nothing |
| FatPath.ReadComponent | src/driver/fs/FAT32.c:501-517 | the next name of the path, cut to 255 characters, terminated in its buffer |
| FatPath.SearchOn | src/driver/fs/FAT32.c:524-551 | the first entry of that name and kind in the rest of the directory, or which error |
| FatPath.GetFile | src/driver/fs/FAT32.c:484-554 | what resolving the path's names one after another finds |
| FatTree.ResolveIsLookup | src/driver/fs/FAT32.c:500-552 | on a volume that stores a tree with unique names, resolving ends at a file if and only if the names lead to that file in the tree |
| FatTree.FindFile | src/driver/fs/FAT32.c:484-554 | get_file succeeds with exactly the file that the path names in the tree, and fails if it names none |
| FatMount.Mount | src/driver/fs/FAT32.c:105-176 | the volume of the first active FAT32 partition and sixteen free handles; on a reliable card it fails only if there is no such partition; a failure leaves the handles, and of the volume changes at most the two fields that the partition entry gives |
| FatMount.OpenFile | src/driver/fs/FAT32.c:556-576 | a handle at the start of the named file in the lowest free slot, also beside stranded ones; 2^32 - 1 only if there is no such file, no free slot, or a failed read |
| FatFormat.MbrRead | src/driver/fs/FAT32.c:96-124 | of a partition table written field by field, the first entry with the highest status bit and type 0x0B or 0x0C is chosen, with the start and size that were written |
| FatFormat.BootRead | src/driver/fs/FAT32.c:127-165 | of a boot sector written field by field (section 3), the volume has the root, cluster size, tables and clusters that were written |
| FatFormat.VolumeAsWritten | src/driver/fs/FAT32.c:96-176 | both together |
| FatFormat.EntryRead | src/driver/fs/FAT32.c:205-207 | of a table entry written in four bytes the lower 28 bits are read |
| FatFormat.FollowRead | src/driver/fs/FAT32.c:178-221 | the meaning of each of their values: end from 0x0FFFFFF8 on, bad 0x0FFFFFF7, free 0, otherwise the next cluster |
| FatStored.ResolveWritten | src/driver/fs/FAT32.c:484-554 | in a root directory so written, the path of a file entry leads to its name, cluster, size and attributes |
| FatStored.FindWritten | src/driver/fs/FAT32.c:484-554 | get_file on a slash and the entry's name finds exactly that, unless a read fails |
| FatStored.OpenWritten | src/driver/fs/FAT32.c:556-576 | fat32_open starts a handle at the written cluster with the written size; it refuses only if a read fails or all slots are taken |
| FatSession.CallOpen | src/driver/fs/FAT32.c:556-576 | on any card, opening is a step of the machine of sixteen slots |
| FatSession.CallRead | src/driver/fs/FAT32.c:587-596 | so is reading: a failed read hands over a piece and leaves the slot behind it, or stuck at a cluster's end |
| FatSession.CallClose | src/driver/fs/FAT32.c:578-585 | so is closing, of a stuck slot too |
| FatSession.Session | src/driver/fs/FAT32.c:556-596 | any interleaving of open, read and close on any card is a trace of that machine, up to a first read on a stuck slot |
| FatSession.HandedOverInOrder | src/driver/fs/FAT32.c:429-482 | in every trace, whatever fails and whatever happens on other handles, the bytes handed over on a handle are the file between its two positions: a retry goes on at the right byte |
| FatSession.ReliableTrace | src/driver/fs/FAT32.c:556-596 | where no read fails a trace has exactly the replies of the machine as a function |
| SdBlock.Spi.Wait | src/lib/sd/SD.c:50-62 | the bounded wait succeeds if and only if the first byte that is not idle is the token and comes before the last allowed read; a timeout of 0 allows 65536 |
| SdBlock.Spi.ReadDataBlock | src/lib/sd/SD.c:46-78 | on success the 512 bytes behind the token, 514 bytes consumed |
| SdBlock.Spi.ReadDataBlockPartial | src/lib/sd/SD.c:305-344 | on success the bytes asked for, and how far the line has moved |
| SdBlock.Spi.SdReadPartialBlock | src/lib/sd/SD.c:346-364 | if the card sends a sector behind its token, the caller gets the slice asked for or nothing, and gets it if and only if the response is good and the token comes in time |
| SdBlock.TokenOnLine | src/lib/sd/SD.c:50-62 | on a line that is 0xFF for k bytes and then not, the token is there if and only if the next byte is 0xFE and comes in time |
| SdBlock.DrainsBlock | src/lib/sd/SD.c:334-338 | exactly block and CRC are consumed if and only if offset + count <= 514; otherwise at least 65536 bytes more |
| SdBlock.ReadBothWays | src/lib/sd/SD.c:305-344 | on one line, the partial read succeeds if and only if the full one does, gives the slice of its block, and ends at the same place |
| HexUtils.IntToDec | src/lib/util/hexutils.c:62-82 | decimal digits that read as n, no needless leading zero, at most ten, and a NUL |
| HexUtils.WritesUnique | src/lib/util/hexutils.c:62-82 | there is only one such string |
| HexUtils.DigitsEnd | src/lib/util/hexutils.c:55-82 | digits that read as n end in the character 0x30 + n % 10, the others read as n / 10 |
| HexUtils.DecimalEnds | src/lib/util/hexutils.c:62-82 | the string of n is that of n / 10 and this character |
| HexUtils.HexToStr | src/lib/util/hexutils.c:23-28 | eight hexadecimal digits that read as n |
| HexUtils.HexWritesUnique | src/lib/util/hexutils.c:23-53 | there is only one string of that many hexadecimal digits |
| HexUtils.HexEnds | src/lib/util/hexutils.c:23-53 | it ends in n % 16, from 0x30 or from 0x41 on, behind the string of n / 16 |
| HexUtils.ByteToStr | src/lib/util/hexutils.c:49-53 | two hexadecimal digits that read as n |
| HexUtils.ByteToDec | src/lib/util/hexutils.c:55-60 | three decimal digits that read as n |
| ElfImage.FieldsReached | src/lib/util/hexutils.h:11-16 | the five fields of a program header are read in their places if and only if the last of them starts below 65536 |
| ElfImage.SegmentsAsStated | src/lib/elf/elf.c:49-79 | when all type fields start below 65536, and all fields of the headers to load, the loader loads exactly the segments that the headers state |
| ElfImage.HeaderAt65536 | src/lib/elf/elf.c:52-56 | in every executable, a header at 65536 is taken for the start of the file and loads nothing |
| ElfImage.PlaceAllPlaces | src/lib/elf/elf.c:73-78 | with targets that do not overlap, every byte of every segment ends up in place |
| ElfImage.PlaceAllElsewhere | src/lib/elf/elf.c:73-78 | no other byte changes |
| ElfImage.OrderIrrelevant | src/lib/elf/elf.c:49-79 | the order of the program headers does not matter |
| Elf.LoadSegment | src/lib/elf/elf.c:73-78 | the segment's bytes, then zeros, nothing else |
| Elf.LoadHeader | src/lib/elf/elf.c:52-78 | a header seen as PT_LOAD, wherever read_le32 looks, places the segment seen there, any other does nothing |
| Elf.LoadTable | src/lib/elf/elf.c:49-79 | all segments so seen, in the table's order, with the file intact in its buffer |
| ElfLoader.GiveBack | src/lib/elf/elf.c:80 | freeing the buffer restores the heap's block list and all back links, with the split as written too |
| ElfLoader.LoadElf | src/lib/elf/elf.c:24-82 | on any card, whenever the file opens and is read: 2 if there is no room; 1 and a buffer never freed if it is no executable; otherwise the entry point, every segment in place, nothing else outside the heap changed, block list and live payloads as before; live payloads are kept in every case |
| ElfFormat.HeaderRead | src/lib/elf/elf.c:32-47 | an ELF header written field by field is accepted if and only if it has the magic number, is not of class or encoding 2, and has the low bytes of an executable and of ARM; entry point, offset, size and number of the program headers are read as written |
| ElfFormat.ProgramHeaderRead | src/lib/elf/elf.c:51-61 | type, offset, address and sizes of a program header written field by field are read as written |
| ElfFormat.SegmentsAsWritten | src/lib/elf/elf.c:49-79 | the loader loads, in order, exactly the segments whose headers were written with type 1 |
| ElfFormat.ResultAsWritten | src/lib/elf/elf.c:24-82 | the outcome of loadELF for a file so written: 2 without room, 1 if its header is not accepted, otherwise the written entry point, with every byte of every such segment at its virtual address and zeros behind |

## Left out

- FatFile.Driver.ReadFile: follows counts and remaining sizes below 2^31; from there on the source does not take the right first chunk (FatHandle.ReadCondition, exactly), and FatFile.Driver.CopyFromSector and FatHandle.TooLong say what one pass does. A read on a stranded handle is followed for one pass (FatFile.Driver.StrandedPass).
- FatSession.Session: ends at a read on a stuck slot, and takes counts and sizes below 2^31 only.
- FatPath.GetFile: does not cover walks into a cluster without a proper chain, in particular ".." to the root, which is stored as cluster 0 and read from sector 0.
- FatTree.FindFile: does not cover names "." and "..", which no tree contains.
- FatDir.DirIterator.Next: starts from an iterator in order; a call after a failed one is followed through its next two sector loads (FatDir.DirIterator.RetryRereads, FatDir.DirIterator.RetrySkips), not through the names it then reports.
- FatDir.CollectPart: the part buffers are strings here, not one block of 800 bytes; they and their count start empty in each call, although the source leaves them uninitialised.
- FatNameReading.Assemble: stops at the twenty part buffers there are, where the source would read beyond them; FatListing.PartsInBounds says when it does not.
- FatMount.Mount: does not cover a boot sector with numbers that make no sense, in particular zero sectors per cluster (a division by zero).
- Heap.Heap.Realloc: requires that the copy fits the new block (HeapLinks.CopyFitsWhen: always for requests up to 2^32 - 4), that the free in it goes through a block, as on a whole heap (Heap.Heap.ValidReady), and a pointer that is not NULL, through which the source would read a header.
- Heap.Heap.Free: when the prev field names no block, the writes are followed only if they stay inside memory; HeapHarm.FreeAstray and HeapHarm.AstrayKeeps say what survives them.
- HeapProgram.Execute: stops short of a free through a prev field that names no block; Heap.Heap.Free says whether the list survives that one call, and HeapStray.StrayRun and HeapWreck.WreckRun follow two such runs to their end.
- ElfLoader.LoadElf: does not cover a file shorter than an ELF header, and program headers whose fields lie behind the end of the file or whose targets overlap each other or the heap; a failed open or read, which the source ignores, is followed only as far as that failure.
- Null pointers: the source answers them with error codes; the model has none.
- SD card initialisation, command and response bytes, block writing, shutdown and SPI timing: hardware behaviour; block reading is a read that may fail.
- UART, SPI, clocks, resets, DMA and boot stage 2 registers: memory-mapped I/O.
- System calls and the process code: a one-case switch, and code without scheduling logic.
- strchr and strtok: not used by the code modelled here.
- fat_read_cluster, read_sectors and write_sectors: not used by the code modelled here.
- The checksum tool's file handling and generated text: I/O only.
