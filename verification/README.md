# Models and proofs for the diskimg filesystem drivers

diskimg is a set of pure-Go drivers that edit packed on-disk structures in place: FAT12/16/32, NTFS, Btrfs and ext4
volumes inside partitioned disk images, and formatters for them. This project models the storage engines of these drivers
in Dafny and proves what they are for: that what is written is read back, that nothing else changes, that allocators never
hand out a live block twice, that counters agree with bitmaps, and that the structures they leave behind are well formed.

Loops that rewrite buffers are methods over arrays or over fields of a class, each proved against a function or a predicate
on values; the theorems are lemmas about those functions and predicates. Bytes are numbers from 0 to 255; little-endian
fields, 32- and 64-bit wrap-around and the nibbles of FAT12 are written out. Many methods take `ghost` arguments: the
abstract value (a chain, a tree, a directory) that the bytes are known to store.

The files, by driver:

- Shared: `Bytes`, `Chunks`, `Bitmap`, `Wrappers`.
- FAT: `FatTable` (the packed table), `FatChains` (a state machine of chains), `FatGeometry`, `FatEntry`, `FatImage` (device,
  overlay, flush), `FatVolume` (the driver).
- NTFS: `NtfsRunlist` and `NtfsFormatRunlist` (the codecs), `NtfsAllocator`, `NtfsRuns` and `NtfsStore` (reading and writing
  data), `NtfsFixup` (update sequence arrays), `NtfsIndex`, `NtfsNames`, `NtfsIndexBlock`, `NtfsPacking`, `NtfsRecord`,
  `NtfsDirectory`, `NtfsDirBlocks`, `NtfsRoom`, `NtfsDirVolume`, `NtfsFullDirectory` (directories in all their storage forms).
- Btrfs: `BtrfsLeaf`, `BtrfsNode`, `BtrfsInsert` (leaves), `BtrfsTree`, `BtrfsVolume` (trees on a volume), `BtrfsLayout`
  (nodes written out byte by byte).
- ext4: `Ext4Allocator`, `Ext4Extents`, `Ext4Nodes`, `Ext4Store`, `Ext4File`, `Ext4Room`, `Ext4Volume` (files on the bitmap
  allocator), `Ext4DirBlock`, `Ext4Directory`, `Ext4DirVolume`, `Ext4FullDirectory` (directories as files); and the formatter
  in `Ext4Backups`, `Ext4Layout`, `Ext4Format`.
- Images: `Regions`, `Gpt`, `Mbr`, `Images`.

Where the code does less than its comments suggest, the model follows the code, a lemma says exactly when the promise
holds, and another gives an input where it does not:

- `BtrfsInsert.InsertExact`, `UnequalSizes`: the data start is computed after the descriptors moved.
- `Ext4Extents.AppendIsUpdate`, `FourFullLeaves`, `HoleBelowLastLeaf`: mappings below the last leaf, or beyond four full
  leaves, are lost, and with them the blocks of a written range (`Ext4Room.FillExact`, `Ext4Volume.WriteFileRange`) or a
  directory entry (`Ext4DirVolume.AddDirEntry`, `Ext4FullDirectory.FullDirectory`).
- `Ext4DirVolume.AddDirEntry`, `Ext4FullDirectory.LongDirectory`: only the low word of a directory's size is kept.
- `Ext4DirBlock.SeenWhole`: names of more than 255 bytes are cut; `Ext4Directory.MergeExact`, `MergeTooLong`: merged records of
  64 KiB get length 0.
- `Ext4Format.Write`, `NoRoomForJournal`, `ShortLastGroup`: a first group without room for a journal block, or a later one
  without room for its structures, makes the writer run past its own cursor.
- `Ext4Backups.BackupExact`, `WrapMisleads`: 32-bit powers wrap.
- `Regions.BuildRegions`, `IntoBackup`, `ShortImage`: partitions or a boot area that reach into the end of an image.
- `FatGeometry.NoClusterLooksLikeEoc`, `TooManyClusters`: cluster numbers that are end marks.
- `FatGeometry.DerivedClustersFit`, `FrontTooLarge`: a subtraction that wraps.
- `FatImage.InfoExact`, `InfoOverFat`: FSInfo sectors are written to sectors 1 and 7 even if the FAT begins before.
- `NtfsDirVolume.IndexVolume.AddDirEntry`, `NtfsDirVolume.LeftBehind`, `NtfsFullDirectory.RepackCanFail`: a repack that
  outgrows the record has already released the clusters the record still names, and written over some of them.

## Model

| member | source | states |
|---|---|---|
| FatTable.SetEntrySame | fat32/open.go:208-226 | a FAT12, FAT16 or FAT32 entry just written reads back as the value, in the width of the type |
| FatTable.SetEntryOther | fat32/open.go:190-226 | writing one entry leaves every other entry, also the FAT12 neighbour that shares a byte |
| FatTable.ReservedBitsKept | fat32/open.go:219-225 | the top four bits of a FAT32 entry survive |
| FatTable.ViewOfSetEntry | fat32/open.go:208-226 | on the whole table a write is the update of exactly one entry |
| FatTable.PackedReads | fat32/open.go:190-206 | a FAT16 or FAT32 table written out entry by entry reads back entry by entry |
| FatTable.PackedReads12 | fat32/open.go:190-206 | so does a FAT12 table of three bytes for two entries |
| FatTable.EndMarks | fat32/open.go:228-251 | end marks are the eight highest values of an entry, and the one written is the highest |
| FatGeometry.BootReads | fat32/open.go:122-142 | a boot sector written out field by field reads back |
| FatGeometry.DerivedExact | fat32/open.go:144-178 | for fitting areas: fewest root directory sectors, as many clusters as fit, FAT12 up to 4084 of them, FAT16 up to 65524, else FAT32 |
| FatChains.StepKeepsInv | fat32/write.go:18-47 | allocating, appending, truncating and freeing keep chains end-marked, pairwise disjoint, and clusters free exactly when nobody owns them |
| FatChains.RunKeepsInv | fat32/write.go:18-147 | the same in every state of every run, with the number of clusters and the lost ones unchanged |
| FatChains.Conservation | fat32/write.go:18-58 | a cluster is free iff it is neither lost nor in any chain; no cluster is in two chains, or twice in one |
| FatChains.ChainIsAcyclic | fat32/write.go:49-58 | a chain that reaches its end marker has no cluster twice |
| FatChains.ChainIsUnique | fat32/write.go:49-58 | a first cluster starts at most one chain |
| FatChains.OrbitOfChain | fat32/write.go:37-47 | the clusters visited from the start of a chain are that chain |
| FatChains.InRangeTableClosed | fat32/write.go:37-47 | in a table with in-range links a walk stays among the clusters, cyclic or not |
| FatChains.OrbitFreesFile | fat32/write.go:37-47 | zeroing what a walk from a file's first cluster visits frees exactly that file |
| FatGeometry.NoClusterLooksLikeEoc | fat32/open.go:162-178 | with the type derived from the cluster count no cluster number is an end marker, iff a FAT32 volume has at most 0x0FFFFFF6 clusters |
| FatGeometry.TooManyClusters | fat32/open.go:162-178 | a boot sector that names one cluster more, whose last cluster is an end marker |
| FatGeometry.DerivedClustersFit | fat32/open.go:122-178 | FATs, root directory and clusters lie inside the volume, one behind the other, iff the areas in front of the data fit the sector count (else a 32-bit subtraction wraps) |
| FatGeometry.FrontTooLarge | fat32/open.go:122-178 | a boot sector that reserves 100 of 10 sectors, from which 4294967204 clusters are derived |
| FatGeometry.DerivedFits | fat32/open.go:122-178 | a boot sector with consistent areas, a large enough FAT and a large enough device gives a geometry that fits the device |
| FatGeometry.ClustersApart | fat32/open.go:253-256 | different clusters have disjoint sectors |
| FatEntry.DecodeEncode | fat32/write.go:92-106 | a 32-byte short entry read back has the name, attributes, times, cluster and size that were written |
| FatImage.WriteStaged | fat32/flush.go:40-54 | writing the staged sectors, in any order, makes the device the overlay of both |
| FatImage.WriteCopies | fat32/flush.go:29-38 | every copy of the FAT is written, and nothing outside the copies |
| FatImage.FlushSectors | fat32/flush.go:27-68 | after both, all copies hold the FAT, every later sector is what the overlay showed, and the reserved sectors are as before |
| FatImage.InfoExact | fat32/flush.go:27-99 | writing both FSInfo sectors keeps all FAT copies, all later sectors and the reserved ones iff the sectors it hits are reserved, or held those very bytes |
| FatImage.InfoOverFat | fat32/flush.go:71-99 | with seven reserved sectors the second FSInfo sector replaces the start of the FAT |
| FatImage.ClustersSurvive | fat32/flush.go:27-68 | a flush leaves the contents of every cluster |
| FatImage.FullMeansNoneFree | fat32/flush.go:71-99 | the hint is 0xFFFFFFFF in just the state in which an allocation fails: no entry from 2 on is free |
| FatImage.OtherFilesUnchanged | fat32/write.go:112-166 | writing one file and its directory slot leaves the bytes of every other file |
| FatVolume.Volume.SetFatEntry | fat32/open.go:208-226 | the table changes in that entry only |
| FatVolume.Volume.AllocCluster | fat32/write.go:18-26 | takes the lowest free cluster and end-marks it, or changes nothing because all are in use |
| FatVolume.Volume.AppendCluster | fat32/write.go:28-35 | links the lowest free cluster behind the last one |
| FatVolume.Volume.FreeChain | fat32/write.go:37-47 | ends on cyclic tables too, and zeroes exactly the clusters visited |
| FatVolume.Volume.ClusterChain | fat32/write.go:49-58 | lists the clusters of the walk, whether it ends with an end mark or with a link below 2 |
| FatVolume.Volume.FreeFile | fat32/write.go:37-47 | freeing a file's chain is the Free step of the state machine |
| FatVolume.Volume.ReadCluster | fat32/open.go:258-274 | the staged or stored bytes of the cluster |
| FatVolume.Volume.WriteCluster | fat32/open.go:277-285 | the image changes in the sectors of that cluster only |
| FatVolume.Volume.GrowChain | fat32/write.go:122-134 | the chain is extended to the wanted length, iff its clusters and the free ones are enough, else as far as the disk allows, the invariant holding either way |
| FatVolume.Volume.ShrinkChain | fat32/write.go:136-147 | the chain becomes its prefix and the rest is free |
| FatVolume.Volume.FitChain | fat32/write.go:112-147 | succeeds iff the clusters of the file and the free ones are enough; then the file owns exactly the wanted number of clusters |
| FatVolume.Volume.WriteChainData | fat32/write.go:149-160 | the chain's bytes are the data padded with zeros; other clusters are as before |
| FatVolume.Volume.WriteDirEntry | fat32/write.go:65-90 | only the 32 bytes of the slot change |
| FatVolume.Volume.WriteFileData | fat32/write.go:112-166 | succeeds iff max(1, ceil(len/cluster)) clusters can be had; then the file holds exactly the data in that many clusters, only its clusters and its slot were written, and the slot reads as the old entry with new first cluster, size, write date and write time; on a full disk nothing was written |
| FatVolume.Volume.ReadAllClusters | fat32/read.go:216-241 | the first `size` bytes of the walk, with zeros behind a walk that ends too early |
| FatVolume.Volume.FsInfoSector | fat32/flush.go:71-99 | free count = number of free entries; hint = the cluster an allocation would return, 0xFFFFFFFF iff it would fail |
| FatVolume.Volume.Flush | fat32/flush.go:27-99 | FAT copies and staged sectors are on the device and the overlay is empty; then both FSInfo sectors are put over sectors 1 and 7, whatever was there; with eight reserved sectors no other reserved sector changed |
| FatVolume.Mount | fat32/open.go:122-188 | succeeds iff the boot sector gives a geometry and the first FAT copy is on the image; the volume has that geometry and that copy, fit for use iff the geometry fits the image |
| FatVolume.Volume.Remount | fat32/open.go:122-188 | a mount of the flushed bytes derives the same geometry from the boot sector and, unless FSInfo sectors lie in the FAT, sees the same FAT entries, chains and cluster contents |
| NtfsRunlist.DecodeEncode | ntfs/read.go:29-99 | decoding an encoded runlist followed by any bytes gives the runs, negative deltas and sparse runs included |
| NtfsRunlist.DecodeRunlist | ntfs/read.go:29-73 | the loop computes the recursive decoder, errors included |
| NtfsRunlist.EncodeRunlist | ntfs/read.go:76-99 | the loop computes the recursive encoder with minimal field widths |
| NtfsRunlist.MinBytesUnsigned | ntfs/read.go:101-111 | fewest bytes that hold the number |
| NtfsRunlist.MinBytesSigned | ntfs/read.go:113-134 | fewest bytes whose two's complement is the number, up to 8 |
| NtfsFormatRunlist.EncodeRunList | mkfs/ntfs/helpers.go:83-92 | the formatter's bytes for one run are the driver's |
| NtfsAllocator.Allocator.AllocCluster | ntfs/alloc.go:17-40 | lowest free LCN from 1 on; bit 0 may be set on the way |
| NtfsAllocator.Allocator.TryAllocContiguous | ntfs/alloc.go:70-103 | takes the lowest run of n free clusters iff there is one |
| NtfsAllocator.Allocator.AllocClusters | ntfs/alloc.go:43-63 | succeeds iff n clusters are free, with the n lowest ones, neighbours merged into runs |
| NtfsAllocator.Allocator.AllocContiguousClusters | ntfs/alloc.go:108-119 | the lowest run of n free clusters, else the n lowest free ones, else failure; exactly those bits (and bit 0) become set |
| NtfsAllocator.Allocator.FreeCluster | ntfs/alloc.go:122-134 | clears the bit, ignoring LCN 0 and LCNs past the bitmap |
| NtfsAllocator.Allocator.FreeRuns | ntfs/alloc.go:137-146 | clears the clusters of all runs that are not sparse |
| NtfsAllocator.FreeUndoesAlloc | ntfs/alloc.go:108-146 | freeing an allocation restores every bit except possibly bit 0 |
| NtfsRuns.ReadRuns | ntfs/read.go:213-236 | the whole data, cut to its size, sparse runs as zeros |
| NtfsRuns.ReadRunsAt | ntfs/read.go:239-278 | a positioned read gives the bytes of the runs from that offset on |
| NtfsStore.Volume.AllocAndWrite | ntfs/alloc.go:149-175 | succeeds iff enough clusters are free; the fresh clusters hold the data and no other cluster changes |
| NtfsStore.PlacedReadsBack | ntfs/alloc.go:149-175 | written data, read through its encoded and decoded runlist, is the data |
| NtfsStore.PositionedIsSlice | ntfs/read.go:239-278 | a positioned read equals the matching slice of the whole read |
| NtfsFixup.StampThenApply | ntfs/open.go:264-309 | applying the fixup to a stamped buffer restores every byte outside the update sequence array |
| NtfsFixup.StampedEnds | ntfs/open.go:285-309 | every guarded sector ends with the new sequence number |
| NtfsFixup.SeqStep | ntfs/open.go:294-298 | the sequence number goes up by one, and from 65535 to 1 |
| NtfsFixup.FixedIs | ntfs/open.go:264-281 | with the array in front of the first sector end the word-by-word result is the restored buffer |
| NtfsFixup.RestampedIs | ntfs/open.go:285-309 | the same of the stamped buffer |
| NtfsFixup.ApplyUsa | ntfs/open.go:264-281 | on any buffer, arrays across sector ends included, the words are moved back one after the other; nothing happens without a usable array |
| NtfsFixup.StampUsa | ntfs/open.go:285-309 | on any buffer the number is bumped past 0, and the words are saved and overwritten one after the other |
| NtfsIndex.ScanPacked | ntfs/alloc.go:314-341 | reader, collector and sentinel search all see the entries packed before the sentinel |
| NtfsIndex.EntriesOfHeader | ntfs/alloc.go:314-341 | the raw entries collected from a well-formed index header are its entries |
| NtfsIndex.CollectRawIndexEntries | ntfs/alloc.go:314-341 | the collector's loop computes the raw entry list of a header |
| NtfsNames.CollectIndexEntries | ntfs/read.go:376-412 | the reader's loop computes the reported names: long enough key, inside the data, not of the DOS namespace, not `.` or `..` |
| NtfsNames.NamesAre | ntfs/read.go:376-412 | a well-formed header reports exactly the visible ones of its entries, in order |
| NtfsNames.KeyReads | ntfs/read.go:444-480 | a file name key written out field by field is reported with its name, flags, size and modification time, or not at all for the DOS namespace, a truncated name, `.` and `..` |
| NtfsNames.NewNameIs | ntfs/write.go:355-370 | the key of a new file: parent with sequence number 1, four equal times, no sizes, namespace 3 |
| NtfsNames.NewEntryReads | ntfs/write.go:355-370 | the entry built for a new file is reported under its name, cut to the low byte of its character count |
| NtfsNames.BuiltEntry | ntfs/alloc.go:843-852 | an entry built for a key is well formed and reports its file number and key |
| NtfsIndex.LocateSentinel | ntfs/alloc.go:399-444 | the writers' loop finds the sentinel |
| NtfsIndex.InsertAppends | ntfs/alloc.go:855-890 | inserting into a resident header appends exactly that entry |
| NtfsIndexBlock.UnstampedIsWell | ntfs/alloc.go:230-286 | a fresh block is well formed and holds the given entries |
| NtfsIndexBlock.EndEntry | ntfs/alloc.go:274-277 | the end entry has no key and the last-entry flag only |
| NtfsIndexBlock.DiskBlockReads | ntfs/read.go:415-442 | reading a stamped block through the fixup gives its entries |
| NtfsIndexBlock.BuildINDXBlock | ntfs/alloc.go:245-286 | builds a stamped block that reads as the given entries and carries its block number |
| NtfsIndexBlock.AddEntryToINDXBlock | ntfs/alloc.go:399-444 | appends exactly the entry iff it fits, otherwise leaves the block |
| NtfsPacking.PackKeepsOrder | ntfs/alloc.go:537-554 | spilling keeps every entry, in order |
| NtfsPacking.PackFits | ntfs/alloc.go:537-554 | every block fits |
| NtfsPacking.PackIsMinimal | ntfs/alloc.go:537-554 | no order-preserving packing into fitting blocks uses fewer |
| NtfsPacking.PackEntries | ntfs/alloc.go:537-554 | the loop computes the greedy packing |
| NtfsRecord.Replaced | ntfs/write.go:495-582 | removing and re-appending an attribute changes what is found under its type only |
| NtfsRecord.Rebuilt | ntfs/alloc.go:672-686 | a rebuilt record has the new allocation and bitmap and the old root |
| NtfsRecord.SpilledIs | ntfs/alloc.go:574-596 | a spilled record has the empty root, the allocation and the bitmap |
| NtfsRoom.GrownLengthIs | ntfs/alloc.go:672-686 | length of the rebuilt record, in numbers: old attributes gone, 72 and 32 bytes of headers, all rounded to eight |
| NtfsRoom.SpilledLengthIs | ntfs/alloc.go:574-596 | length of the spilled record, in numbers |
| NtfsDirBlocks.LcnOfVcn | ntfs/alloc.go:359-368 | the cluster at that place of the runlist, sparse and empty runs included, or -1 past its end |
| NtfsDirBlocks.MergeRuns | ntfs/alloc.go:371-385 | merges adjacent runs; the cluster list stays the concatenation |
| NtfsDirBlocks.AddToBlock | ntfs/alloc.go:719-739 | the last block gets the entry iff it has room; no other cluster changes |
| NtfsDirBlocks.WriteBlocks | ntfs/alloc.go:562-572 | block i goes to cluster i of the runlist, all else stays |
| NtfsDirVolume.WalkIndexAlloc | ntfs/read.go:415-442 | on any device and runs: in the order of the clusters, up to the size of the attribute, the names each block shows after the fixup; short reads and blocks without the signature are skipped |
| NtfsDirVolume.BlocksReport | ntfs/read.go:415-442 | for the blocks of a directory, those are the visible ones of its entries, in order |
| NtfsDirVolume.IndexVolume.ReadDirEntries | ntfs/read.go:332-373 | what is visible of the listing: root entries, then the entries of every block |
| NtfsDirVolume.IndexVolume.PutRecord | ntfs/write.go:670-686 | fails iff the record has outgrown its slot |
| NtfsDirVolume.IndexVolume.Spill | ntfs/alloc.go:533-601 | succeeds iff there are clusters for the packed blocks and the record that names them fits its slot; then the listing is old ++ [new], on fresh clusters; on failure the directory is as before |
| NtfsDirVolume.IndexVolume.RepackIndexAlloc | ntfs/alloc.go:613-667 | all blocks and one for the new entry are on newly allocated clusters, the old ones released; the allocation does not fail |
| NtfsDirVolume.IndexVolume.AppendEntryToIndexAlloc | ntfs/alloc.go:697-800 | last-block append, new block or repack, succeeding iff the last block has room, or a cluster is free and the record fits with a new block or after moving all blocks; on success the listing is old ++ [new]; a due repack that fails leaves the record, the released clusters and the blocks moved over them |
| NtfsDirVolume.IndexVolume.AddDirEntry | ntfs/alloc.go:457-528 | succeeds iff the directory takes the entry, as numbers of the old record, bitmap and entries say in each form (`NtfsRoom.Takes`); every successful form makes the listing old ++ [new], and the names read old ++ what the new entry shows; a due repack that fails leaves the old record over moved blocks; every other failed call leaves the directory; no cluster outside the directory and the free ones changes, and every directory on other clusters is as before |
| NtfsDirVolume.LeftBehind | ntfs/alloc.go:765-790 | after a failed repack the directory is still there iff every cluster it names was given a block with the same entries |
| NtfsFullDirectory.FullDirectory | ntfs/alloc.go:697-800 | a concrete device and record that hold a directory of 64 full blocks |
| NtfsFullDirectory.FullLength | ntfs/alloc.go:765-790 | its record fills the 1024 bytes of a slot |
| NtfsFullDirectory.RepackCanFail | ntfs/alloc.go:765-790 | in that directory one more entry makes a repack due that cannot fit, and the directory is lost |
| BtrfsLeaf.KeyRoundTrip | btrfs/open.go:116-130 | a key read back is the key written |
| BtrfsLeaf.KeyOrder | btrfs/open.go:132-152 | the comparison is the total order by object, then item type, then offset |
| BtrfsLeaf.KeyNumbers | btrfs/open.go:132-152 | keys are ordered as the 136-bit numbers of object, type and offset |
| BtrfsLeaf.NoGap | btrfs/write.go:36-45 | every byte between the computed data start and the end of a well-formed leaf belongs to an item |
| BtrfsLeaf.DropTidy | btrfs/write.go:93-140 | closing the gap of a removed item keeps the data area gap-free and disjoint |
| BtrfsLeaf.PutTidy | btrfs/write.go:72-88 | an item placed right below the data keeps the leaf well formed |
| BtrfsNode.LeafDataStart | btrfs/write.go:36-45 | node size minus all item sizes |
| BtrfsNode.LeafFree | btrfs/write.go:22-32 | room for one more descriptor and its data |
| BtrfsNode.LeafFind | btrfs/write.go:143-160 | the slot with exactly the key, or -1 iff there is none |
| BtrfsNode.LeafDelete | btrfs/write.go:93-140 | the leaf stays well formed and holds exactly the other items, keys and bytes unchanged |
| BtrfsInsert.ShiftedStart | btrfs/write.go:66-76 | after the shift the data start is right iff the item goes last or displaces one as long as the last |
| BtrfsInsert.InsertExact | btrfs/write.go:66-88 | an insert keeps the leaf well formed iff the start was right, or the item is empty and its offset not negative |
| BtrfsInsert.UnequalSizes | btrfs/write.go:66-88 | a leaf of two items of 10 and 4 bytes that an insert in front breaks |
| BtrfsInsert.LeafInsert | btrfs/write.go:49-88 | under that condition the item is inserted at its place and every other item is unchanged |
| BtrfsInsert.Redistribute | btrfs/write.go:279-291 | right holds items mid..n-1, left items 0..mid-1, both sorted and well formed |
| BtrfsTree.WalkAscends | btrfs/read.go:16-53 | a walk of a tree in search order meets strictly ascending keys |
| BtrfsTree.SearchStep | btrfs/read.go:87-106 | items with the key are all in the child the search descends to |
| BtrfsTree.WithoutKeeps | btrfs/write.go:344-376 | what a delete leaves are exactly the items with other keys |
| BtrfsVolume.LogToPhys | btrfs/open.go:579-586 | the first chunk that holds the address decides |
| BtrfsVolume.Volume.ReadNode | btrfs/open.go:588-603 | the staged node, or the device's |
| BtrfsVolume.Volume.WriteNode | btrfs/open.go:605-654 | stages the node at its device address with the checksum of its bytes from 32 on; nothing but the checksum bytes is touched |
| BtrfsVolume.Volume.WalkTree | btrfs/read.go:18-53 | visits exactly the items of the tree, in order |
| BtrfsVolume.Volume.SearchTree | btrfs/read.go:57-108 | in a tree ordered by object, type and offset, finds (key, data) iff a walk visits it; levels decrease, so it ends |
| BtrfsVolume.Volume.ScanItems | btrfs/read.go:112-136 | exactly the items of one object and type, by ascending offset before any sorting |
| BtrfsVolume.Volume.BtreeDelete | btrfs/write.go:344-376 | the walk becomes the old one without the key, the tree stays well formed, only its own nodes are written, and those have their checksum right |
| BtrfsVolume.DeleteThenSearch | btrfs/write.go:344-376 | every other key is found as before and the deleted one is not |
| BtrfsLayout.LeafReads | btrfs/read.go:40-51 | a leaf written out byte by byte holds exactly its items, in order |
| BtrfsLayout.InnerReads | btrfs/read.go:29-37 | an inner node written out byte by byte names exactly its keys and children |
| BtrfsLayout.InodeLeaf | btrfs/read.go:57-86 | an inode leaf whose types and offsets disagree is in search order, and its last key is found |
| Ext4Extents.AppendIsUpdate | ext4/write.go:82-210 | appending for a hole is the update of the block map, iff the extent routes to the last leaf and a new leaf starts above all mapped blocks with an index entry left |
| Ext4Extents.NotAccepted | ext4/write.go:167-209 | otherwise some block is looked up wrongly |
| Ext4Extents.FourFullLeaves | ext4/write.go:181-209 | four full leaves: the next block is not mapped by appending it |
| Ext4Extents.HoleBelowLastLeaf | ext4/write.go:153-179 | a hole below the second leaf is still one after appending its extent |
| Ext4Extents.AppendSources | ext4/write.go:82-210 | accepted or not, an append maps no block anywhere new but those of the extent |
| Ext4Nodes.NewExtReads | ext4/write.go:101-107 | a leaf entry read back has block, count and 48-bit address |
| Ext4Nodes.NewIdxReads | ext4/write.go:198-206 | an index entry read back has first block and 48-bit child |
| Ext4Nodes.SearchLeaf | ext4/read.go:77-90 | the first extent that covers the block decides, 0 for a hole |
| Ext4Nodes.SearchIndex | ext4/read.go:92-108 | the last entry before the first that starts above the block |
| Ext4Store.PromotedTree | ext4/write.go:121-154 | promotion moves the four extents to a leaf block with the new one behind them |
| Ext4Room.RoomAccepts | ext4/write.go:116-210 | if all holes of a range fit, the tree accepts the first one |
| Ext4Room.RoomStep | ext4/write.go:116-210 | after that append the remaining holes fit iff all did |
| Ext4Room.FillExact | ext4/write.go:17-76 | appending the holes of a range one after the other maps all of them, and changes no other block, iff they fit: enough capacity, every hole routed to the last leaf, and none below a mapped block once that leaf is full |
| Ext4Room.AffordsStep | ext4/write.go:116-210 | filling a hole takes one block, and one more if the inode or the last leaf is full; what is left is enough for the rest iff all was enough for all |
| Ext4Volume.Volume.AllocBlock | ext4/alloc.go:13-62 | the block was not in use, is the only one that now is, and fits 48 bits; fails iff the groups count no free block |
| Ext4Volume.Volume.SearchExtentNode | ext4/read.go:71-115 | computes the block map of the tree |
| Ext4Volume.Volume.LogicalToPhysical | ext4/read.go:62-67 | the same, or an error without the extents flag |
| Ext4Volume.Volume.AppendExtentToInode | ext4/write.go:82-112 | succeeds iff no leaf is needed or there is a block for it; then the stored tree becomes the appended one; no block in use outside its leaves changes |
| Ext4Volume.Volume.AppendExtentIndirect | ext4/write.go:116-210 | the same on the way out of the inode and in leaf blocks |
| Ext4Volume.Volume.WriteFileRange | ext4/write.go:17-76 | on the bitmap allocator: stops only without the extents flag, or at a hole when no block is left for it or its leaf; if the holes fit the tree it succeeds iff there are blocks for all of them and their leaves; the file stays well formed and no block in use by others changes; afterwards the range is mapped and all else as before iff its holes fit the tree, and then the written bytes of the file, and no others, change; the size grows as far as was written |
| Ext4Volume.Volume.ReadFileRange | ext4/read.go:118-159 | the bytes of the file from the offset on, never past its size; nothing at the end of the file or without the extents flag |
| Ext4File.WriteThenRead | ext4/write.go:17-76 | reading a range just written gives the data |
| Ext4File.WriteKeepsRead | ext4/write.go:17-76 | reading any other range gives what it gave before |
| Ext4File.OtherFileKept | ext4/write.go:17-76 | another file with no block in common stays well formed, reads the same at every byte, and still has no block in common |
| Ext4DirBlock.ReadEntries | ext4/read.go:192-211 | a reader sees exactly the live, named records of the tiling |
| Ext4DirBlock.AddedEnts | ext4/write.go:253-275 | splitting slack or reusing a deleted record keeps the tiling, inserts what a reader sees of the entry and keeps the rest |
| Ext4DirBlock.SeenWhole | ext4/write.go:267-271 | an entry is seen as it was given iff it has an inode and a name of 1 to 255 bytes (else the length byte cuts the name) |
| Ext4DirBlock.AddEntry | ext4/write.go:241-277 | uses the first record with room, iff there is one |
| Ext4Directory.WithoutEnts | ext4/write.go:334-346 | where the merged length fits, clearing and merging drops exactly the first entry of the name from what a reader sees |
| Ext4Directory.RemoveEntry | ext4/write.go:321-350 | removes the first record of that name, iff there is one; the block keeps its tiling iff the merged length fits its field |
| Ext4Directory.MergeExact | ext4/write.go:334-346 | what is left is a list of records iff the merged length is below 65536 |
| Ext4Directory.MergeTooLong | ext4/write.go:334-346 | a block of two records whose merged length is stored as 0 |
| Ext4Directory.AddThenRemove | ext4/write.go:303-357 | removing a name that was just added gives the listing from before |
| Ext4DirVolume.ReadDir | ext4/read.go:171-214 | the listing of all blocks, found through the extent tree |
| Ext4DirVolume.AddDirEntry | ext4/write.go:215-300 | in the first record with room of the first block that has one, or a new block at the end: what is seen of the entry is inserted and all others stay, iff a block or the tree takes it, else it is lost; the size counts the blocks again iff also its low word held; fails iff the directory has blocks and no extents flag, or a new block is needed and there is none for it or its leaf; no block in use by others changes |
| Ext4FullDirectory.FullDirectory | ext4/write.go:181-209 | a stored directory of 336 full blocks that loses every further entry |
| Ext4FullDirectory.LongDirectory | ext4/write.go:279-300 | a stored directory of 131071 full blocks of 32 KiB that takes an entry and then has size 0 |
| Ext4DirVolume.RemoveDirEntry | ext4/write.go:303-357 | over all blocks: drops the first entry of that name, fails iff there is none or without the extents flag; no block in use by others changes |
| Ext4Allocator.NumberInverse | ext4/alloc.go:56-73 | block number and (group, bit) are inverse for both values of firstDataBlock |
| Ext4Allocator.MarkedInv | ext4/alloc.go:44-54 | setting or clearing a bit keeps group counts equal to clear bits and their sum equal to the superblock's word |
| Ext4Allocator.StepKeepsInv | ext4/alloc.go:25-92 | a step keeps the counters right and changes the use of its own block only |
| Ext4Allocator.RunKeepsInv | ext4/alloc.go:13-92 | the same in every state of every run |
| Ext4Allocator.HandedOutOnce | ext4/alloc.go:13-92 | between two hand-outs of a block it was given back |
| Ext4Allocator.FindFreeBit | ext4/alloc.go:181-188 | the lowest clear bit below the limit, or -1 iff there is none |
| Ext4Allocator.Allocator.AllocBlockInGroup | ext4/alloc.go:25-62 | takes the lowest clear bit of the group, failing only if it has none |
| Ext4Allocator.Allocator.AllocBlock | ext4/alloc.go:13-23 | the lowest free block of the first group with one, from the preferred group on; fails iff no group has a clear bit |
| Ext4Allocator.Allocator.FreeBlock | ext4/alloc.go:65-92 | is the Gave step of the state machine |
| Ext4Backups.HasSuperBackup | mkfs/ext4/layout.go:198-212 | for group numbers up to 1808548329: true exactly for 0, 1 and the powers of 3, 5 and 7, iff the number is not 1808548329 |
| Ext4Backups.BackupExact | mkfs/ext4/layout.go:198-212 | the same of the function over all three bases |
| Ext4Backups.WrapMisleads | mkfs/ext4/layout.go:198-212 | 1808548329, which is 5^14 mod 2^32, is taken for a power and is none: the first wrong answer |
| Ext4Layout.PlanFacts | mkfs/ext4/layout.go:64-117 | bounds of group count, inode count, descriptor and table blocks for every size and inode ratio |
| Ext4Layout.PlanExact | mkfs/ext4/layout.go:64-100 | inodes per group, descriptor blocks and reserved blocks are the fewest that do, within their limits, for every size and inode ratio |
| Ext4Layout.ComputeLayout | mkfs/ext4/layout.go:64-194 | the loops compute the closed form of every group; the sizes are exact, and the journal is the largest one within 32768 blocks, a quarter of the filesystem (or 1024) and what group 0 has free but two, or empty |
| Ext4Layout.StructuresChain | mkfs/ext4/layout.go:119-191 | the structures of a group follow each other without gap or overlap, inside the group |
| Ext4Layout.ChainDisjoint | mkfs/ext4/layout.go:119-191 | hence no two of them overlap |
| Ext4Layout.GroupsTile | mkfs/ext4/layout.go:119-125 | the groups tile the filesystem |
| Ext4Layout.GroupsApart | mkfs/ext4/layout.go:119-191 | structures of different groups do not meet and stay inside the filesystem |
| Ext4Format.SetBits | mkfs/ext4/bitmaps.go:48-53 | sets exactly those bits |
| Ext4Format.BuildBlockBitmap | mkfs/ext4/bitmaps.go:6-30 | used are the blocks before the data area and those that do not exist, in every layout |
| Ext4Format.BuildInodeBitmap | mkfs/ext4/bitmaps.go:35-45 | used are the first eleven inodes of group 0 and those that do not exist |
| Ext4Format.BlocksCounted | mkfs/ext4/bitmaps.go:6-30 | clear bits = recorded free blocks, in group 0 iff two blocks are left for the directories |
| Ext4Format.InodesCounted | mkfs/ext4/bitmaps.go:35-45 | clear bits = recorded free inodes |
| Ext4Format.Write | mkfs/ext4/write.go:9-168 | succeeds iff the journal has a block and every later group has room for its structures; then exactly totalBlocks x 4096 bytes, with every structure where the layout says |
| Ext4Format.NoRoomForJournal | mkfs/ext4/layout.go:163-174 | a size at which every group has room and the journal has no block |
| Ext4Format.ShortLastGroup | mkfs/ext4/layout.go:119-151 | a size whose last group has no room for its structures |
| Regions.BuildRegions | region.go:27-82 | for any partitions: the partition regions are the partitions by ascending start, the boot region comes first and the backup region last; no gap region is empty; the regions tile [0, fileSize) iff the partitions follow one another and they and the boot region end in time; unless one reaches below byte 0 they cover the file in any case |
| Regions.IntoBackup | region.go:27-82 | a GPT partition that ends in the last sector, where they do not |
| Regions.ShortImage | region.go:27-82 | an MBR image of 100 bytes, where the boot region does not |
| Regions.SortSpans | region.go:35-39 | a sorted permutation |
| Regions.CopyRange | detach.go:61-83 | copies what of the range is on the image, whatever length single reads return; fails iff the range reaches below byte 0 |
| Regions.CopyRegions | detach.go:42-48 | succeeds iff no region reaches below byte 0; then exactly the bytes inside a region are copied |
| Gpt.AssignExtents | builder.go:113-127 | places the partitions one behind the other, failing iff one exceeds the usable range; then that one and those before it have their place, the rest none |
| Gpt.AssignedApart | builder.go:113-127 | assigned partitions are disjoint, inside the usable range and at least as large as asked for |
| Gpt.EmptyAtEnd | builder.go:113-127 | partitions that start together are empty: the range was used up before them |
| Gpt.DecodeEntry | builder.go:157-172 | an encoded entry decodes to the partition |
| Gpt.FillEntries | builder.go:157-172 | the entry array holds the entries in order and zeros behind them |
| Gpt.Builder.AddPartition | builder.go:85-93 | the partition is queued behind the others |
| Gpt.Builder.Commit | builder.go:102-192 | on success protective MBR, both entry arrays and both headers are on the disk, the headers naming themselves, each other, the usable range, the same fresh GUID and table checksum and their own right checksum; the partitions have the assigned places and fresh GUIDs, and everything between is untouched; else nothing was written |
| Gpt.HeaderReads | builder.go:295-315 | a header sector reads back field by field, and its checksum is that of the header with the field zeroed |
| Gpt.Parse | partition/gpt/gpt.go:53-115 | for every disk: no GPT iff no MBR entry has type 0xEE; parsed iff there is a signature and the entry area is on the disk; then the non-empty entries in order |
| Gpt.ParseBack | partition/gpt/gpt.go:53-115 | a committed disk parses to exactly the assigned partitions |
| Mbr.Parse | partition/mbr/mbr.go:31-74 | for every disk: nothing without a signature or with a used entry of type 0xEE, else the used entries that start on the disk, in order |
| Mbr.ListedParts | partition/mbr/mbr.go:31-74 | these have sectors, start on the disk and have ascending numbers |
| Mbr.ReadsBack | partition/mbr/mbr.go:31-74 | a table written out entry by entry is read as the partitions it stands for, or as none if a used entry is protective |
| Mbr.AllMeant | partition/mbr/mbr.go:31-74 | for an ordinary table those are all its entries, in bytes |
| Images.Attach | attach.go:25-74 | for every disk: fails iff there is no boot sector or an announced GPT cannot be read; the partitions are those of the GPT, else of the MBR, else the whole disk, and the regions are built from them |
| Images.MbrAttached | attach.go:25-74 | a disk with an ordinary MBR is attached with its partitions where their entries say |
| Images.Detach | detach.go:42-83 | unless a region reaches below byte 0, the copy is the image, whatever its partitions are |
| Images.BuiltSpans | builder.go:102-192 | what is attached after a commit are the assigned partitions |
| Images.BuiltSeparate | builder.go:102-127 | partitions assigned by a commit are separate, empty ones included, and end before the backup header |
| Images.BuildAndDetach | builder.go:102-192 | build, attach, write out: the attached partitions are the assigned ones, the regions tile the image, and the copy is the image |

## Left out

- The xfs driver as a whole.
- Btrfs file data, subvolumes, chunk growth, and `btreeInsert`/`splitLeaf` beyond leaf insertion and the two redistribution loops.
- ext4 `createFile` and path-level operations, the inode allocator, inode persistence, and extent trees deeper than one level.
- The staging of ext4 bitmap, descriptor and superblock blocks: the allocator keeps bitmaps and counters in fields.
- Ext4Allocator.Allocator.AllocBlock: each group's bitmap is a field of the group; that bitmap blocks of different groups are different blocks is taken for granted, and `prefer` must be the number of a group.
- Ext4Volume.Volume.WriteFileRange: what a reader gets from a range whose holes do not fit the tree is not stated; that the file stays well formed and others are left alone is.
- Ext4DirVolume.RemoveDirEntry: blocks of at most 32 KiB, in which every merged length fits.
- Ext4DirVolume.AddDirEntry: directories whose size is a whole number of blocks of at most 32 KiB, all of them mapped; times of the inode are left out.
- Ext4Backups.HasSuperBackup: group numbers above 1808548329, where the answer may be wrong again or the loop need not end.
- Ext4Layout.ComputeLayout: sizes from 16 MiB up to 1808548329 groups of 128 MiB; beyond, backups are numbered wrongly.
- FAT directory slots and searching them, long names, and the fixed root directory of FAT12/16.
- FatVolume.Volume.Flush: the device is addressed by whole sectors; FAT32 sectors of at least 512 bytes, and a device of at least 8 of them.
- NTFS removal from $INDEX_ALLOCATION, growth of $MFT, attribute byte encodings (a record is a list of typed attributes with sizes) and the contents of $BITMAP.
- NtfsDirVolume.IndexVolume.AddDirEntry: index blocks and clusters have the same size, as the code allocates one cluster a block, and an entry fits one block.
- NtfsStore.Volume.AllocAndWrite: a failed allocation may leave clusters marked, as the code does not roll back; only that no cluster becomes free is stated.
- Names inside index entries and GPT entries are byte fields: UTF-16 conversion, GUID formatting and timestamps are not modelled; checksums of a GPT and of Btrfs nodes are those of a given function.
- Gpt.Builder.Commit: disks of at least 68 sectors, at most 128 partitions, none with a type GUID of zeros.
- Gpt.Parse: an entry area too large to allocate makes the code panic; the model says it cannot be read.
- NtfsDirVolume.WalkIndexAlloc: one cluster a block; a read in front of the volume, where a sparse run leads it, counts as failed.
- NtfsNames.CollectIndexEntries: a header whose entries start behind its end makes the code panic; the model reports nothing of it.
- NtfsFixup.StampUsa: a usable array without room for its sequence number makes the code panic.
- I/O errors of the device, mutexes, file wrappers, path cleaning and the remaining formatters.
