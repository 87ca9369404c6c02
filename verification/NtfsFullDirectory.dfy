/** A directory of 64 full index blocks whose record has no byte to spare: the next entry makes a repack due that cannot
    succeed, and that loses entries. */
module NtfsFullDirectory {
  import opened Wrappers
  import opened Bytes
  import opened Chunks
  import opened NtfsRunlist
  import opened NtfsAllocator
  import opened NtfsStore
  import opened NtfsFixup
  import opened NtfsIndex
  import opened NtfsNames
  import opened NtfsIndexBlock
  import opened NtfsRecord
  import opened NtfsDirectory
  import opened NtfsDirBlocks
  import opened NtfsRoom
  import opened NtfsDirVolume

  /** The key of file i: a name of 255 characters, the first of them U+0100 + i. */
  function NameKey(i: nat): (key: seq<byte>)
    requires i < 256
    ensures |key| == 576 && key[66] == i
  {
    Zeros(64) + [255, 1, i, 1] + seq(508, k => if k % 2 == 0 then 0x61 else 0)
  }

  function FileEntry(i: nat): Entry
    requires i < 256
  {
    BuildIndexEntry(24 + i, NameKey(i))
  }

  lemma EntryOf(i: nat)
    requires i < 256
    ensures IsEntry(FileEntry(i)) && |FileEntry(i)| == 592 && FileEntry(i)[82] == i
    ensures |FileEntry(i)| <= Usable(1024) < 2 * |FileEntry(i)|
  {
    hide *;
    FileEntryIs(i);
    BuiltEntry(24 + i, NameKey(i));
    KeyInside(24 + i, NameKey(i), 66);
    Numbers();
  }

  lemma FileEntryIs(i: nat)
    requires i < 256
    ensures FileEntry(i) == BuildIndexEntry(24 + i, NameKey(i))
  {
  }

  lemma Numbers()
    ensures Round8(16 + 576) == 592 <= Usable(1024) < 2 * 592
  {
  }

  lemma KeyInside(mftNum: nat, key: seq<byte>, k: nat)
    requires mftNum < 0x1_0000_0000_0000 && k < |key| < 0xFFE0
    ensures 16 + k < |BuildIndexEntry(mftNum, key)| && BuildIndexEntry(mftNum, key)[16 + k] == key[k]
  {
    hide Put64, Put16, Round8;
  }

  /** Block i as it is stored: stamped, with one entry. */
  ghost function StoredBlock(i: nat): (b: seq<byte>)
    requires i < 64
    ensures |b| == 1024 && DiskBlock(b, [FileEntry(i)], 1024)
  {
    EntryOf(i);
    OneEntryFits(FileEntry(i), 1024);
    UnstampedIsWell(i, [FileEntry(i)], 1024);
    StampedIsDiskBlock(Unstamped(i, Concat([FileEntry(i)]), 1024), [FileEntry(i)], 1024);
    Stamped(Unstamped(i, Concat([FileEntry(i)]), 1024), Guarded(Unstamped(i, Concat([FileEntry(i)]), 1024)))
  }

  /** A device of 66 clusters: cluster 1 is free, the blocks follow from cluster 2 on. */
  ghost function FullDisk(): seq<byte> {
    Concat(FullClusters())
  }

  ghost function FullClusters(): (cs: seq<seq<byte>>)
    ensures |cs| == 66 && forall k :: 0 <= k < 66 ==> |cs[k]| == 1024 && (k >= 2 ==> cs[k] == StoredBlock(k - 2))
  {
    seq(66, k requires 0 <= k < 66 => if k < 2 then Zeros(1024) else StoredBlock(k - 2))
  }

  function FullBits(): (bits: seq<bool>)
    ensures |bits| == 72 && forall k :: 0 <= k < 72 ==> bits[k] == (k != 1)
  {
    seq(72, k => k != 1)
  }

  function FullDir(): Dir {
    Dir([], seq(64, i requires 0 <= i < 64 => [FileEntry(i)]), seq(64, i => i + 2))
  }

  /** A record of 1024 bytes: the index of 64 blocks, and other attributes in the rest. */
  ghost function FullRecord(): Record {
    Record(1024, 56, [NamedRoot(Zeros(16), EmptyHeader()), OtherAttr(760), NamedAlloc(OldRuns(), Zeros(4), Times(64, 1024)), NamedBitmap(8)])
  }

  ghost function OldRuns(): seq<byte> {
    Encode([Run(2, 64)], 0)
  }

  lemma OldRunsAre()
    ensures |OldRuns()| == 4 && Names(OldRuns() + Zeros(4), FullDir().list) && AllStorable([Run(2, 64)])
    ensures Decode(OldRuns() + Zeros(4), 0, 0) == Ok([Run(2, 64)])
  {
    assert [Run(2, 64)][1..] == [];
    assert FitsUnsigned(64, 1) && FitsSigned(2, 1);
    EncodedNames([Run(2, 64)], Zeros(4));
    DecodeEncode([Run(2, 64)], Zeros(4));
    OneRun(Run(2, 64));
    assert Clusters([Run(2, 64)]) == FullDir().list;
  }

  lemma OnDevice(k: nat)
    requires k < 66
    ensures Held(FullDisk(), 1024, k)
    ensures k >= 2 ==> Cluster(FullDisk(), 1024, k) == StoredBlock(k - 2)
  {
    hide StoredBlock, FullClusters, Times, Chop, Concat;
    ChopConcat(FullClusters(), 1024);
    ChopAt(FullDisk(), 1024, 66, k);
  }

  lemma FullBlocks()
    ensures BlocksAt(FullDisk(), 1024, FullDir().list, FullDir().blocks)
  {
    hide FullDisk, DiskBlock, Held, Cluster, FileEntry, StoredBlock;
    var d := FullDir();
    forall j | 0 <= j < 64 ensures Held(FullDisk(), 1024, d.list[j]) && DiskBlock(Cluster(FullDisk(), 1024, d.list[j]), d.blocks[j], 1024) {
      OnDevice(j + 2);
    }
  }

  /** The record is exactly full. */
  lemma FullLength()
    ensures End(FullRecord()) + 8 == 1024 == FullRecord().len
  {
    OldRunsAre();
    hide OldRuns, EmptyHeader;
    var a, b, c, e := NamedRoot(Zeros(16), EmptyHeader()), OtherAttr(760), NamedAlloc(OldRuns(), Zeros(4), Times(64, 1024)), NamedBitmap(8);
    assert a.size == 80 && c.size == 80 && e.size == 40;
    assert [a, b, c, e][..3] == [a, b, c] && [a, b, c][..2] == [a, b];
    TwoTotal(a, b);
  }

  lemma TwoTotal(a: Attr, b: Attr)
    ensures Total([a, b]) == a.size + b.size
  {
    var one, none: seq<Attr> := [a], [];
    assert one[..0] == none && Total(none) == 0 && Total(one) == a.size;
    assert [a, b][..1] == one;
  }

  lemma FoundAtIndex(attrs: seq<Attr>, k: Kind, i: nat)
    requires i < |attrs| && Is(attrs[i], k) && forall j :: 0 <= j < |attrs| && j != i ==> !Is(attrs[j], k)
    ensures Find(attrs, k) == i
  {
    var f := Find(attrs, k);
  }

  /** With any runlist for 65 blocks the record is too long: the bitmap alone needs eight bytes more. */
  lemma GrowsPast(runs: seq<Run>)
    requires AllStorable(runs)
    ensures GrownLength(FullRecord(), runs, 64) > 1024
  {
    hide Encode, EmptyHeader, OldRuns, Find, Total;
    var rec := FullRecord();
    FullLength();
    OldRunsAre();
    FoundAtIndex(rec.attrs, AllocKind, 2);
    FoundAtIndex(rec.attrs, BitmapKind, 3);
    assert SizeOf(rec, AllocKind) == 80 && SizeOf(rec, BitmapKind) == 40;
    EncodeEnds(runs);
  }

  lemma EncodeEnds(runs: seq<Run>)
    requires AllStorable(runs)
    ensures |Encode(runs, 0)| >= 1
  {
  }

  /** Record, device and bitmap store the directory, and the only free cluster is on the device. */
  lemma FullDirectory()
    ensures SizeOk(1024) && DirAt(FullRecord(), FullDisk(), 1024, FullBits(), FullDir()) && EntriesFit(FullDir().root, 1024)
    ensures FreeHeld(FullDisk(), 1024, FullBits())
  {
    hide *;
    FullBlocks();
    FullParts();
    OnDevice(1);
    OneFree();
    StoredDir(FullRecord(), FullDisk(), FullBits(), FullDir());
  }

  lemma StoredDir(r: Record, disk: seq<byte>, bits: seq<bool>, d: Dir)
    requires Simple(r) && RootAt(r, d.root) && AllocAt(r, 1024, d.list) && BlocksAt(disk, 1024, d.list, d.blocks) && Claimed(bits, d.list)
    requires d.root == [] && Held(disk, 1024, 1) && FreeSet(bits) == {1}
    ensures SizeOk(1024) && DirAt(r, disk, 1024, bits, d) && EntriesFit(d.root, 1024) && FreeHeld(disk, 1024, bits)
  {
    hide Simple, RootAt, AllocAt, BlocksAt, Claimed, Held, FreeSet;
  }

  lemma OneFree()
    ensures FreeSet(FullBits()) == {1} && Claimed(FullBits(), FullDir().list)
  {
  }

  lemma FullParts()
    ensures Simple(FullRecord()) && RootAt(FullRecord(), FullDir().root) && AllocAt(FullRecord(), 1024, FullDir().list) && FullDir().root == []
  {
    OldRunsAre();
    EmptyHeaderHolds();
    hide OldRuns, EmptyHeader, Header, Names, Find;
    var rec := FullRecord();
    FoundAtIndex(rec.attrs, RootKind, 0);
    FoundAtIndex(rec.attrs, AllocKind, 2);
    FoundAtIndex(rec.attrs, BitmapKind, 3);
  }

  /** What the allocator has for a new block, and for a repack. */
  lemma FullRuns()
    ensures NewRuns(FullBits(), 1) == Some([Run(1, 1)])
    ensures NewRuns(Marked(FullBits(), FullDir().list, false), 65) == Some([Run(1, 65)])
  {
    var bits, freed := FullBits(), Marked(FullBits(), FullDir().list, false);
    forall k | 1 <= k < 66 ensures !freed[k] {
      if k >= 2 { assert FullDir().list[k - 2] == k; }
    }
    assert LowestRun(bits, 1, 1) && LowestRun(freed, 1, 65);
    LowestTaken(bits, 1, 1);
    LowestTaken(freed, 1, 65);
  }

  /** The next file makes a repack due, the record does not fit afterwards either, and then block 0 of the record lies where
      the repack put block 1: the directory has lost its first entry. */
  lemma RepackCanFail()
    ensures IsEntry(FileEntry(64)) && |FileEntry(64)| <= Usable(1024)
    ensures MustRepack(FullRecord(), FullBits(), FullDir(), FileEntry(64), 1024, 1024) && !CompactFits(FullRecord(), FullBits(), FullDir(), 1024)
    ensures !StillReads(FullBits(), FullDir(), FileEntry(64))
  {
    hide *;
    EntryOf(64);
    Shifted();
    LastFull();
    FullRuns();
    RecordRuns();
    TwoRuns();
    GrowsPast([Run(2, 64), Run(1, 1)]);
    GrowsPast([Run(1, 65)]);
    FirstTwo();
    DueIff(FullRecord(), FullBits(), FullDir(), FileEntry(64), 1024, 1024);
    CompactIff(FullRecord(), FullBits(), FullDir(), 1024);
  }

  lemma LastFull()
    ensures !LastHasRoom(FullDir(), FileEntry(64), 1024)
  {
    EntryOf(63);
    EntryOf(64);
    ConcatOne(FileEntry(63));
    hide FileEntry, Usable, IsEntry, Concat;
    assert FullDir().blocks[63] == [FileEntry(63)];
  }

  lemma RecordRuns()
    ensures Get(FullRecord(), AllocKind).Some? && RunsOf(FullRecord()) == [Run(2, 64)]
    ensures AllStorable([Run(2, 64), Run(1, 1)]) && AllStorable([Run(1, 65)])
  {
    OldRunsAre();
    hide OldRuns, EmptyHeader, Decode, Find;
    FoundAtIndex(FullRecord().attrs, AllocKind, 2);
  }

  lemma TwoRuns()
    ensures Merge([Run(2, 64)], [Run(1, 1)]) == [Run(2, 64), Run(1, 1)]
  {
    assert [Run(1, 1)][..0] == [] && Merge([Run(2, 64)], []) == [Run(2, 64)];
  }

  lemma Shifted()
    ensures !StillReads(FullBits(), FullDir(), FileEntry(64))
  {
    EntryOf(0);
    EntryOf(1);
    FullRuns();
    OneRun(Run(1, 65));
    FirstTwo();
    hide *;
    MovedRuns(FullBits(), FullDir(), [Run(1, 65)]);
    LostFirst(FullBits(), FullDir(), FileEntry(64), FileEntry(0), FileEntry(1));
  }

  lemma FirstTwo()
    ensures |FullDir().list| == 64 == |FullDir().blocks| && FullDir().list[0] == 2
    ensures FullDir().blocks[0] == [FileEntry(0)] && FullDir().blocks[1] == [FileEntry(1)]
  {
    hide FileEntry;
  }

  lemma MovedRuns(bits: seq<bool>, d: Dir, runs: seq<Run>)
    requires NewRuns(Marked(bits, d.list, false), |d.list| + 1) == Some(runs)
    ensures MovedTo(bits, d) == Clusters(runs)
  {
    hide NewRuns, Marked, Clusters;
  }

  /** The first block is on cluster 2, but a repack from cluster 1 on puts the second one there. */
  lemma LostFirst(bits: seq<bool>, d: Dir, e: Entry, a: Entry, b: Entry)
    requires |d.list| >= 2 && |d.blocks| >= 2 && d.list[0] == 2 && d.blocks[0] == [a] && d.blocks[1] == [b] && a != b
    requires MovedTo(bits, d) == Extent(Run(1, 65))
    ensures !StillReads(bits, d, e)
  {
    hide MovedTo;
    assert !Again(MovedTo(bits, d), d.blocks + [[e]], 2, [a]);
  }
}
