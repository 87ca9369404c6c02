/** Directories on which adding an entry goes wrong: one whose extent tree takes no further block, and one whose size runs
    over its low word. */
module Ext4FullDirectory {
  import opened Bytes
  import opened Chunks
  import opened Ext4DirBlock
  import opened Ext4Directory
  import opened Ext4Extents
  import opened Ext4Nodes
  import opened Ext4Store
  import opened Ext4File
  import opened Ext4DirVolume

  /** Letters that number record j of block i. */
  function Letters(i: nat, j: nat): (s: seq<byte>)
    ensures |s| == 8
  {
    [0x61 + i % 16, 0x61 + i / 16 % 16, 0x61 + i / 256 % 16, 0x61 + i / 4096 % 16, 0x61 + i / 65536 % 16, 0x61 + j % 16, 0x61 + j / 16 % 16, 0x2D]
  }

  /** Record j of block i: a file name of 248 bytes, which fills 256. */
  function FullRecord(i: nat, j: nat): (p: seq<byte>)
    ensures |p| == 256
  {
    Filled(Zeros(256), DirEnt(12 + (128 * i + j) % 0x8000_0000, Letters(i, j) + seq(240, _ => 0x61), 1))
  }

  lemma RecordFull(i: nat, j: nat)
    ensures Record(FullRecord(i, j)) && Slack(FullRecord(i, j)) == 0
  {
    var e := DirEnt(12 + (128 * i + j) % 0x8000_0000, Letters(i, j) + seq(240, _ => 0x61), 1);
    hide Letters;
    FilledIs(Zeros(256), e);
    FilledFields(Zeros(256), e);
    hide Filled, Put16, Put32;
    assert Seen(e) != [];
  }

  function FullBlock(i: nat, per: nat): (parts: seq<seq<byte>>)
    ensures |parts| == per && forall j :: 0 <= j < per ==> parts[j] == FullRecord(i, j)
  {
    seq(per, j requires 0 <= j < per => FullRecord(i, j))
  }

  /** n blocks of `per` full records each. */
  function FullBlocks(n: nat, per: nat): (dir: Dir)
    ensures |dir| == n && forall i :: 0 <= i < n ==> dir[i] == FullBlock(i, per)
  {
    seq(n, i requires 0 <= i < n => FullBlock(i, per))
  }

  lemma BlockTilesFull(i: nat, per: nat)
    requires per <= 128
    ensures |Concat(FullBlock(i, per))| == Times(per, 256) && Tiles(Concat(FullBlock(i, per)), FullBlock(i, per))
  {
    hide Record, FullRecord, Slack, Concat;
    ConcatLength(FullBlock(i, per), 256);
    TimesIsProduct(per, 256);
    forall j | 0 <= j < per ensures Record(FullBlock(i, per)[j]) {
      RecordFull(i, j);
    }
  }

  lemma NoneHasRoom(n: nat, per: nat, need: nat)
    requires need >= 1
    ensures AllBlocks(FullBlocks(n, per)) && NoRoom(FullBlocks(n, per), need)
  {
    hide Record, FullRecord, Slack;
    forall i | 0 <= i < n ensures AllRecords(FullBlocks(n, per)[i]) && BlockFull(FullBlocks(n, per)[i], need) {
      forall j | 0 <= j < per ensures Record(FullBlock(i, per)[j]) && Slack(FullBlock(i, per)[j]) == 0 {
        RecordFull(i, j);
      }
    }
  }

  /** File block i of the directory is device block base + i, and nothing follows. */
  ghost predicate Linear(t: Tree, n: nat, base: nat)
    requires Sound(t)
  {
    forall b: nat :: Lookup(t, b) == if b < n then base + b else 0
  }

  /** What block x of a device holds: leaf blocks first, and the blocks of the directory from `base` on. */
  function BlockFor(leaves: seq<seq<byte>>, base: nat, per: nat, x: nat): seq<byte> {
    if 1 <= x <= |leaves| then leaves[x - 1] else if x < base then [] else Concat(FullBlock(x - base, per))
  }

  function DeviceFor(leaves: seq<seq<byte>>, base: nat, n: nat, per: nat): (dev: Device)
    ensures dev.bs == 256 * per && |dev.blocks| == base + n
    ensures forall x :: 0 <= x < base + n ==> dev.blocks[x] == BlockFor(leaves, base, per, x)
  {
    Device(seq(base + n, x requires 0 <= x < base + n => BlockFor(leaves, base, per, x)), 256 * per)
  }

  lemma LinearDirectory(dev: Device, live: set<nat>, raw: seq<byte>, t: Tree, leaves: seq<seq<byte>>, base: nat, n: nat, per: nat)
    requires dev == DeviceFor(leaves, base, n, per) && |leaves| < base && per <= 128 && n <= 0x1_0000_0000
    requires SizeOk(dev.bs) && TreeAt(dev, map[], raw, t) && LeavesIn(t, live)
    requires Sound(t) && Linear(t, n, base) && (forall x :: x in At(t) ==> x < base) && (t.Indexed? ==> Route(t.firsts, n) == |t.firsts| - 1)
    requires BlocksOf(base, n) <= live
    ensures DirAt(dev, map[], live, raw, t, FullBlocks(n, per))
  {
    hide Lookup, Route, FullBlock, TreeAt, LeavesIn, At, Sound, DeviceFor, HoldsRecords, BlockOk;
    var none: Dirty, dir := map[], FullBlocks(n, per);
    forall i | 0 <= i < n ensures HoldsRecords(dev, none, Lookup(t, i), dir[i]) {
      BlockHere(leaves, base, n, per, i);
    }
    forall b: nat | Lookup(t, b) != 0 ensures Lookup(t, b) in live && Lookup(t, b) !in At(t) && BlockOk(dev, map[], Lookup(t, b)) {
      assert b < n && Lookup(t, b) == base + b && base + b in BlocksOf(base, n);
      BlockHere(leaves, base, n, per, b);
    }
  }

  predicate Between(x: nat, base: nat, n: nat) {
    base <= x < base + n
  }

  function BlocksOf(base: nat, n: nat): set<nat> {
    set x: nat | x < base + n && Between(x, base, n)
  }

  lemma BlockHere(leaves: seq<seq<byte>>, base: nat, n: nat, per: nat, i: nat)
    requires |leaves| < base && per <= 128 && i < n
    ensures HoldsRecords(DeviceFor(leaves, base, n, per), map[], base + i, FullBlock(i, per))
    ensures BlockOk(DeviceFor(leaves, base, n, per), map[], base + i)
  {
    BlockTilesFull(i, per);
    TimesIsProduct(per, 256);
    hide Tiles, FullBlock, Concat;
    var dev := DeviceFor(leaves, base, n, per);
    assert dev.blocks[base + i] == BlockFor(leaves, base, per, base + i);
  }

  /** A leaf with the first n extents. */
  function LeafBlock(exts: seq<Ext>, n: nat, bs: nat): (r: seq<byte>)
    requires 1 <= n <= |exts| && EntryOff(n) <= bs
    ensures |r| == bs
  {
    if n == 1 then SingleLeaf(exts[0], bs) else Grown(LeafBlock(exts, n - 1, bs), n - 1, NewExt(exts[n - 1]))
  }

  lemma {:induction false} LeafBlockReads(exts: seq<Ext>, n: nat, bs: nat)
    requires 1 <= n <= |exts| < 0xFFFF && EntryOff(n) <= bs && AllOk(exts)
    ensures LeafBytes(LeafBlock(exts, n, bs), exts[..n])
  {
    hide LeafBytes, SingleLeaf, Grown, NewExt;
    if n == 1 {
      SingleLeafReads(exts[0], bs);
      assert exts[..1] == [exts[0]];
    } else {
      LeafBlockReads(exts, n - 1, bs);
      LeafGrown(LeafBlock(exts, n - 1, bs), exts[..n - 1], exts[n - 1]);
      assert exts[..n] == exts[..n - 1] + [exts[n - 1]];
    }
  }

  /** What a full leaf maps. */
  lemma {:induction false} LookFull(block: nat, phys: nat, k: nat, b: nat)
    requires k <= 84
    ensures Look(FullLeaf(block, phys)[k..], b) == if block + k <= b < block + 84 then phys + (b - block) else 0
    decreases 84 - k
  {
    var s := FullLeaf(block, phys);
    if k < 84 {
      LookFull(block, phys, k + 1, b);
      assert s[k..][0] == s[k] && s[k..][1..] == s[k + 1..];
    }
  }

  /** Four full leaves of 84 single-block extents, for 336 blocks. */
  function FullTree(): Tree {
    Indexed([0, 84, 168, 252], [1, 2, 3, 4], [FullLeaf(0, 1000), FullLeaf(84, 1084), FullLeaf(168, 1168), FullLeaf(252, 1252)])
  }

  function FullLeaves(): (leaves: seq<seq<byte>>)
    ensures |leaves| == 4
  {
    seq(4, i requires 0 <= i < 4 => LeafBlock(FullLeaf(84 * i, 1000 + 84 * i), 84, 1024))
  }

  /** The inode's node: an index entry for each leaf. */
  function FullNode(): seq<byte> {
    Grown(Grown(Grown(Promoted(1), 1, NewIdx(84, 2)), 2, NewIdx(168, 3)), 3, NewIdx(252, 4))
  }

  lemma FullNodeReads()
    ensures |FullNode()| == 60 && IndexBytes(FullNode(), [0, 84, 168, 252], [1, 2, 3, 4])
  {
    hide IndexBytes, Promoted, Grown, NewIdx;
    PromotedIndex(1);
    var a := Promoted(1);
    IndexGrown(a, [0], [1], 84, 2);
    var b := Grown(a, 1, NewIdx(84, 2));
    assert [0] + [84] == [0, 84] && [1] + [2] == [1, 2];
    IndexGrown(b, [0, 84], [1, 2], 168, 3);
    var c := Grown(b, 2, NewIdx(168, 3));
    assert [0, 84] + [168] == [0, 84, 168] && [1, 2] + [3] == [1, 2, 3];
    IndexGrown(c, [0, 84, 168], [1, 2, 3], 252, 4);
    assert [0, 84, 168] + [252] == [0, 84, 168, 252] && [1, 2, 3] + [4] == [1, 2, 3, 4];
  }

  lemma FullTreeMaps()
    ensures Sound(FullTree()) && Linear(FullTree(), 336, 1000) && Route(FullTree().firsts, 336) == 3
  {
    RouteOf(FullTree().firsts, 336, 3);
    hide Look, Route, FullLeaf;
    forall b: nat ensures Lookup(FullTree(), b) == if b < 336 then 1000 + b else 0 {
      var i := if b < 84 then 0 else if b < 168 then 1 else if b < 252 then 2 else 3;
      RouteOf(FullTree().firsts, b, i);
      LookFull(84 * i, 1000 + 84 * i, 0, b);
      assert FullLeaf(84 * i, 1000 + 84 * i)[0..] == FullLeaf(84 * i, 1000 + 84 * i);
    }
  }

  lemma LeafHere(leaves: seq<seq<byte>>, base: nat, n: nat, per: nat, i: nat, exts: seq<Ext>)
    requires i < |leaves| < base && 1 <= |exts| <= Cap(256 * per) && |exts| < 0xFFFF && EntryOff(|exts|) <= 256 * per && AllOk(exts)
    requires leaves[i] == LeafBlock(exts, |exts|, 256 * per)
    ensures LeafAt(DeviceFor(leaves, base, n, per), map[], i + 1, exts)
  {
    LeafBlockReads(exts, |exts|, 256 * per);
    assert exts[..|exts|] == exts;
    hide LeafBlock, LeafBytes, AllOk;
    var dev := DeviceFor(leaves, base, n, per);
    assert dev.blocks[i + 1] == BlockFor(leaves, base, per, i + 1);
  }

  lemma FullLeafHere(i: nat)
    requires i < 4
    ensures LeafAt(DeviceFor(FullLeaves(), 1000, 336, 4), map[], i + 1, FullLeaf(84 * i, 1000 + 84 * i))
  {
    var exts := FullLeaf(84 * i, 1000 + 84 * i);
    assert AllOk(exts) && |exts| == 84;
    hide FullLeaf, LeafBlock, AllOk, LeafAt, DeviceFor;
    LeafHere(FullLeaves(), 1000, 336, 4, i, exts);
  }

  lemma FullTreeAt()
    ensures TreeAt(DeviceFor(FullLeaves(), 1000, 336, 4), map[], FullNode(), FullTree())
  {
    FullNodeReads();
    FullTreeMaps();
    hide *;
    FullLeafHere(0);
    FullLeafHere(1);
    FullLeafHere(2);
    FullLeafHere(3);
    FullTreeIs();
    FourLeaves(DeviceFor(FullLeaves(), 1000, 336, 4), FullNode(), FullLeaf(0, 1000), FullLeaf(84, 1084), FullLeaf(168, 1168), FullLeaf(252, 1252));
  }

  lemma FullTreeIs()
    ensures FullTree() == Indexed([0, 84, 168, 252], [1, 2, 3, 4], [FullLeaf(0, 1000), FullLeaf(84, 1084), FullLeaf(168, 1168), FullLeaf(252, 1252)])
  {
  }

  lemma FourLeaves(dev: Device, raw: seq<byte>, a: seq<Ext>, b: seq<Ext>, c: seq<Ext>, d: seq<Ext>)
    requires |raw| == 60 && IndexBytes(raw, [0, 84, 168, 252], [1, 2, 3, 4]) && Sound(Indexed([0, 84, 168, 252], [1, 2, 3, 4], [a, b, c, d]))
    requires LeafAt(dev, map[], 1, a) && LeafAt(dev, map[], 2, b) && LeafAt(dev, map[], 3, c) && LeafAt(dev, map[], 4, d)
    ensures TreeAt(dev, map[], raw, Indexed([0, 84, 168, 252], [1, 2, 3, 4], [a, b, c, d]))
  {
    hide IndexBytes, LeafAt;
  }

  /** A directory of 336 blocks without any room, whose tree takes no further block: whatever entry is added is lost. */
  lemma FullDirectory(live: set<nat>, e: DirEnt)
    requires BlocksOf(1, 4) + BlocksOf(1000, 336) <= live
    ensures DirAt(DeviceFor(FullLeaves(), 1000, 336, 4), map[], live, FullNode(), FullTree(), FullBlocks(336, 4))
    ensures AllBlocks(FullBlocks(336, 4)) && NoRoom(FullBlocks(336, 4), MinSize(|e.name|))
    ensures Sound(FullTree()) && !Takes(FullTree(), FullBlocks(336, 4), e, 84)
  {
    hide *;
    FullTreeMaps();
    FullTreeAt();
    NeedIsPositive(e);
    NoneHasRoom(336, 4, MinSize(|e.name|));
    FullTreeLeaves(live);
    TakesNothing(FullBlocks(336, 4), e);
    LinearDirectory(DeviceFor(FullLeaves(), 1000, 336, 4), live, FullNode(), FullTree(), FullLeaves(), 1000, 336, 4);
  }

  lemma NeedIsPositive(e: DirEnt)
    ensures MinSize(|e.name|) >= 1
  {
  }

  lemma TakesNothing(dir: Dir, e: DirEnt)
    requires AllBlocks(dir) && NoRoom(dir, MinSize(|e.name|)) && Sound(FullTree())
    ensures !Takes(FullTree(), dir, e, 84)
  {
    hide NoRoom, AllBlocks, Sound;
  }

  lemma FullTreeLeaves(live: set<nat>)
    requires BlocksOf(1, 4) + BlocksOf(1000, 336) <= live
    ensures LeavesIn(FullTree(), live) && (forall x :: x in At(FullTree()) ==> x < 1000) && BlocksOf(1000, 336) <= live
    ensures SizeOk(1024) && DeviceFor(FullLeaves(), 1000, 336, 4).bs == 1024 && FullTree().Indexed? && |FullTree().firsts| == 4 && |FullLeaves()| == 4
  {
    forall x: nat | 1 <= x <= 4 ensures x in live {
      assert x in BlocksOf(1, 4);
    }
    hide BlocksOf, FullLeaf;
  }

  /** Five extents of up to 32767 blocks in one leaf, for 131071 blocks. */
  function LongTree(): Tree {
    Indexed([0], [1], [LongLeaf()])
  }

  function LongLeaf(): seq<Ext> {
    [Ext(0, 32767, 1000), Ext(32767, 32767, 33767), Ext(65534, 32767, 66534), Ext(98301, 32767, 99301), Ext(131068, 3, 132068)]
  }

  function LongLeaves(): (leaves: seq<seq<byte>>)
    ensures |leaves| == 1
  {
    [LeafBlock(LongLeaf(), 5, 0x8000)]
  }

  lemma LookHead(e: Ext, rest: seq<Ext>, b: nat)
    ensures Look([e] + rest, b) == if Covers(e, b) then e.phys + (b - e.block) else Look(rest, b)
  {
    assert ([e] + rest)[1..] == rest;
  }

  lemma LongTreeMaps()
    ensures Sound(LongTree()) && Linear(LongTree(), 131071, 1000) && Route(LongTree().firsts, 131071) == 0
  {
    var s := LongLeaf();
    ZeroFirst(131071);
    assert s == [s[0]] + s[1..] && s[1..] == [s[1]] + s[2..] && s[2..] == [s[2]] + s[3..] && s[3..] == [s[3]] + [s[4]];
    hide Look, Route;
    forall b: nat ensures Lookup(LongTree(), b) == if b < 131071 then 1000 + b else 0 {
      ZeroFirst(b);
      LookHead(s[0], s[1..], b);
      LookHead(s[1], s[2..], b);
      LookHead(s[2], s[3..], b);
      LookHead(s[3], [s[4]], b);
      LookOne(s[4], b);
    }
  }

  lemma LongTreeAt()
    ensures TreeAt(DeviceFor(LongLeaves(), 1000, 131071, 128), map[], Promoted(1), LongTree())
  {
    hide *;
    PromotedIndex(1);
    LongTreeMaps();
    LongLeafIs();
    LeafHere(LongLeaves(), 1000, 131071, 128, 0, LongLeaf());
    OneLeafTree(DeviceFor(LongLeaves(), 1000, 131071, 128), Promoted(1), LongLeaf());
  }

  lemma LongLeafIs()
    ensures LongTree() == Indexed([0], [1], [LongLeaf()]) && AllOk(LongLeaf()) && |LongLeaf()| == 5
    ensures LongLeaves() == [LeafBlock(LongLeaf(), 5, 0x8000)] && Cap(256 * 128) >= 5 && EntryOff(5) <= 0x8000
  {
    hide LeafBlock;
  }

  lemma OneLeafTree(dev: Device, raw: seq<byte>, a: seq<Ext>)
    requires |raw| == 60 && IndexBytes(raw, [0], [1]) && Sound(Indexed([0], [1], [a])) && LeafAt(dev, map[], 1, a)
    ensures TreeAt(dev, map[], raw, Indexed([0], [1], [a]))
  {
    hide IndexBytes, LeafAt;
  }

  lemma LongTreeLeaves(live: set<nat>)
    requires 1 in live
    ensures LeavesIn(LongTree(), live) && (forall x :: x in At(LongTree()) ==> x < 1000)
    ensures SizeOk(0x8000) && DeviceFor(LongLeaves(), 1000, 131071, 128).bs == 0x8000 && LongTree().Indexed? && |LongTree().firsts| == 1 && |LongLeaves()| == 1
  {
    hide LongLeaf, LeafBlock;
  }

  /** A directory of 131071 blocks of 32 KiB without any room: its tree takes one more, but then the low word of the size
      is zero. */
  lemma LongDirectory(live: set<nat>, e: DirEnt)
    requires {1} + BlocksOf(1000, 131071) <= live
    ensures DirAt(DeviceFor(LongLeaves(), 1000, 131071, 128), map[], live, Promoted(1), LongTree(), FullBlocks(131071, 128))
    ensures AllBlocks(FullBlocks(131071, 128)) && NoRoom(FullBlocks(131071, 128), MinSize(|e.name|))
    ensures Sound(LongTree()) && Takes(LongTree(), FullBlocks(131071, 128), e, Cap(0x8000) as nat)
    ensures !SizeHolds(FullBlocks(131071, 128), e, 0x8000) && Longer(Times(131071, 0x8000), 0x8000) == 0
  {
    hide *;
    LongTreeMaps();
    LongTreeAt();
    NeedIsPositive(e);
    NoneHasRoom(131071, 128, MinSize(|e.name|));
    LongTreeLeaves(live);
    LongGrows(FullBlocks(131071, 128), e);
    LinearDirectory(DeviceFor(LongLeaves(), 1000, 131071, 128), live, Promoted(1), LongTree(), LongLeaves(), 1000, 131071, 128);
  }

  lemma LongGrows(dir: Dir, e: DirEnt)
    requires AllBlocks(dir) && NoRoom(dir, MinSize(|e.name|)) && Sound(LongTree()) && |dir| == 131071
    ensures Cap(0x8000) >= 0 && Takes(LongTree(), dir, e, Cap(0x8000) as nat) && !SizeHolds(dir, e, 0x8000)
    ensures Longer(Times(131071, 0x8000), 0x8000) == 0
  {
    TimesIsProduct(131071, 0x8000);
    hide NoRoom, AllBlocks, Sound, Times;
  }
}
