/** ext4 directories through their inode: every block of a directory is found by the extent tree and tiled by records. */
module Ext4DirVolume {
  import opened Wrappers
  import opened Bytes
  import opened Chunks
  import opened Ext4DirBlock
  import opened Ext4Directory
  import opened Ext4Extents
  import opened Ext4Store
  import opened Ext4File
  import opened Ext4Room
  import opened Ext4Volume
  import A = Ext4Allocator

  /** The records of each block of a directory. */
  type Dir = seq<seq<seq<byte>>>

  /** Block x holds the records. */
  ghost predicate HoldsRecords(dev: Device, dirty: Dirty, x: nat, parts: seq<seq<byte>>) {
    var b := Block(dev, dirty, x);
    x != 0 && b.Some? && |b.value| == dev.bs && Tiles(b.value, parts)
  }

  /** The file has the directory's blocks, one behind the other from file block 0 on, and none above them. */
  ghost predicate DirAt(dev: Device, dirty: Dirty, live: set<nat>, raw: seq<byte>, t: Tree, dir: Dir) {
    && FileAt(dev, dirty, live, raw, t) && |dir| <= 0x1_0000_0000 && OnTop(t, |dir|)
    && forall i :: 0 <= i < |dir| ==> HoldsRecords(dev, dirty, Lookup(t, i), dir[i])
  }

  /** The length of a record that spans the block fits its 16 bits. */
  predicate DirSize(bs: nat) {
    1024 <= bs <= 0x8000 && bs % 4 == 0
  }

  lemma DirFacts(dev: Device, dirty: Dirty, live: set<nat>, raw: seq<byte>, t: Tree, dir: Dir)
    requires DirAt(dev, dirty, live, raw, t, dir)
    ensures FileAt(dev, dirty, live, raw, t) && TreeAt(dev, dirty, raw, t) && Sound(t) && SizeOk(dev.bs) && 0 < dev.bs <= 0x1_0000
    ensures |raw| == 60 && |dir| <= 0x1_0000_0000 && OnTop(t, |dir|) && LeavesIn(t, live) && AllBlocks(dir)
  {
    assert dev.bs <= 0x1_0000;
    hide *;
    forall i | 0 <= i < |dir| ensures AllRecords(dir[i]) {
      DirBlock(dev, dirty, live, raw, t, dir, i);
    }
    DirParts(dev, dirty, live, raw, t, dir);
  }

  lemma DirParts(dev: Device, dirty: Dirty, live: set<nat>, raw: seq<byte>, t: Tree, dir: Dir)
    requires DirAt(dev, dirty, live, raw, t, dir) && Sound(t)
    ensures |dir| <= 0x1_0000_0000 && OnTop(t, |dir|) && FileAt(dev, dirty, live, raw, t)
  {
    hide OnTop, FileAt;
  }

  lemma ManyBlocks(dir: Dir)
    requires forall i :: 0 <= i < |dir| ==> AllRecords(dir[i])
    ensures AllBlocks(dir)
  {
  }

  lemma DirBlock(dev: Device, dirty: Dirty, live: set<nat>, raw: seq<byte>, t: Tree, dir: Dir, i: nat)
    requires DirAt(dev, dirty, live, raw, t, dir) && i < |dir|
    ensures Sound(t) && Lookup(t, i) != 0
    ensures var b := Block(dev, dirty, Lookup(t, i)); b.Some? && |b.value| == dev.bs && Tiles(b.value, dir[i])
    ensures AllRecords(dir[i])
  {
    FileFacts(dev, dirty, live, raw, t);
    hide OnTop, Lookup, Record, Concat, Block, FileAt;
    assert HoldsRecords(dev, dirty, Lookup(t, i), dir[i]);
  }

  /** File offsets against block numbers. */
  lemma OffsetBlock(i: nat, n: nat, bs: nat)
    requires bs > 0
    ensures Times(i, bs) < Times(n, bs) <==> i < n
    ensures BlockNo(Times(i, bs), bs) == i
  {
    TimesIsProduct(i, bs);
    DivMod(i, 0, bs);
    TimesMonotone(if i < n then i else n, if i < n then n else i, bs);
  }

  /** One block of the directory is rewritten, or, at its end, added. */
  lemma DirReplaced(dev: Device, d: Dirty, live: set<nat>, raw: seq<byte>, t: Tree, dir: Dir,
                    d': Dirty, live': set<nat>, raw': seq<byte>, t': Tree, i: nat, nd: seq<byte>, dir': Dir)
    requires DirAt(dev, d, live, raw, t, dir) && Sound(t) && FileAt(dev, d', live', raw', t') && Sound(t')
    requires Replaced(dev, d, t, d', t', i, nd) && |nd| == dev.bs && i < |dir'| <= 0x1_0000_0000 && Tiles(nd, dir'[i])
    requires |dir'| == |dir| || (|dir'| == |dir| + 1 && i == |dir|)
    requires OnTop(t', |dir'|) && forall k :: 0 <= k < |dir'| && k != i ==> dir'[k] == dir[k]
    ensures DirAt(dev, d', live', raw', t', dir')
  {
    hide OnTop, Lookup, Record, Concat, Block, FileAt, Tiles;
    forall k | 0 <= k < |dir'| ensures HoldsRecords(dev, d', Lookup(t', k), dir'[k]) {
      if k != i {
        assert SameBlock(dev, d, t, d', t', k);
        assert HoldsRecords(dev, d, Lookup(t, k), dir[k]);
      }
    }
  }

  /** Nothing that is in use outside the tree's leaves changed: the directory is as before. */
  lemma DirKept(dev: Device, d: Dirty, live: set<nat>, raw: seq<byte>, t: Tree, dir: Dir, d': Dirty, live': set<nat>, raw': seq<byte>)
    requires DirAt(dev, d, live, raw, t, dir) && FileAt(dev, d', live', raw', t) && Kept(dev, d, d', live, At(t))
    ensures DirAt(dev, d', live', raw', t, dir)
  {
    FileFacts(dev, d, live, raw, t);
    hide OnTop, Lookup, Record, Concat, Block, Tiles, At, BlockOk, TreeAt, OneToOne, LeavesIn;
    forall k | 0 <= k < |dir| ensures HoldsRecords(dev, d', Lookup(t, k), dir[k]) {
      assert HoldsRecords(dev, d, Lookup(t, k), dir[k]);
    }
  }

  /** The tree can take one more block at the end of the directory. */
  predicate CanGrow(t: Tree, cap: nat)
    requires Sound(t)
  {
    t.Inline? || |t.leaves[|t.leaves| - 1]| < cap || |t.firsts| < 4
  }

  lemma GrowAccepts(t: Tree, n: nat, cap: nat, e: Ext)
    requires Sound(t) && OnTop(t, n) && e.block == n
    ensures Accepts(t, e, cap) <==> CanGrow(t, cap)
  {
    hide Lookup, Route;
  }

  /** Appending the block behind the last one. */
  lemma AppendOnTop(t: Tree, n: nat, x: nat, blk: nat, cap: nat)
    requires Sound(t) && OnTop(t, n) && n < 0x1_0000_0000 && 1 <= x < 0xFFFF_FFFF_FFFF
    ensures var t1 := Append(t, Ext(n, 1, x), blk, cap);
            && Sound(t1) && Sources(t, t1, n, x) && (Updates(t, t1, Ext(n, 1, x)) <==> CanGrow(t, cap))
            && (CanGrow(t, cap) ==> OnTop(t1, n + 1))
  {
    hide *;
    TopIsHole(t, n);
    FreshExt(n, x);
    HoleAt(t, n, x);
    AppendIsUpdate(t, Ext(n, 1, x), blk, cap);
    AppendGives(t, n, x, blk, cap);
    GrowAccepts(t, n, cap, Ext(n, 1, x));
    if CanGrow(t, cap) { StillOnTop(t, Ext(n, 1, x), blk, cap, n + 1); }
  }

  lemma TopIsHole(t: Tree, n: nat)
    requires Sound(t) && OnTop(t, n)
    ensures Lookup(t, n) == 0 && OnTop(t, n + 1)
  {
    hide Lookup;
    if t.Indexed? { RouteAbove(t.firsts, n, n + 1); }
  }

  /** The size with its low word grown by one block; the high word stays. */
  function Longer(size: nat, bs: nat): nat {
    size / 0x1_0000_0000 * 0x1_0000_0000 + (size + bs) % 0x1_0000_0000
  }

  /** The size counts the blocks again, unless its low word ran over. */
  lemma LongerBy(n: nat, bs: nat)
    requires 0 < bs < 0x1_0000_0000
    ensures Longer(Times(n, bs), bs) == Times(n + 1, bs) <==> Times(n, bs) % 0x1_0000_0000 + bs < 0x1_0000_0000
    ensures Longer(Times(n, bs), bs) != Times(n, bs)
  {
    var s := Times(n, bs);
    hide Times;
    TimesStep(n, bs);
  }

  /** All entries of a directory, block by block. */
  method ReadDir(v: Volume, ino: Inode, ghost t: Tree, ghost dir: Dir) returns (r: Option<seq<DirEnt>>)
    requires DirAt(v.dev, v.dirty, v.Live(), ino.iBlock, t, dir) && ino.size == Times(|dir|, v.dev.bs)
    ensures AllBlocks(dir) && r == if ino.extents || dir == [] then Some(Listing(dir)) else None
  {
    hide *;
    DirFacts(v.dev, v.dirty, v.Live(), ino.iBlock, t, dir);
    NothingListed(dir, []);
    ghost var i := 0;
    var off, out := 0, [];
    TimesNone(v.dev.bs);
    while off < ino.size
      invariant i <= |dir| && off == Times(i, v.dev.bs) && AllBlocks(dir[..i]) && out == Listing(dir[..i])
      invariant i > 0 ==> ino.extents
      decreases |dir| - i
    {
      OffsetBlock(i, |dir|, v.dev.bs);
      DirBlock(v.dev, v.dirty, v.Live(), ino.iBlock, t, dir, i);
      var phys := v.LogicalToPhysical(ino, BlockNo(off, v.dev.bs), t);
      if phys.None? {
        return None;
      }
      var data := Some(Zeros(v.dev.bs));
      if phys.value != 0 {
        data := v.ReadBlock(phys.value);
      }
      var ents := ReadEntries(data.value, dir[i]);
      OneMoreBlock(dir, i);
      TimesStep(i, v.dev.bs);
      out, off, i := out + ents, off + v.dev.bs, i + 1;
    }
    OffsetBlock(i, |dir|, v.dev.bs);
    assert dir[..|dir|] == dir;
    r := Some(out);
  }

  lemma TimesNone(bs: nat)
    ensures Times(0, bs) == 0
  {
  }

  /** Removes the first entry of that name, wherever it is; fails exactly if there is none, or without extents. */
  method RemoveDirEntry(v: Volume, ino: Inode, name: seq<byte>, ghost t: Tree, ghost dir: Dir) returns (ok: bool, ghost dir': Dir)
    requires DirAt(v.dev, v.dirty, v.Live(), ino.iBlock, t, dir) && ino.size == Times(|dir|, v.dev.bs) && |name| >= 1 && DirSize(v.dev.bs)
    modifies v`dirty
    ensures Sound(t) && AllBlocks(dir) && (ok <==> ino.extents && Named(Listing(dir), name))
    ensures ok ==> |dir'| == |dir| && AllBlocks(dir') && Listing(dir') == RemoveFirst(Listing(dir), name)
    ensures DirAt(v.dev, v.dirty, v.Live(), ino.iBlock, t, dir') && (!ok ==> dir' == dir && v.dirty == old(v.dirty))
    ensures OthersKept(v.dev, old(v.dirty), t, v.dirty, t, v.Live())
  {
    hide *;
    DirFacts(v.dev, v.dirty, v.Live(), ino.iBlock, t, dir);
    OthersNone(v.dev, v.dirty, t, v.Live());
    NothingListed(dir, name);
    TimesNone(v.dev.bs);
    dir' := dir;
    ghost var i := 0;
    var off := 0;
    while off < ino.size
      invariant i <= |dir| && off == Times(i, v.dev.bs) && AllBlocks(dir[..i]) && !Named(Listing(dir[..i]), name)
      invariant i > 0 ==> ino.extents
      invariant v.dirty == old(v.dirty)
      decreases |dir| - i
    {
      OffsetBlock(i, |dir|, v.dev.bs);
      DirBlock(v.dev, v.dirty, v.Live(), ino.iBlock, t, dir, i);
      var phys := v.LogicalToPhysical(ino, BlockNo(off, v.dev.bs), t);
      if phys.None? {
        return false, dir;
      }
      var data := v.ReadBlock(phys.value);
      var block := CopyOf(data.value);
      var found;
      ghost var at;
      found, at := RemoveEntry(block, name, dir[i]);
      if found {
        MatchFacts(dir[i], name, at);
        ghost var p := Without(dir[i], at);
        Removed(data.value, dir, name, i, at);
        var nd := block[..];
        MappedWrite(v.dev, v.dirty, v.Live(), ino.iBlock, t, i, nd);
        MappedOthers(v.dev, v.dirty, t, v.Live(), i, nd);
        DirReplaced(v.dev, v.dirty, v.Live(), ino.iBlock, t, dir, v.dirty[phys.value := nd], v.Live(), ino.iBlock, t, i, nd, dir[i := p]);
        v.WriteBlock(phys.value, nd);
        return true, dir[i := p];
      }
      NoMatchNoName(dir[i], name);
      OneMoreBlock(dir, i);
      NamedAppend(Listing(dir[..i]), Ents(dir[i]), name);
      TimesStep(i, v.dev.bs);
      off, i := off + v.dev.bs, i + 1;
    }
    OffsetBlock(i, |dir|, v.dev.bs);
    assert dir[..|dir|] == dir;
    ok := false;
  }

  lemma MergedInside(block: seq<byte>, parts: seq<seq<byte>>, i: nat)
    requires Tiles(block, parts) && i < |parts| && DirSize(|block|)
    ensures MergeFits(parts, i)
  {
    if i > 0 { NeighboursFit(block, parts, i); }
  }

  /** What removing record `at` of block i does to the listing. */
  lemma Removed(block: seq<byte>, dir: Dir, name: seq<byte>, i: nat, at: nat)
    requires AllBlocks(dir) && i < |dir| && Tiles(block, dir[i]) && AllRecords(dir[i]) && FirstMatch(dir[i], name, at) && |name| >= 1 && DirSize(|block|)
    requires AllBlocks(dir[..i]) && !Named(Listing(dir[..i]), name) && at < |dir[i]|
    ensures var dir' := dir[i := Without(dir[i], at)];
            && AllRecords(Without(dir[i], at)) && AllBlocks(dir') && Listing(dir') == RemoveFirst(Listing(dir), name)
            && Named(Listing(dir), name) && MergeFits(dir[i], at)
  {
    hide *;
    MatchFacts(dir[i], name, at);
    MergedInside(block, dir[i], at);
    WithoutEnts(block, dir[i], name, at);
    ListingAround(dir, i, Without(dir[i], at));
    NamedHere(dir[i], name, at);
    RemoveFirstAround(Listing(dir[..i]), Ents(dir[i]), Listing(dir[i + 1..]), name);
  }

  /** The fresh block x is written: the file does not notice. */
  lemma FreshBlock(dev: Device, d: Dirty, live: set<nat>, raw: seq<byte>, t: Tree, x: nat, nb: seq<byte>, live1: set<nat>)
    requires FileAt(dev, d, live, raw, t) && x !in live && live <= live1
    ensures Sound(t) && FileAt(dev, d[x := nb], live1, raw, t) && TreeAt(dev, d[x := nb], raw, t) && LeavesIn(t, live1)
    ensures Kept(dev, d, d[x := nb], live, At(t)) && OthersKept(dev, d, t, d[x := nb], t, live)
  {
    FileFacts(dev, d, live, raw, t);
    hide *;
    forall y: nat | y in live ensures Block(dev, d[x := nb], y) == Block(dev, d, y) {
      BlockSet(dev, d, x, nb, y);
    }
    TreeKept(dev, d, d[x := nb], raw, t);
    OwnedLive(dev, d, live, t);
    FreshData(dev, d, d[x := nb], live, live1, t);
    MakesFile(dev, d[x := nb], live1, raw, t);
  }

  lemma FreshData(dev: Device, d: Dirty, d': Dirty, live: set<nat>, live1: set<nat>, t: Tree)
    requires Sound(t) && DataAt(dev, d, live, t) && LeavesIn(t, live) && live <= live1 && dev.bs > 0
    requires forall y: nat :: y in live ==> Block(dev, d', y) == Block(dev, d, y)
    requires forall y: nat :: Owns(t, y) ==> y in live
    ensures DataAt(dev, d', live1, t) && OthersKept(dev, d, t, d', t, live)
  {
    hide Owns, Block, At, Lookup, ByteAt;
    forall y: nat | Owns(t, y) ensures Block(dev, d', y) == Block(dev, d, y) {
    }
    SameData(dev, d, d', live, live1, t);
  }

  /** The directory after a block was written and its extent appended: the entry is in it if the tree could grow; if not,
      neither tree nor directory changed. */
  lemma DirGrown(dev: Device, d: Dirty, live: set<nat>, raw: seq<byte>, t: Tree, dir: Dir, e: DirEnt, x: nat, blk: nat,
                 d1: Dirty, live1: set<nat>, raw1: seq<byte>, t1: Tree)
    requires DirAt(dev, d, live, raw, t, dir) && |dir| < 0x1_0000_0000 && EntOk(e) && DirSize(dev.bs) && Cap(dev.bs) >= 5
    requires x !in live && 1 <= x < 0xFFFF_FFFF_FFFF && Sound(t) && t1 == Append(t, Ext(|dir|, 1, x), blk, Cap(dev.bs))
    requires TreeAt(dev, d1, raw1, t1) && LeavesIn(t1, live1) && live + {x} <= live1
    requires Kept(dev, d[x := NewBlock(e, dev.bs)], d1, live + {x}, At(t)) && NewLeaves(t, t1, live + {x})
    ensures Sound(t1) && AllBlocks(dir) && OthersKept(dev, d, t, d1, t1, live)
    ensures CanGrow(t, Cap(dev.bs)) ==> GrownTo(dev, d1, live1, raw1, t1, dir, dir + [[NewBlock(e, dev.bs)]], e)
    ensures !CanGrow(t, Cap(dev.bs)) ==> t1 == t && DirAt(dev, d1, live1, raw1, t, dir)
  {
    var nb, cap: nat, n := NewBlock(e, dev.bs), Cap(dev.bs), |dir|;
    hide *;
    DirFacts(dev, d, live, raw, t, dir);
    AppendOnTop(t, n, x, blk, cap);
    KeptBehind(dev, d, live, t, x, nb, d1);
    BlockAppended(dev, d, live, raw, t, n, x, d1, live1, raw1, t1, nb);
    if CanGrow(t, cap) {
      DirExtended(dev, d, live, raw, t, dir, d1, live1, raw1, t1, e);
    } else {
      DirKept(dev, d, live, raw, t, dir, d1, live1, raw1);
    }
  }

  lemma DirExtended(dev: Device, d: Dirty, live: set<nat>, raw: seq<byte>, t: Tree, dir: Dir,
                    d1: Dirty, live1: set<nat>, raw1: seq<byte>, t1: Tree, e: DirEnt)
    requires DirAt(dev, d, live, raw, t, dir) && |dir| < 0x1_0000_0000 && EntOk(e) && DirSize(dev.bs) && AllBlocks(dir)
    requires Sound(t) && Sound(t1) && FileAt(dev, d1, live1, raw1, t1) && OnTop(t1, |dir| + 1) && dev.bs >= 8
    requires Replaced(dev, d, t, d1, t1, |dir|, NewBlock(e, dev.bs))
    ensures GrownTo(dev, d1, live1, raw1, t1, dir, dir + [[NewBlock(e, dev.bs)]], e)
  {
    hide *;
    var nb := NewBlock(e, dev.bs);
    BlockTiles(e, dev.bs);
    DirReplaced(dev, d, live, raw, t, dir, d1, live1, raw1, t1, |dir|, nb, dir + [[nb]]);
    ListingOne([nb]);
    ListingAppend(dir, [[nb]]);
    IsGrown(dev, d1, live1, raw1, t1, dir, dir + [[nb]], e);
  }

  lemma BlockAppended(dev: Device, d: Dirty, live: set<nat>, raw: seq<byte>, t: Tree, n: nat, x: nat,
                      d1: Dirty, live1: set<nat>, raw1: seq<byte>, t1: Tree, nb: seq<byte>)
    requires FileAt(dev, d, live, raw, t) && Sound(t) && x !in live && x != 0 && |nb| == dev.bs
    requires TreeAt(dev, d1, raw1, t1) && Sound(t1) && LeavesIn(t1, live1) && live + {x} <= live1
    requires Kept(dev, d, d1, live, At(t)) && NewLeaves(t, t1, live + {x}) && Sources(t, t1, n, x)
    requires forall b: nat :: Block(dev, d1, b) == if b == x then Some(nb) else Block(dev, d1, b)
    ensures FileAt(dev, d1, live1, raw1, t1) && OthersKept(dev, d, t, d1, t1, live)
    ensures Updates(t, t1, Ext(n, 1, x)) ==> Replaced(dev, d, t, d1, t1, n, nb)
  {
    hide *;
    HoleWrite(dev, d, live, raw, t, n, x, d1, live1, raw1, t1, d1, nb);
    HoleOthers(dev, d, t, live, n, x, d1, t1, d1, nb);
  }

  /** dir' is dir with a block more, which shows the entry. */
  ghost predicate GrownTo(dev: Device, d: Dirty, live: set<nat>, raw: seq<byte>, t: Tree, dir: Dir, dir': Dir, e: DirEnt)
    requires AllBlocks(dir)
  {
    DirAt(dev, d, live, raw, t, dir') && |dir'| == |dir| + 1 && AllBlocks(dir') && Listing(dir') == Listing(dir) + Seen(e)
  }

  lemma IsGrown(dev: Device, d: Dirty, live: set<nat>, raw: seq<byte>, t: Tree, dir: Dir, dir': Dir, e: DirEnt)
    requires AllBlocks(dir) && DirAt(dev, d, live, raw, t, dir') && |dir'| == |dir| + 1 && AllBlocks(dir')
    requires Listing(dir') == Listing(dir) + Seen(e)
    ensures GrownTo(dev, d, live, raw, t, dir, dir', e)
  {
  }

  lemma BlockTiles(e: DirEnt, bs: nat)
    requires EntOk(e) && DirSize(bs)
    ensures bs >= 8 && Tiles(NewBlock(e, bs), [NewBlock(e, bs)]) && AllRecords([NewBlock(e, bs)]) && Ents([NewBlock(e, bs)]) == Seen(e)
  {
    NewBlockTiles(e, bs);
  }

  lemma KeptBehind(dev: Device, d: Dirty, live: set<nat>, t: Tree, x: nat, nb: seq<byte>, d1: Dirty)
    requires LeavesIn(t, live) && x !in live && Kept(dev, d[x := nb], d1, live + {x}, At(t))
    ensures Kept(dev, d, d1, live, At(t)) && Block(dev, d1, x) == Some(nb)
    ensures forall b: nat :: Block(dev, d1, b) == if b == x then Some(nb) else Block(dev, d1, b)
  {
  }

  /** No block has room for the entry: it gets a block of its own at the end of the directory. */
  method AddDirBlock(v: Volume, ino: Inode, e: DirEnt, ghost t: Tree, ghost dir: Dir) returns (ok: bool, ghost t': Tree, ghost dir': Dir)
    requires v.Ready(ino.group) && DirAt(v.dev, v.dirty, v.Live(), ino.iBlock, t, dir) && ino.size == Times(|dir|, v.dev.bs)
    requires EntOk(e) && DirSize(v.dev.bs) && |dir| < 0x1_0000_0000
    modifies v`dirty, v.alloc, ino`iBlock, ino`size
    ensures v.Ready(ino.group) && DirAt(v.dev, v.dirty, v.Live(), ino.iBlock, t', dir') && Sound(t) && Sound(t') && AllBlocks(dir)
    ensures OthersKept(v.dev, old(v.dirty), t, v.dirty, t', old(v.Live())) && old(v.Live()) <= v.Live()
    ensures !ok ==> t' == t && dir' == dir && ino.size == old(ino.size) && A.Exhausted(v.alloc.View())
    ensures ok <==> 1 + LeafNeed(t, Cap(v.dev.bs) as nat) <= old(v.Free())
    ensures ok ==> ino.size == Longer(old(ino.size), v.dev.bs)
    ensures ok && CanGrow(t, Cap(v.dev.bs) as nat) ==> dir' == dir + [[NewBlock(e, v.dev.bs)]]
    ensures ok && CanGrow(t, Cap(v.dev.bs) as nat) ==> GrownTo(v.dev, v.dirty, v.Live(), ino.iBlock, t', dir, dir', e)
    ensures ok && !CanGrow(t, Cap(v.dev.bs) as nat) ==> t' == t && dir' == dir
  {
    hide *;
    DirFacts(v.dev, v.dirty, v.Live(), ino.iBlock, t, dir);
    OthersNone(v.dev, v.dirty, t, v.Live());
    CapBounds(v.dev.bs);
    NeedIs(t, Cap(v.dev.bs));
    t', dir' := t, dir;
    ghost var d0, live0, raw0 := v.dirty, v.Live(), ino.iBlock;
    var x := v.AllocBlock(ino.group);
    if x.None? {
      return false, t, dir;
    }
    BlockTiles(e, v.dev.bs);
    ghost var live1 := v.Live();
    FreshBlock(v.dev, d0, live0, raw0, t, x.value, NewBlock(e, v.dev.bs), live1);
    v.WriteBlock(x.value, NewBlock(e, v.dev.bs));
    OffsetBlock(|dir|, |dir|, v.dev.bs);
    var logBlk := BlockNo(ino.size, v.dev.bs);
    FreshExt(logBlk, x.value);
    TreeHead(v.dev, v.dirty, ino.iBlock, t);
    ghost var dm, blk := v.dirty, 0;
    ok, t', blk := v.AppendExtentToInode(ino, Ext(logBlk, 1, x.value), t);
    if !ok {
      SameTree(v.dev, dm, live1, raw0, v.Live(), ino.iBlock, t);
      DirKept(v.dev, d0, live0, raw0, t, dir, v.dirty, v.Live(), ino.iBlock);
      return;
    }
    DirGrown(v.dev, d0, live0, raw0, t, dir, e, x.value, blk, v.dirty, v.Live(), ino.iBlock, t');
    dir' := if CanGrow(t, Cap(v.dev.bs)) then dir + [[NewBlock(e, v.dev.bs)]] else dir;
    if CanGrow(t, Cap(v.dev.bs)) { GrownIs(v.dev, v.dirty, v.Live(), ino.iBlock, t', dir, dir', e); }
    ino.size := Longer(ino.size, v.dev.bs);
  }

  lemma GrownIs(dev: Device, d: Dirty, live: set<nat>, raw: seq<byte>, t: Tree, dir: Dir, dir': Dir, e: DirEnt)
    requires AllBlocks(dir) && GrownTo(dev, d, live, raw, t, dir, dir', e)
    ensures DirAt(dev, d, live, raw, t, dir') && |dir'| == |dir| + 1 && AllBlocks(dir') && Listing(dir') == Listing(dir) + Seen(e)
  {
  }

  /** Some block has room for the entry, or the tree for a block. */
  ghost predicate Takes(t: Tree, dir: Dir, e: DirEnt, cap: nat)
    requires Sound(t) && AllBlocks(dir)
  {
    !NoRoom(dir, MinSize(|e.name|)) || CanGrow(t, cap)
  }

  /** The low word of the size does not run over. */
  ghost predicate SizeHolds(dir: Dir, e: DirEnt, bs: nat)
    requires AllBlocks(dir)
  {
    NoRoom(dir, MinSize(|e.name|)) ==> Times(|dir|, bs) % 0x1_0000_0000 + bs < 0x1_0000_0000
  }

  /** The entry went to the first record with room, in the first block that has one. */
  ghost predicate PlacedIn(dir: Dir, dir': Dir, e: DirEnt)
    requires AllBlocks(dir) && EntOk(e)
  {
    exists i: nat, at: nat :: PlacedAt(dir, dir', e, i, at)
  }

  ghost predicate PlacedAt(dir: Dir, dir': Dir, e: DirEnt, i: nat, at: nat)
    requires AllBlocks(dir) && EntOk(e)
  {
    && i < |dir| && AllRecords(dir[i]) && FirstWithRoom(dir[i], MinSize(|e.name|), at) && (forall k :: 0 <= k < i ==> BlockFull(dir[k], MinSize(|e.name|)))
    && dir' == dir[i := Added(dir[i], at, e)]
  }

  lemma PlaceFound(dir: Dir, e: DirEnt, i: nat, at: nat)
    requires AllBlocks(dir) && EntOk(e) && i < |dir| && AllRecords(dir[i]) && FirstWithRoom(dir[i], MinSize(|e.name|), at)
    requires AllBlocks(dir[..i]) && NoRoom(dir[..i], MinSize(|e.name|))
    ensures at < |dir[i]| && Record(dir[i][at]) && Slack(dir[i][at]) >= MinSize(|e.name|) && PlacedIn(dir, dir[i := Added(dir[i], at, e)], e)
  {
    hide Record, Slack, Added;
    forall k | 0 <= k < i ensures BlockFull(dir[k], MinSize(|e.name|)) {
      assert dir[..i][k] == dir[k];
    }
    assert PlacedAt(dir, dir[i := Added(dir[i], at, e)], e, i, at);
  }

  /** Adds an entry to the first block with room, or in a block of its own. The call fails exactly if the directory has blocks
      and the inode no extents flag, or if a new block is needed and there is none for it or for the leaf it needs. If one of
      the blocks takes the entry, what a reader shows of it is inserted and all others stay; if neither does, it is lost. The size counts the directory's blocks
      again exactly if it was taken and the low word of the size held. */
  method AddDirEntry(v: Volume, ino: Inode, e: DirEnt, ghost t: Tree, ghost dir: Dir) returns (ok: bool, ghost t': Tree, ghost dir': Dir)
    requires v.Ready(ino.group) && DirAt(v.dev, v.dirty, v.Live(), ino.iBlock, t, dir) && ino.size == Times(|dir|, v.dev.bs)
    requires EntOk(e) && DirSize(v.dev.bs) && |dir| < 0x1_0000_0000
    modifies v`dirty, v.alloc, ino`iBlock, ino`size
    ensures v.Ready(ino.group) && DirAt(v.dev, v.dirty, v.Live(), ino.iBlock, t', dir') && Sound(t) && Sound(t') && AllBlocks(dir)
    ensures OthersKept(v.dev, old(v.dirty), t, v.dirty, t', old(v.Live())) && old(v.Live()) <= v.Live()
    ensures !ok ==> t' == t && dir' == dir && ino.size == old(ino.size) && (!ino.extents || A.Exhausted(v.alloc.View()))
    ensures AllBlocks(dir')
    ensures ok <==> (|dir| > 0 ==> ino.extents) && (NoRoom(dir, MinSize(|e.name|)) ==> 1 + LeafNeed(t, Cap(v.dev.bs) as nat) <= old(v.Free()))
    ensures ok && !NoRoom(dir, MinSize(|e.name|)) ==> t' == t && PlacedIn(dir, dir', e)
    ensures ok && NoRoom(dir, MinSize(|e.name|)) && CanGrow(t, Cap(v.dev.bs) as nat) ==> dir' == dir + [[NewBlock(e, v.dev.bs)]]
    ensures ok && Takes(t, dir, e, Cap(v.dev.bs) as nat) ==> Inserted(Listing(dir), Listing(dir'), Seen(e))
    ensures ok && !Takes(t, dir, e, Cap(v.dev.bs) as nat) ==> t' == t && dir' == dir
    ensures ok ==> (ino.size == Times(|dir'|, v.dev.bs) <==> Takes(t, dir, e, Cap(v.dev.bs) as nat) && SizeHolds(dir, e, v.dev.bs))
  {
    hide *;
    DirFacts(v.dev, v.dirty, v.Live(), ino.iBlock, t, dir);
    OthersNone(v.dev, v.dirty, t, v.Live());
    CapBounds(v.dev.bs);
    TimesNone(v.dev.bs);
    NothingListed(dir, []);
    NothingFull(dir, MinSize(|e.name|));
    t', dir' := t, dir;
    ghost var i := 0;
    var off := 0;
    while off < ino.size
      invariant i <= |dir| && off == Times(i, v.dev.bs) && AllBlocks(dir[..i]) && NoRoom(dir[..i], MinSize(|e.name|))
      invariant v.dirty == old(v.dirty) && unchanged(v.alloc) && unchanged(ino) && (i > 0 ==> ino.extents)
      decreases |dir| - i
    {
      OffsetBlock(i, |dir|, v.dev.bs);
      DirBlock(v.dev, v.dirty, v.Live(), ino.iBlock, t, dir, i);
      var phys := v.LogicalToPhysical(ino, BlockNo(off, v.dev.bs), t);
      if phys.None? {
        return false, t, dir;
      }
      var data := v.ReadBlock(phys.value);
      var block := CopyOf(data.value);
      ghost var at;
      ok, at := AddEntry(block, e, dir[i]);
      if ok {
        Placed(dir, i, at, e);
        PlaceFound(dir, e, i, at);
        ghost var p := Added(dir[i], at, e);
        var nd := block[..];
        MappedWrite(v.dev, v.dirty, v.Live(), ino.iBlock, t, i, nd);
        MappedOthers(v.dev, v.dirty, t, v.Live(), i, nd);
        DirReplaced(v.dev, v.dirty, v.Live(), ino.iBlock, t, dir, v.dirty[phys.value := nd], v.Live(), ino.iBlock, t, i, nd, dir[i := p]);
        v.WriteBlock(phys.value, nd);
        TakesIs(t, dir, e, v.dev.bs);
        return true, t, dir[i := p];
      }
      OneMoreBlock(dir, i);
      OneMoreFull(dir, i, MinSize(|e.name|));
      TimesStep(i, v.dev.bs);
      off, i := off + v.dev.bs, i + 1;
    }
    OffsetBlock(i, |dir|, v.dev.bs);
    assert dir[..|dir|] == dir;
    TakesIs(t, dir, e, v.dev.bs);
    ok, t', dir' := AddDirBlock(v, ino, e, t, dir);
    if ok && CanGrow(t, Cap(v.dev.bs)) { Behind(Listing(dir), Seen(e)); GrownIs(v.dev, v.dirty, v.Live(), ino.iBlock, t', dir, dir', e); }
  }

  lemma NothingFull(dir: Dir, need: nat)
    requires AllBlocks(dir[..0])
    ensures NoRoom(dir[..0], need)
  {
  }

  lemma OneMoreFull(dir: Dir, i: nat, need: nat)
    requires i < |dir| && AllBlocks(dir[..i]) && AllBlocks(dir[..i + 1]) && AllRecords(dir[i]) && NoRoom(dir[..i], need)
    requires forall k :: 0 <= k < |dir[i]| ==> Slack(dir[i][k]) < need
    ensures NoRoom(dir[..i + 1], need)
  {
    hide Record, Slack;
    assert BlockFull(dir[i], need);
    var more := dir[..i + 1];
    forall k | 0 <= k < |more| ensures BlockFull(more[k], need) {
      if k < i { assert more[k] == dir[..i][k]; }
    }
  }

  lemma TakesIs(t: Tree, dir: Dir, e: DirEnt, bs: nat)
    requires Sound(t) && AllBlocks(dir) && 0 < bs < 0x1_0000_0000 && Cap(bs) >= 0
    ensures !NoRoom(dir, MinSize(|e.name|)) ==> Takes(t, dir, e, Cap(bs)) && SizeHolds(dir, e, bs)
    ensures NoRoom(dir, MinSize(|e.name|)) ==> (Takes(t, dir, e, Cap(bs)) <==> CanGrow(t, Cap(bs)))
    ensures NoRoom(dir, MinSize(|e.name|)) ==> (Longer(Times(|dir|, bs), bs) == Times(|dir| + 1, bs) <==> SizeHolds(dir, e, bs))
    ensures Longer(Times(|dir|, bs), bs) != Times(|dir|, bs)
  {
    LongerBy(|dir|, bs);
    hide Times, Longer, CanGrow, NoRoom;
  }

  lemma Behind(l: seq<DirEnt>, more: seq<DirEnt>)
    ensures Inserted(l, l + more, more)
  {
    InsertedWithin(l, [], [], [], more);
    assert l + ([] + []) + [] == l && l + ([] + more + []) + [] == l + more;
  }

  /** What adding to record `at` of block i does to the listing. */
  lemma Placed(dir: Dir, i: nat, at: nat, e: DirEnt)
    requires AllBlocks(dir) && i < |dir| && AllRecords(dir[i]) && FirstWithRoom(dir[i], MinSize(|e.name|), at) && EntOk(e)
    ensures at < |dir[i]| && Record(dir[i][at]) && Slack(dir[i][at]) >= MinSize(|e.name|) && !NoRoom(dir, MinSize(|e.name|))
    ensures var dir' := dir[i := Added(dir[i], at, e)]; AllBlocks(dir') && Inserted(Listing(dir), Listing(dir'), Seen(e))
  {
    hide *;
    RoomHere(dir, i, at, MinSize(|e.name|));
    AddedEnts(dir[i], at, e);
    ListingAround(dir, i, Added(dir[i], at, e));
    InsertedWithin(Listing(dir[..i]), Ents(dir[i][..at + 1]), Ents(dir[i][at + 1..]), Listing(dir[i + 1..]), Seen(e));
  }

  lemma RoomHere(dir: Dir, i: nat, at: nat, need: nat)
    requires AllBlocks(dir) && i < |dir| && AllRecords(dir[i]) && FirstWithRoom(dir[i], need, at)
    ensures at < |dir[i]| && Record(dir[i][at]) && Slack(dir[i][at]) >= need && !NoRoom(dir, need)
  {
    hide Record, Slack;
    assert !BlockFull(dir[i], need);
  }
}
