/** The ext4 driver's file operations: extent append, positioned write and positioned read. */
module Ext4Volume {
  import opened Wrappers
  import opened Bytes
  import opened Chunks
  import opened Ext4Extents
  import opened Ext4Nodes
  import opened Ext4Store
  import opened Ext4File
  import opened Ext4Room
  import A = Ext4Allocator

  /** The fields of an inode that file data depends on. */
  class Inode {
    /** The block group of the inode, where its blocks are looked for first. */
    const group: nat
    var extents: bool
    var iBlock: seq<byte>
    var size: nat

    constructor (group: nat, extents: bool, iBlock: seq<byte>, size: nat)
      ensures this.group == group && this.extents == extents && this.iBlock == iBlock && this.size == size
    {
      this.group, this.extents, this.iBlock, this.size := group, extents, iBlock, size;
    }
  }

  /** The counters agree with the bitmaps, block numbers fit 48 bits, and block 0 is never handed out: it holds the
      superblock, or lies in front of the first group. */
  ghost predicate Usable(s: A.State, group: nat) {
    && A.Inv(s) && group < |s.groups| && 2 * |s.groups| <= TWO32 && A.Limit(s) < 0xFFFF_FFFF_FFFF
    && (s.start == 1 || 0 in A.LiveSet(s))
  }

  lemma UsableParts(s: A.State, group: nat)
    requires Usable(s, group)
    ensures A.Inv(s) && group < |s.groups| && 2 * |s.groups| <= TWO32
  {
  }

  lemma TookUsable(s: A.State, group: nat, op: A.Op)
    requires Usable(s, group) && A.Enabled(s, op) && op.Took?
    ensures Usable(A.Apply(s, op), group) && |A.Apply(s, op).groups| == |s.groups|
    ensures A.LiveSet(A.Apply(s, op)) == A.LiveSet(s) + {A.BlockOf(s, op)} && A.BlockOf(s, op) !in A.LiveSet(s)
    ensures 1 <= A.BlockOf(s, op) < 0xFFFF_FFFF_FFFF
  {
    A.TookLive(s, op);
    A.StepKeepsInv(s, op);
    hide A.Inv, A.Enabled, A.Apply, A.BlockOf, A.LiveSet;
    var s' := A.Apply(s, op);
    assert A.Limit(s') == A.Limit(s);
  }

  class Volume {
    const dev: Device
    const alloc: A.Allocator
    var dirty: Dirty

    constructor (dev: Device, alloc: A.Allocator)
      ensures this.dev == dev && this.alloc == alloc && dirty == map[]
    {
      this.dev, this.alloc, dirty := dev, alloc, map[];
    }

    /** The blocks the bitmaps mark in use. */
    ghost function Live(): set<nat>
      reads alloc
    {
      A.LiveSet(alloc.View())
    }

    /** Number of blocks the groups count as free. */
    ghost function Free(): nat
      reads alloc
    {
      A.Total(alloc.View().groups)
    }

    /** The allocator may be asked for a block near the group. */
    ghost predicate Ready(group: nat)
      reads alloc
    {
      Usable(alloc.View(), group)
    }

    method ReadBlock(b: nat) returns (r: Option<seq<byte>>)
      ensures r == Block(dev, dirty, b)
    {
      if b in dirty {
        return Some(dirty[b]);
      }
      if b >= |dev.blocks| {
        return None;
      }
      return Some(dev.blocks[b]);
    }

    method WriteBlock(b: nat, data: seq<byte>)
      requires |data| == dev.bs
      modifies `dirty
      ensures dirty == old(dirty)[b := data]
    {
      dirty := dirty[b := data];
    }

    /** Takes a block the bitmaps show as free, near the inode's group if possible; fails only if there is none. */
    method AllocBlock(group: nat) returns (r: Option<nat>)
      requires Ready(group)
      modifies alloc
      ensures Ready(group) && |alloc.View().groups| == |old(alloc.View().groups)|
      ensures r.None? ==> Live() == old(Live()) && A.Exhausted(alloc.View())
      ensures r.Some? ==> r.value !in old(Live()) && 1 <= r.value < 0xFFFF_FFFF_FFFF && Live() == old(Live()) + {r.value}
      ensures r.Some? <==> old(Free()) > 0
      ensures Free() == old(Free()) - if r.Some? then 1 else 0
    {
      hide *;
      ghost var s := alloc.View();
      ViewOf();
      UsableParts(s, group);
      ghost var op;
      r, op := alloc.AllocBlock(group);
      ViewOf();
      if r.Some? {
        TookUsable(s, group, op);
      }
    }

    lemma ViewOf()
      ensures Live() == A.LiveSet(alloc.View()) && |alloc.View().groups| == |alloc.groups| && Free() == A.Total(alloc.View().groups)
      ensures forall group: nat :: Ready(group) <==> Usable(alloc.View(), group)
    {
      hide A.LiveSet, Usable;
    }

    /** Looks a file block up in a tree of depth zero or one. */
    method SearchExtentNode(raw: seq<byte>, b: nat, ghost t: Tree) returns (r: Option<nat>)
      requires TreeAt(dev, dirty, raw, t) && b < 0x1_0000_0000
      ensures r == Some(Lookup(t, b))
    {
      hide LeafBytes, IndexBytes, Look, Route, ExtOf;
      TreeHead(dev, dirty, raw, t);
      if Le16(raw, 0) != 0xF30A {
        return None;
      }
      if Le16(raw, 6) == 0 {
        var x := SearchLeaf(raw, b, t.exts);
        return Some(x);
      }
      var found, child := SearchIndex(raw, b, t.firsts, t.at);
      if !found {
        return Some(0);
      }
      var i := Route(t.firsts, b);
      assert LeafAt(dev, dirty, t.at[i], t.leaves[i]);
      var node := ReadBlock(child);
      if node.None? {
        return None;
      }
      var x := SearchLeaf(node.value, b, t.leaves[i]);
      return Some(x);
    }

    method LogicalToPhysical(ino: Inode, b: nat, ghost t: Tree) returns (r: Option<nat>)
      requires TreeAt(dev, dirty, ino.iBlock, t) && b < 0x1_0000_0000
      ensures r == if ino.extents then Some(Lookup(t, b)) else None
    {
      if !ino.extents {
        return None;
      }
      r := SearchExtentNode(ino.iBlock, b, t);
    }

    /** Adds an extent to the tree, moving it out of the inode or starting a leaf where that is needed. */
    method AppendExtentToInode(ino: Inode, e: Ext, ghost t: Tree) returns (ok: bool, ghost t': Tree, ghost blk: nat)
      requires Ready(ino.group) && SizeOk(dev.bs) && |ino.iBlock| == 60 && LeavesIn(t, Live()) && ExtOk(e)
      requires Le16(ino.iBlock, 0) == 0xF30A ==> TreeAt(dev, dirty, ino.iBlock, t)
      requires Le16(ino.iBlock, 0) != 0xF30A ==> t == Inline([])
      modifies `dirty, alloc, ino`iBlock
      ensures Ready(ino.group) && TreeAt(dev, dirty, ino.iBlock, t') && LeavesIn(t', Live()) && old(Live()) <= Live()
      ensures !ok ==> A.Exhausted(alloc.View())
      ensures Sound(t) && Cap(dev.bs) >= 0 && (ok <==> LeafNeed(t, Cap(dev.bs)) <= old(Free()))
      ensures Free() == old(Free()) - if ok then LeafNeed(t, Cap(dev.bs)) else 0
      ensures ok ==> t' == Append(t, e, blk, Cap(dev.bs) as nat)
      ensures !ok ==> t' == t && dirty == old(dirty) && Live() == old(Live())
      ensures Kept(dev, old(dirty), dirty, old(Live()), At(t)) && NewLeaves(t, t', old(Live()))
    {
      hide *;
      t', blk := t, 0;
      CapBounds(dev.bs);
      KeptSame(dev, dirty, Live(), At(t));
      if Le16(ino.iBlock, 0) != 0xF30A {
        ino.iBlock := Initialised(ino.iBlock);
        EmptyTree(dev, dirty, ino.iBlock, old(ino.iBlock));
      }
      TreeHead(dev, dirty, ino.iBlock, t);
      var raw := ino.iBlock;
      var n := Le16(raw, 2);
      NeedIs(t, Cap(dev.bs));
      if Le16(raw, 6) == 0 && n < 4 {
        InlineGrown(dev, dirty, raw, t, e, 0, Cap(dev.bs));
        ino.iBlock := Grown(raw, n, NewExt(e));
        t' := Append(t, e, 0, Cap(dev.bs));
        AppendAt(t, e, 0, Cap(dev.bs));
        SameLeaves(t, t', Live());
        return true, t', 0;
      }
      ok, t', blk := AppendExtentIndirect(ino, e, t);
    }

    method AppendExtentIndirect(ino: Inode, e: Ext, ghost t: Tree) returns (ok: bool, ghost t': Tree, ghost blk: nat)
      requires Ready(ino.group) && SizeOk(dev.bs) && LeavesIn(t, Live()) && ExtOk(e) && TreeAt(dev, dirty, ino.iBlock, t) && Sound(t)
      requires t.Inline? ==> |t.exts| == 4
      modifies `dirty, alloc, ino`iBlock
      ensures Ready(ino.group) && TreeAt(dev, dirty, ino.iBlock, t') && LeavesIn(t', Live()) && old(Live()) <= Live()
      ensures !ok ==> A.Exhausted(alloc.View())
      ensures Cap(dev.bs) >= 0 && (ok <==> LeafNeed(t, Cap(dev.bs)) <= old(Free()))
      ensures Free() == old(Free()) - if ok then LeafNeed(t, Cap(dev.bs)) else 0
      ensures ok ==> t' == Append(t, e, blk, Cap(dev.bs) as nat)
      ensures !ok ==> t' == t && dirty == old(dirty) && Live() == old(Live())
      ensures Kept(dev, old(dirty), dirty, old(Live()), At(t)) && NewLeaves(t, t', old(Live()))
    {
      hide *;
      t', blk := t, 0;
      CapBounds(dev.bs);
      KeptSame(dev, dirty, Live(), At(t));
      SameLeaves(t, t, Live());
      var raw := ino.iBlock;
      TreeHead(dev, dirty, raw, t);
      NeedIs(t, Cap(dev.bs));
      if Le16(raw, 6) == 0 {
        var leafBlk := AllocBlock(ino.group);
        if leafBlk.None? {
          return false, t, 0;
        }
        blk := leafBlk.value;
        PromotedTree(dev, dirty, raw, t, e, blk);
        var leaf := Copied(raw, 4, dev.bs);
        WriteBlock(leafBlk.value, leaf);
        ino.iBlock := Promoted(leafBlk.value);
        WriteBlock(leafBlk.value, Grown(leaf, 4, NewExt(e)));
        t' := Append(t, e, blk, Cap(dev.bs));
        TwiceSet(old(dirty), blk, leaf, Grown(leaf, 4, NewExt(e)));
        AppendLeaves(t, e, blk, Cap(dev.bs), old(Live()));
        KeptBlock(dev, old(dirty), blk, Grown(leaf, 4, NewExt(e)), old(Live()), At(t));
        return true, t', blk;
      }
      ok, t', blk := AppendToLeaf(ino, e, t);
    }

    /** The tree has leaf blocks: the new extent goes to the last one, or to a new one. */
    method AppendToLeaf(ino: Inode, e: Ext, ghost t: Tree) returns (ok: bool, ghost t': Tree, ghost blk: nat)
      requires Ready(ino.group) && SizeOk(dev.bs) && LeavesIn(t, Live()) && ExtOk(e) && TreeAt(dev, dirty, ino.iBlock, t) && Sound(t) && t.Indexed?
      modifies `dirty, alloc, ino`iBlock
      ensures Ready(ino.group) && TreeAt(dev, dirty, ino.iBlock, t') && LeavesIn(t', Live()) && old(Live()) <= Live()
      ensures !ok ==> A.Exhausted(alloc.View())
      ensures Cap(dev.bs) >= 0 && (ok <==> LeafNeed(t, Cap(dev.bs)) <= old(Free()))
      ensures Free() == old(Free()) - if ok then LeafNeed(t, Cap(dev.bs)) else 0
      ensures ok ==> t' == Append(t, e, blk, Cap(dev.bs) as nat)
      ensures !ok ==> t' == t && dirty == old(dirty) && Live() == old(Live())
      ensures Kept(dev, old(dirty), dirty, old(Live()), At(t)) && NewLeaves(t, t', old(Live()))
    {
      hide *;
      ok, t', blk := false, t, 0;
      CapBounds(dev.bs);
      KeptSame(dev, dirty, Live(), At(t));
      SameLeaves(t, t, Live());
      var raw := ino.iBlock;
      TreeHead(dev, dirty, raw, t);
      var count := Le16(raw, 2);
      LastLeaf(dev, dirty, raw, t);
      var lastBlk := ChildOf(Entry(raw, count - 1));
      var node := ReadBlock(lastBlk);
      if node.None? {
        return;
      }
      var data := node.value;
      var n := Le16(data, 2);
      NeedIs(t, Cap(dev.bs));
      if n < Cap(dev.bs) {
        LastLeafGrown(dev, dirty, raw, t, e, 0, Live(), data);
        WriteBlock(lastBlk, Grown(data, n, NewExt(e)));
        t' := Append(t, e, 0, Cap(dev.bs));
        AppendAt(t, e, 0, Cap(dev.bs));
        SameLeaves(t, t', Live());
        KeptBlock(dev, old(dirty), lastBlk, Grown(data, n, NewExt(e)), Live(), At(t));
        return true, t', 0;
      }
      var newBlk := AllocBlock(ino.group);
      if newBlk.None? {
        return false, t, 0;
      }
      blk := newBlk.value;
      LeafAdded(dev, dirty, raw, t, e, blk, old(Live()));
      WriteBlock(newBlk.value, SingleLeaf(e, dev.bs));
      if count < 4 {
        ino.iBlock := Grown(raw, count, NewIdx(e.block, newBlk.value));
      }
      t' := Append(t, e, blk, Cap(dev.bs));
      AppendLeaves(t, e, blk, Cap(dev.bs), old(Live()));
      KeptBlock(dev, old(dirty), blk, SingleLeaf(e, dev.bs), old(Live()), At(t));
      return true, t', blk;
    }

    /** Writes a piece into one file block, mapping it first if it is a hole. */
    method WriteInBlock(ino: Inode, lo: nat, io: nat, piece: seq<byte>, ghost t: Tree)
      returns (ok: bool, ghost t': Tree, ghost base: seq<byte>, ghost x: nat, ghost blk: nat)
      requires Ready(ino.group) && FileAt(dev, dirty, Live(), ino.iBlock, t) && lo < 0x1_0000_0000 && io + |piece| <= dev.bs && Sound(t)
      modifies `dirty, alloc, ino`iBlock
      ensures Ready(ino.group) && FileAt(dev, dirty, Live(), ino.iBlock, t') && Sound(t') && dev.bs > 0
      ensures BaseIs(dev, old(dirty), t, lo, base)
      ensures Cap(dev.bs) >= 0 && (ok <==> ino.extents && (Lookup(t, lo) != 0 || 1 + LeafNeed(t, Cap(dev.bs)) <= old(Free())))
      ensures ok ==> Free() == old(Free()) - if Lookup(t, lo) != 0 then 0 else 1 + LeafNeed(t, Cap(dev.bs))
      ensures !ok && ino.extents ==> Free() == 0
      ensures ok && (Lookup(t, lo) == 0 ==> Accepts(t, Ext(lo, 1, 1), Cap(dev.bs) as nat)) ==>
        Patched(dev, old(dirty), t, dirty, t', lo, Splice(base, io, piece))
      ensures ok && Lookup(t, lo) != 0 ==> t' == t
      ensures ok && Lookup(t, lo) == 0 ==> t' == Append(t, Ext(lo, 1, x), blk, Cap(dev.bs) as nat) && x !in old(Live()) && ExtOk(Ext(lo, 1, x))
      ensures ok && Lookup(t, lo) == 0 && Accepts(t, Ext(lo, 1, 1), Cap(dev.bs) as nat) ==> Updates(t, t', Ext(lo, 1, x))
      ensures !ok ==> t' == t && dirty == old(dirty) && (!ino.extents || A.Exhausted(alloc.View()))
      ensures OthersKept(dev, old(dirty), t, dirty, t', old(Live())) && old(Live()) <= Live()
    {
      hide *;
      t', x, blk := t, 0, 0;
      FileFacts(dev, dirty, Live(), ino.iBlock, t);
      OthersNone(dev, dirty, t, Live());
      CapBounds(dev.bs);
      NeedIs(t, Cap(dev.bs));
      var phys := LogicalToPhysical(ino, lo, t);
      if Lookup(t, lo) == 0 { HoleBase(dev, dirty, t, lo); } else { MappedBase(dev, dirty, Live(), ino.iBlock, t, lo); }
      base := if Lookup(t, lo) == 0 then Zeros(dev.bs) else Block(dev, dirty, Lookup(t, lo)).value;
      BaseSize(dev, dirty, t, lo, base);
      if phys.None? {
        return false, t, base, 0, 0;
      }
      if phys.value != 0 {
        var current := ReadBlock(phys.value);
        var data := Splice(current.value, io, piece);
        MappedWrite(dev, dirty, Live(), ino.iBlock, t, lo, data);
        ReplacedPatched(dev, dirty, t, dirty[phys.value := data], t, lo, data);
        MappedOthers(dev, dirty, t, Live(), lo, data);
        WriteBlock(phys.value, data);
        return true, t, base, 0, 0;
      }
      ghost var d0, live0, raw0 := dirty, Live(), ino.iBlock;
      var found := AllocBlock(ino.group);
      if found.None? {
        return false, t, base, 0, 0;
      }
      x := found.value;
      ghost var live1 := Live();
      MoreLive(dev, dirty, live0, raw0, t, live1);
      CapBounds(dev.bs);
      FreshExt(lo, x);
      HoleAt(t, lo, x);
      TreeHead(dev, dirty, ino.iBlock, t);
      StillIn(t, live0, Live());
      ok, t', blk := AppendExtentToInode(ino, Ext(lo, 1, found.value), t);
      if !ok {
        MoreLive(dev, d0, live0, raw0, t, Live());
        SameTree(dev, d0, live0, raw0, Live(), ino.iBlock, t);
        return;
      }
      AppendSound(t, Ext(lo, 1, x), blk, Cap(dev.bs));
      AppendGives(t, lo, x, blk, Cap(dev.bs));
      if Accepts(t, Ext(lo, 1, 1), Cap(dev.bs)) {
        AcceptsAny(t, lo, x, Cap(dev.bs));
        AppendIsUpdate(t, Ext(lo, 1, x), blk, Cap(dev.bs));
      }
      var data := Splice(Zeros(dev.bs), io, piece);
      KeptLess(dev, d0, dirty, live0, live1, At(t));
      ghost var d2 := dirty[x := data];
      forall b: nat ensures Block(dev, d2, b) == if b == x then Some(data) else Block(dev, dirty, b) {
        BlockSet(dev, dirty, x, data, b);
      }
      HoleWrite(dev, d0, live0, raw0, t, lo, x, dirty, Live(), ino.iBlock, t', d2, data);
      HoleOthers(dev, d0, t, live0, lo, x, dirty, t', d2, data);
      if Updates(t, t', Ext(lo, 1, x)) { ReplacedPatched(dev, d0, t, d2, t', lo, data); }
      WriteBlock(found.value, data);
    }

    /** Writes `data` at byte offset `off`. The file stays well formed, other files are left alone. The call stops only without
        the extents flag, or at a hole when no block is left for it or for the leaf it needs; if the holes fit the tree, it
        succeeds exactly if there are blocks for them all. The holes of the range are mapped afterwards, and all
        other blocks as before, exactly if they fit the tree; then what is written can be read there and nothing else in
        the file changes. The size grows as far as was written. */
    method WriteFileRange(ino: Inode, off: nat, data: seq<byte>, ghost t: Tree) returns (total: nat, ok: bool, ghost t': Tree)
      requires Ready(ino.group) && FileAt(dev, dirty, Live(), ino.iBlock, t) && Sound(t) && dev.bs > 0
      requires |data| > 0 ==> BlockNo(off + |data| - 1, dev.bs) < 0x1_0000_0000
      modifies `dirty, alloc, ino`iBlock, ino`size
      ensures Ready(ino.group) && FileAt(dev, dirty, Live(), ino.iBlock, t') && Sound(t') && total <= |data|
      ensures if ok then total == |data| else !ino.extents || A.Exhausted(alloc.View())
      ensures |data| == 0 ==> ok
      ensures !ok && ino.extents ==> total < |data| && Free() == 0 && Lookup(t', BlockNo(off + total, dev.bs)) == 0
      ensures |data| > 0 && HasRoom(dev, t, off, data) ==> (ok <==> ino.extents && CanPay(dev, t, off, data, old(Free())))
      ensures HasRoom(dev, t, off, data) ==> Written(dev, old(dirty), t, dirty, t', off, data, total)
      ensures ok && |data| > 0 ==> (HasRoom(dev, t, off, data) <==> Mapped(t, t', BlockNo(off, dev.bs), LastBlockNo(dev, off, data) + 1))
      ensures OthersKept(dev, old(dirty), t, dirty, t', old(Live())) && old(Live()) <= Live()
      ensures ino.size == if ok && |data| > 0 && off + |data| > old(ino.size) then off + |data| else old(ino.size)
    {
      hide *;
      total, t' := 0, t;
      WrittenNone(dev, dirty, t, off, data);
      OthersNone(dev, dirty, t, Live());
      if |data| == 0 {
        return 0, true, t;
      }
      FileFacts(dev, dirty, Live(), ino.iBlock, t);
      CapBounds(dev.bs);
      RoomIs(dev, t, off, data);
      MappedLive(dev, dirty, Live(), t);
      ghost var d0, live0, first, hi, lost: int := dirty, Live(), BlockNo(off, dev.bs), LastBlockNo(dev, off, data) + 1, -1;
      ghost var cur: nat := first;
      BlockRange(off, off + |data|, dev.bs);
      TreeFilled(dev, dirty, ino.iBlock, t);
      FillingStarts(t, first, hi, Cap(dev.bs), live0);
      PayIs(dev, t, off, data, Free());
      while total < |data|
        invariant total > 0 ==> ino.extents
        invariant total <= |data| && Ready(ino.group) && FileAt(dev, dirty, Live(), ino.iBlock, t') && Sound(t') && ino.size == old(ino.size)
        invariant OthersKept(dev, old(dirty), t, dirty, t', live0) && live0 <= Live()
        invariant Filling(t, t', first, cur, hi, Cap(dev.bs), live0, lost)
        invariant lost < 0 ==> Written(dev, d0, t, dirty, t', off, data, total)
        invariant lost < 0 ==> (Affords(t', cur, hi, Cap(dev.bs), Free()) <==> Affords(t, first, hi, Cap(dev.bs), old(Free())))
        invariant first <= cur <= hi && cur == if total < |data| then BlockNo(off + total, dev.bs) else hi
      {
        var q := off + total;
        var lo, io := BlockNo(q, dev.bs), OffsetOf(q, dev.bs);
        var can := if |data| - total < dev.bs - io then |data| - total else dev.bs - io;
        BlockRange(q, off + |data|, dev.bs);
        ghost var d1, t1, live1, free1, was := dirty, t', Live(), Free(), lost;
        var done;
        ghost var t2, base, x, blk;
        done, t2, base, x, blk := WriteInBlock(ino, lo, io, data[total..total + can], t1);
        OthersStep(dev, old(dirty), t, live0, d1, t1, live1, dirty, t2);
        FillingFilled(t, t1, first, cur, hi, Cap(dev.bs), live0, lost);
        if !done {
          FillingLost(t, t1, first, cur, hi, Cap(dev.bs), live0, lost);
          if ino.extents && lost < 0 { AffordsFirst(t1, lo, hi, Cap(dev.bs), free1); }
          return total, false, t1;
        }
        if Lookup(t1, lo) == 0 {
          HoleAt(t1, lo, x);
          AppendSound(t1, Ext(lo, 1, x), blk, Cap(dev.bs));
          AcceptsAny(t1, lo, x, Cap(dev.bs));
          if Accepts(t1, Ext(lo, 1, x), Cap(dev.bs)) { AffordsStep(t1, lo, hi, Cap(dev.bs), x, blk, free1); }
          lost := FillingStep(t, t1, first, lo, hi, Cap(dev.bs), live0, lost, x, blk);
          AcceptsAny(t1, lo, x, Cap(dev.bs));
        } else {
          FillingSkips(t, t1, first, lo, hi, Cap(dev.bs), live0, lost);
          AffordsSkips(t1, lo, hi, Cap(dev.bs), free1);
        }
        if lost < 0 {
          WrittenStep(dev, d0, t, d1, t1, off, data, total, dirty, t2, base, can);
        }
        if can == dev.bs - io { NextBlock(q, dev.bs, can); }
        LastInside(dev, q, can);
        cur := lo + 1;
        total, t' := total + can, t2;
      }
      FillingEnds(t, t', first, hi, Cap(dev.bs), live0, lost);
      FillingFilled(t, t', first, hi, hi, Cap(dev.bs), live0, lost);
      AffordsEnd(t', hi, Cap(dev.bs), Free());
      if off + total > ino.size {
        ino.size := off + total;
      }
      ok := true;
    }

    /** Reads up to n bytes at `off`, none past the end of the file. */
    method ReadFileRange(ino: Inode, off: nat, n: nat, ghost t: Tree) returns (r: Option<seq<byte>>)
      requires FileAt(dev, dirty, Live(), ino.iBlock, t) && Sound(t) && dev.bs > 0
      requires ino.size > 0 ==> BlockNo(ino.size - 1, dev.bs) < 0x1_0000_0000
      ensures r.None? <==> off >= ino.size || (n > 0 && !ino.extents)
      ensures r.Some? ==> |r.value| == if n > ino.size - off then ino.size - off else n
      ensures r.Some? ==> Reads(dev, dirty, t, off, r.value)
    {
      hide *;
      if off >= ino.size {
        return None;
      }
      FileFacts(dev, dirty, Live(), ino.iBlock, t);
      var want := if n > ino.size - off then ino.size - off else n;
      var out: seq<byte> := [];
      ReadsNone(dev, dirty, t, off);
      while |out| < want
        invariant |out| <= want && Reads(dev, dirty, t, off, out) && (|out| > 0 ==> ino.extents)
        decreases want - |out|
      {
        var q := off + |out|;
        var lo, io := BlockNo(q, dev.bs), OffsetOf(q, dev.bs);
        BlockRange(q, ino.size, dev.bs);
        var phys := LogicalToPhysical(ino, lo, t);
        if phys.None? {
          return None;
        }
        if Lookup(t, lo) == 0 { HoleBase(dev, dirty, t, lo); } else { MappedBase(dev, dirty, Live(), ino.iBlock, t, lo); }
        var data := Zeros(dev.bs);
        if phys.value != 0 {
          var b := ReadBlock(phys.value);
          data := b.value;
        }
        BaseSize(dev, dirty, t, lo, data);
        var can := if want - |out| < dev.bs - io then want - |out| else dev.bs - io;
        ReadStep(dev, dirty, t, off, out, data, can);
        out := out + data[io..io + can];
      }
      return Some(out);
    }
  }

  lemma NeedIs(t: Tree, cap: nat)
    requires Sound(t)
    ensures t.Inline? ==> LeafNeed(t, cap) == if |t.exts| < 4 then 0 else 1
    ensures t.Indexed? ==> |t.leaves| > 0 && LeafNeed(t, cap) == if |t.leaves[|t.leaves| - 1]| < cap then 0 else 1
  {
    hide ExtOk;
  }

  /** The file block of the last byte. */
  function LastBlockNo(dev: Device, off: nat, data: seq<byte>): nat
    requires dev.bs > 0 && |data| > 0
  {
    BlockNo(off + |data| - 1, dev.bs)
  }

  /** The blocks of the range that are holes fit the tree, within its capacity and order. */
  ghost predicate HasRoom(dev: Device, t: Tree, off: nat, data: seq<byte>)
    requires Sound(t) && dev.bs > 0
  {
    |data| > 0 ==> Cap(dev.bs) >= 0 && RoomFor(t, BlockNo(off, dev.bs), LastBlockNo(dev, off, data) + 1, Cap(dev.bs))
  }

  lemma RoomIs(dev: Device, t: Tree, off: nat, data: seq<byte>)
    requires Sound(t) && dev.bs > 0 && |data| > 0 && Cap(dev.bs) >= 0
    ensures HasRoom(dev, t, off, data) <==> RoomFor(t, BlockNo(off, dev.bs), LastBlockNo(dev, off, data) + 1, Cap(dev.bs))
    ensures LastBlockNo(dev, off, data) == BlockNo(off + |data| - 1, dev.bs)
  {
    hide RoomFor, Cap;
  }

  /** There are blocks for the holes of the range, and for the leaves they need. */
  ghost predicate CanPay(dev: Device, t: Tree, off: nat, data: seq<byte>, free: nat)
    requires Sound(t) && dev.bs > 0 && |data| > 0
  {
    Cap(dev.bs) > 0 && Affords(t, BlockNo(off, dev.bs), LastBlockNo(dev, off, data) + 1, Cap(dev.bs), free)
  }

  lemma PayIs(dev: Device, t: Tree, off: nat, data: seq<byte>, free: nat)
    requires Sound(t) && dev.bs > 0 && |data| > 0 && Cap(dev.bs) > 0
    ensures CanPay(dev, t, off, data, free) <==> Affords(t, BlockNo(off, dev.bs), LastBlockNo(dev, off, data) + 1, Cap(dev.bs), free)
  {
    hide Affords, Cap;
  }

  lemma MappedLive(dev: Device, d: Dirty, live: set<nat>, t: Tree)
    requires Sound(t) && DataAt(dev, d, live, t)
    ensures forall b: nat :: Lookup(t, b) != 0 ==> Lookup(t, b) in live
  {
    hide Lookup, BlockOk, At;
  }

  /** A range with room loses nothing on the way. */
  lemma FillingLost(t: Tree, t1: Tree, lo: nat, cur: nat, hi: nat, cap: nat, live: set<nat>, lost: int)
    requires Sound(t) && Sound(t1) && Filling(t, t1, lo, cur, hi, cap, live, lost)
    ensures RoomFor(t, lo, hi, cap) ==> lost < 0
  {
    hide RoomFor, Lookup, Filled;
  }

  lemma AcceptsAny(t: Tree, lo: nat, x: nat, cap: nat)
    requires Sound(t)
    ensures Accepts(t, Ext(lo, 1, x), cap) <==> Accepts(t, Ext(lo, 1, 1), cap)
  {
    hide Lookup, Route;
  }

  /** Writing up to the end of a block stays in it. */
  lemma LastInside(dev: Device, q: nat, can: nat)
    requires dev.bs > 0 && 0 < can <= dev.bs - OffsetOf(q, dev.bs)
    ensures BlockNo(q + can - 1, dev.bs) == BlockNo(q, dev.bs)
  {
    InBlock(q, q + can - 1, dev.bs, can);
  }

  lemma AppendGives(t: Tree, lo: nat, x: nat, blk: nat, cap: nat)
    requires Sound(t) && ExtOk(Ext(lo, 1, x)) && Sound(Append(t, Ext(lo, 1, x), blk, cap))
    ensures Sources(t, Append(t, Ext(lo, 1, x), blk, cap), lo, x)
  {
    hide Lookup, Append;
    forall b: nat ensures var y := Lookup(Append(t, Ext(lo, 1, x), blk, cap), b); y == 0 || y == Lookup(t, b) || (b == lo && y == x) {
      AppendSources(t, Ext(lo, 1, x), blk, cap, b);
    }
  }

  lemma KeptLess(dev: Device, d: Dirty, d': Dirty, live: set<nat>, more: set<nat>, at: seq<nat>)
    requires Kept(dev, d, d', more, at) && live <= more
    ensures Kept(dev, d, d', live, at)
  {
  }

  lemma KeptSame(dev: Device, d: Dirty, live: set<nat>, at: seq<nat>)
    ensures Kept(dev, d, d, live, at)
  {
  }

  lemma TwiceSet(d: Dirty, b: nat, x: seq<byte>, y: seq<byte>)
    ensures d[b := x][b := y] == d[b := y]
  {
  }

  lemma EmptyTree(dev: Device, d: Dirty, raw: seq<byte>, was: seq<byte>)
    requires |was| == 60 && raw == Initialised(was)
    ensures TreeAt(dev, d, raw, Inline([]))
  {
    InitialisedLeaf(was);
  }

  /** What the header of the inode's node says. */
  lemma TreeHead(dev: Device, d: Dirty, raw: seq<byte>, t: Tree)
    requires TreeAt(dev, d, raw, t)
    ensures |raw| == 60 && Sound(t) && Le16(raw, 0) == 0xF30A
    ensures t.Inline? ==> Le16(raw, 6) == 0 && Le16(raw, 2) == |t.exts| <= 4 && LeafBytes(raw, t.exts) && AllOk(t.exts)
    ensures t.Indexed? ==> Le16(raw, 6) == 1 && Le16(raw, 2) == |t.firsts| <= 4 && IndexBytes(raw, t.firsts, t.at) && |t.firsts| >= 1
  {
    hide ExtOf, FirstOf, ChildOf, AllOk;
  }

  lemma LastLeaf(dev: Device, d: Dirty, raw: seq<byte>, t: Tree)
    requires TreeAt(dev, d, raw, t) && t.Indexed? && Sound(t)
    ensures var k := |t.leaves| - 1;
            && |t.at| == |t.leaves| == |t.firsts| && EntryOff(k) + 12 <= |raw| && ChildOf(Entry(raw, k)) == t.at[k] && t.at[k] in At(t)
            && LeafAt(dev, d, t.at[k], t.leaves[k])
    ensures var b := Block(dev, d, t.at[|t.leaves| - 1]);
            b.Some? && |b.value| == dev.bs && |b.value| >= 12 && Le16(b.value, 2) == |t.leaves[|t.leaves| - 1]| <= Cap(dev.bs)
  {
    hide ExtOf, FirstOf, AllOk;
    assert LeafAt(dev, d, t.at[|t.leaves| - 1], t.leaves[|t.leaves| - 1]);
  }

  /** Without a new block the leaves stay where they are. */
  lemma AppendAt(t: Tree, e: Ext, blk: nat, cap: nat)
    requires Sound(t)
    ensures t.Inline? && |t.exts| < 4 ==> At(Append(t, e, blk, cap)) == At(t)
    ensures t.Indexed? && |t.leaves[|t.leaves| - 1]| < cap ==> At(Append(t, e, blk, cap)) == At(t)
  {
  }

  lemma BaseSize(dev: Device, d: Dirty, t: Tree, lo: nat, base: seq<byte>)
    requires Sound(t) && dev.bs > 0 && BaseIs(dev, d, t, lo, base)
    ensures |base| == dev.bs
  {
  }

  /** More blocks in use elsewhere do not matter. */
  lemma MoreLive(dev: Device, d: Dirty, live: set<nat>, raw: seq<byte>, t: Tree, live': set<nat>)
    requires FileAt(dev, d, live, raw, t) && live <= live'
    ensures FileAt(dev, d, live', raw, t)
  {
    hide Lookup, TreeAt, BlockOk, LeafBytes, IndexBytes;
  }

  lemma StillIn(t: Tree, live: set<nat>, live': set<nat>)
    requires LeavesIn(t, live) && live <= live'
    ensures LeavesIn(t, live')
  {
  }

  lemma SameTree(dev: Device, d: Dirty, live: set<nat>, raw: seq<byte>, live': set<nat>, raw': seq<byte>, t: Tree)
    requires FileAt(dev, d, live, raw, t) && live <= live' && TreeAt(dev, d, raw', t)
    ensures FileAt(dev, d, live', raw', t)
  {
    MoreLive(dev, d, live, raw, t, live');
  }

  lemma FreshExt(lo: nat, x: nat)
    requires lo < 0x1_0000_0000 && 1 <= x < 0xFFFF_FFFF_FFFF
    ensures ExtOk(Ext(lo, 1, x))
  {
  }

  lemma WrittenNone(dev: Device, d: Dirty, t: Tree, off: nat, data: seq<byte>)
    requires Sound(t) && dev.bs > 0
    ensures Written(dev, d, t, d, t, off, data, 0)
  {
    hide ByteAt;
  }

  lemma TreeFilled(dev: Device, d: Dirty, raw: seq<byte>, t: Tree)
    requires TreeAt(dev, d, raw, t) && SizeOk(dev.bs) && Sound(t) && Cap(dev.bs) >= 0
    ensures Filled(t, Cap(dev.bs))
  {
    hide LeafBytes, IndexBytes, AllOk;
    if t.Indexed? {
      forall i | 0 <= i < |t.leaves| ensures |t.leaves[i]| <= Cap(dev.bs) {
        assert LeafAt(dev, d, t.at[i], t.leaves[i]);
      }
    }
  }

  lemma BlockRange(q: nat, end: nat, bs: nat)
    requires bs > 0 && q < end
    ensures BlockNo(q, bs) <= BlockNo(end - 1, bs)
  {
    Positions(end - 1, bs);
    hide BlockNo, OffsetOf;
    var k: int := BlockNo(end - 1, bs) - BlockNo(q, bs);
    assert k * bs == BlockNo(end - 1, bs) * bs - BlockNo(q, bs) * bs;
    Multiples(k, bs);
  }

  lemma NextBlock(q: nat, bs: nat, can: nat)
    requires bs > 0 && can == bs - OffsetOf(q, bs)
    ensures BlockNo(q + can, bs) == BlockNo(q, bs) + 1
  {
    Positions(q, bs);
    hide BlockNo, OffsetOf;
    var k: int := BlockNo(q + can, bs) - BlockNo(q, bs);
    assert k * bs == BlockNo(q + can, bs) * bs - BlockNo(q, bs) * bs;
    assert (k - 1) * bs == k * bs - bs;
    Multiples(k - 1, bs);
  }

  lemma ReadsNone(dev: Device, d: Dirty, t: Tree, off: nat)
    requires Sound(t) && dev.bs > 0
    ensures Reads(dev, d, t, off, [])
  {
  }
}
