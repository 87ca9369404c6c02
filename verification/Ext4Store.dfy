/** Where an inode's extent tree and data are: block store, tree shape on it, and growth of the tree. */
module Ext4Store {
  import opened Wrappers
  import opened Bytes
  import opened Ext4Extents
  import opened Ext4Nodes

  /** A device cut into blocks of bs bytes. */
  datatype Device = Device(blocks: seq<seq<byte>>, bs: nat)

  predicate SizeOk(bs: nat) {
    1024 <= bs <= 0x1_0000
  }

  function Cap(bs: nat): (r: int)
    ensures 12 + 12 * r <= bs < 24 + 12 * r
  {
    (bs - 12) / 12
  }

  type Dirty = map<nat, seq<byte>>

  /** A block as the driver sees it: staged or on the device. */
  function Block(dev: Device, dirty: Dirty, b: nat): Option<seq<byte>> {
    if b in dirty then Some(dirty[b]) else if b < |dev.blocks| then Some(dev.blocks[b]) else None
  }

  ghost predicate LeafAt(dev: Device, dirty: Dirty, blk: nat, exts: seq<Ext>) {
    var b := Block(dev, dirty, blk);
    b.Some? && |b.value| == dev.bs && LeafBytes(b.value, exts) && |exts| <= Cap(dev.bs)
  }

  function At(t: Tree): seq<nat> {
    if t.Indexed? then t.at else []
  }

  /** Inode bytes and leaf blocks together store tree t. */
  ghost predicate TreeAt(dev: Device, dirty: Dirty, raw: seq<byte>, t: Tree) {
    && |raw| == 60 && Sound(t)
    && match t
       case Inline(exts) => LeafBytes(raw, exts)
       case Indexed(firsts, at, leaves) =>
         && IndexBytes(raw, firsts, at)
         && forall i :: 0 <= i < |at| ==> LeafAt(dev, dirty, at[i], leaves[i])
  }

  ghost predicate LeavesIn(t: Tree, live: set<nat>) {
    var at := At(t);
    && (forall i :: 0 <= i < |at| ==> at[i] in live && at[i] < 0x1_0000_0000_0000)
    && (forall i, j :: 0 <= i < j < |at| ==> at[i] != at[j])
  }

  /** Blocks in use outside the tree's leaves are as before. */
  ghost predicate Kept(dev: Device, dirty: Dirty, dirty': Dirty, live: set<nat>, at: seq<nat>) {
    forall x :: x in live && x !in at ==> Block(dev, dirty', x) == Block(dev, dirty, x)
  }

  ghost predicate NewLeaves(t: Tree, t': Tree, live: set<nat>) {
    forall x :: x in At(t') ==> x in At(t) || x !in live
  }

  lemma BlockSet(dev: Device, dirty: Dirty, x: nat, d: seq<byte>, b: nat)
    ensures Block(dev, dirty[x := d], b) == if b == x then Some(d) else Block(dev, dirty, b)
  {
  }

  lemma CapBounds(bs: nat)
    requires SizeOk(bs)
    ensures 84 <= Cap(bs) < 0x1_0000 && 12 + 12 * Cap(bs) <= bs
  {
  }

  /** Room in the inode. */
  lemma InlineGrown(dev: Device, dirty: Dirty, raw: seq<byte>, t: Tree, e: Ext, blk: nat, cap: nat)
    requires TreeAt(dev, dirty, raw, t) && t.Inline? && |t.exts| < 4 && ExtOk(e)
    ensures EntryOff(|t.exts|) + 12 <= 60 && TreeAt(dev, dirty, Grown(raw, |t.exts|, NewExt(e)), Append(t, e, blk, cap))
  {
    hide LeafBytes, ExtOk, Grown, NewExt;
    LeafGrown(raw, t.exts, e);
    AppendSound(t, e, blk, cap);
  }

  /** The inode is full: its extents move to a leaf block, with the new one behind them. */
  lemma PromotedTree(dev: Device, dirty: Dirty, raw: seq<byte>, t: Tree, e: Ext, blk: nat)
    requires SizeOk(dev.bs) && TreeAt(dev, dirty, raw, t) && t.Inline? && |t.exts| == 4 && ExtOk(e) && blk < 0x1_0000_0000_0000
    ensures EntryOff(4) <= 60 && EntryOff(4) + 12 <= dev.bs
    ensures var leaf := Grown(Copied(raw, 4, dev.bs), 4, NewExt(e));
            TreeAt(dev, dirty[blk := leaf], Promoted(blk), Append(t, e, blk, Cap(dev.bs)))
  {
    hide LeafBytes, IndexBytes, ExtOk, Grown, NewExt, Copied, Promoted;
    CopiedLeaf(raw, t.exts, dev.bs);
    LeafGrown(Copied(raw, 4, dev.bs), t.exts, e);
    PromotedIndex(blk);
    AppendSound(t, e, blk, Cap(dev.bs));
  }

  /** Room in the last leaf. */
  lemma LastLeafGrown(dev: Device, dirty: Dirty, raw: seq<byte>, t: Tree, e: Ext, blk: nat, live: set<nat>, data: seq<byte>)
    requires SizeOk(dev.bs) && TreeAt(dev, dirty, raw, t) && LeavesIn(t, live) && t.Indexed? && ExtOk(e)
    requires var k := |t.leaves| - 1; |t.leaves[k]| < Cap(dev.bs) && Block(dev, dirty, t.at[k]) == Some(data)
    ensures var k := |t.leaves| - 1;
            && EntryOff(|t.leaves[k]|) + 12 <= |data|
            && TreeAt(dev, dirty[t.at[k] := Grown(data, |t.leaves[k]|, NewExt(e))], raw, Append(t, e, blk, Cap(dev.bs)))
  {
    hide LeafBytes, IndexBytes, ExtOk, Grown, NewExt, AllOk;
    var k := |t.leaves| - 1;
    assert At(t) == t.at && LeafAt(dev, dirty, t.at[k], t.leaves[k]);
    LeafGrown(data, t.leaves[k], e);
    AppendSound(t, e, blk, Cap(dev.bs));
    var d := Grown(data, |t.leaves[k]|, NewExt(e));
    var leaves := t.leaves[k := t.leaves[k] + [e]];
    forall i | 0 <= i < |t.at| ensures LeafAt(dev, dirty[t.at[k] := d], t.at[i], leaves[i]) {
      assert i < k ==> At(t)[i] != At(t)[k] && LeafAt(dev, dirty, t.at[i], t.leaves[i]);
    }
  }

  /** The last leaf is full: a leaf more, or, without an index entry for it, nothing. */
  lemma LeafAdded(dev: Device, dirty: Dirty, raw: seq<byte>, t: Tree, e: Ext, blk: nat, live: set<nat>)
    requires SizeOk(dev.bs) && TreeAt(dev, dirty, raw, t) && LeavesIn(t, live) && t.Indexed? && ExtOk(e)
    requires |t.leaves[|t.leaves| - 1]| >= Cap(dev.bs) && blk !in live && blk < 0x1_0000_0000_0000
    ensures var d := dirty[blk := SingleLeaf(e, dev.bs)];
            var n := |t.firsts|;
            && (n < 4 ==> EntryOff(n) + 12 <= 60 && TreeAt(dev, d, Grown(raw, n, NewIdx(e.block, blk)), Append(t, e, blk, Cap(dev.bs))))
            && (n == 4 ==> TreeAt(dev, d, raw, Append(t, e, blk, Cap(dev.bs))))
  {
    hide LeafBytes, IndexBytes, Grown, NewIdx, SingleLeaf, AllOk;
    var d, n := dirty[blk := SingleLeaf(e, dev.bs)], |t.firsts|;
    AppendSound(t, e, blk, Cap(dev.bs));
    SingleLeafReads(e, dev.bs);
    forall i | 0 <= i < n ensures LeafAt(dev, d, t.at[i], t.leaves[i]) {
      assert At(t)[i] in live && LeafAt(dev, dirty, t.at[i], t.leaves[i]);
    }
    BlockSet(dev, dirty, blk, SingleLeaf(e, dev.bs), blk);
    if n < 4 {
      IndexGrown(raw, t.firsts, t.at, e.block, blk);
    }
  }

  lemma AppendLeaves(t: Tree, e: Ext, blk: nat, cap: nat, live: set<nat>)
    requires Sound(t) && LeavesIn(t, live) && blk !in live && blk < 0x1_0000_0000_0000
    ensures LeavesIn(Append(t, e, blk, cap), live + {blk}) && NewLeaves(t, Append(t, e, blk, cap), live)
  {
  }

  /** The same, when no block was needed. */
  lemma SameLeaves(t: Tree, t': Tree, live: set<nat>)
    requires LeavesIn(t, live) && At(t') == At(t)
    ensures LeavesIn(t', live) && NewLeaves(t, t', live)
  {
  }

  lemma KeptBlock(dev: Device, dirty: Dirty, x: nat, d: seq<byte>, live: set<nat>, at: seq<nat>)
    requires x in at || x !in live
    ensures Kept(dev, dirty, dirty[x := d], live, at)
  {
  }
}
