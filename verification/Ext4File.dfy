/** Writing and reading byte ranges of an ext4 file through its extent tree. */
module Ext4File {
  import opened Wrappers
  import opened Bytes
  import opened Chunks
  import opened Ext4Extents
  import opened Ext4Nodes
  import opened Ext4Store

  /** The file block of byte p, and its place in there. */
  function BlockNo(p: nat, bs: nat): nat
    requires bs > 0
  {
    p / bs
  }

  function OffsetOf(p: nat, bs: nat): (r: nat)
    requires bs > 0
    ensures r < bs
  {
    p % bs
  }

  ghost predicate BlockOk(dev: Device, dirty: Dirty, x: nat) {
    var b := Block(dev, dirty, x);
    b.Some? && |b.value| == dev.bs
  }

  /** Mapped blocks are in use, readable and not leaves of the tree. */
  ghost predicate DataAt(dev: Device, dirty: Dirty, live: set<nat>, t: Tree)
    requires Sound(t)
  {
    forall b: nat :: Lookup(t, b) != 0 ==> Lookup(t, b) in live && Lookup(t, b) !in At(t) && BlockOk(dev, dirty, Lookup(t, b))
  }

  /** No device block serves two file blocks. */
  ghost predicate OneToOne(t: Tree)
    requires Sound(t)
  {
    forall a: nat, b: nat :: Lookup(t, a) != 0 && Lookup(t, a) == Lookup(t, b) ==> a == b
  }

  ghost predicate FileAt(dev: Device, dirty: Dirty, live: set<nat>, raw: seq<byte>, t: Tree) {
    SizeOk(dev.bs) && TreeAt(dev, dirty, raw, t) && LeavesIn(t, live) && DataAt(dev, dirty, live, t) && OneToOne(t)
  }

  /** Byte p of the file; holes read as zero. */
  ghost function ByteAt(dev: Device, dirty: Dirty, t: Tree, p: nat): byte
    requires Sound(t) && dev.bs > 0
  {
    var x := Lookup(t, BlockNo(p, dev.bs));
    var b := Block(dev, dirty, x);
    if x != 0 && b.Some? && OffsetOf(p, dev.bs) < |b.value| then b.value[OffsetOf(p, dev.bs)] else 0
  }

  /** File block lo now holds nd; every other byte of the file is as before. */
  ghost predicate Patched(dev: Device, d: Dirty, t: Tree, d': Dirty, t': Tree, lo: nat, nd: seq<byte>)
    requires Sound(t) && Sound(t') && dev.bs > 0
  {
    && |nd| == dev.bs
    && forall p: nat :: ByteAt(dev, d', t', p) == if BlockNo(p, dev.bs) == lo then nd[OffsetOf(p, dev.bs)] else ByteAt(dev, d, t, p)
  }

  /** File block lo now is a device block that holds nd; the other file blocks are where and as they were. */
  ghost predicate Replaced(dev: Device, d: Dirty, t: Tree, d': Dirty, t': Tree, lo: nat, nd: seq<byte>)
    requires Sound(t) && Sound(t')
  {
    && Lookup(t', lo) != 0 && Block(dev, d', Lookup(t', lo)) == Some(nd)
    && forall b: nat :: b != lo ==> SameBlock(dev, d, t, d', t', b)
  }

  ghost predicate SameBlock(dev: Device, d: Dirty, t: Tree, d': Dirty, t': Tree, b: nat)
    requires Sound(t) && Sound(t')
  {
    Lookup(t', b) == Lookup(t, b) && (Lookup(t, b) != 0 ==> Block(dev, d', Lookup(t, b)) == Block(dev, d, Lookup(t, b)))
  }

  lemma ReplacedPatched(dev: Device, d: Dirty, t: Tree, d': Dirty, t': Tree, lo: nat, nd: seq<byte>)
    requires Sound(t) && Sound(t') && Replaced(dev, d, t, d', t', lo, nd) && |nd| == dev.bs > 0
    ensures Patched(dev, d, t, d', t', lo, nd)
  {
    hide BlockNo, OffsetOf, Lookup, Block;
    forall p: nat ensures ByteAt(dev, d', t', p) == if BlockNo(p, dev.bs) == lo then nd[OffsetOf(p, dev.bs)] else ByteAt(dev, d, t, p) {
      assert BlockNo(p, dev.bs) != lo ==> SameBlock(dev, d, t, d', t', BlockNo(p, dev.bs));
    }
  }

  /** What file block lo holds before it is written. */
  ghost predicate BaseIs(dev: Device, d: Dirty, t: Tree, lo: nat, base: seq<byte>)
    requires Sound(t) && dev.bs > 0
  {
    && |base| == dev.bs
    && forall p: nat :: BlockNo(p, dev.bs) == lo ==> base[OffsetOf(p, dev.bs)] == ByteAt(dev, d, t, p)
  }

  lemma FileFacts(dev: Device, dirty: Dirty, live: set<nat>, raw: seq<byte>, t: Tree)
    requires FileAt(dev, dirty, live, raw, t)
    ensures SizeOk(dev.bs) && dev.bs > 0 && Sound(t) && TreeAt(dev, dirty, raw, t) && LeavesIn(t, live) && |raw| == 60
    ensures DataAt(dev, dirty, live, t) && OneToOne(t)
  {
  }

  /** Overwriting a mapped block. */
  lemma MappedWrite(dev: Device, d: Dirty, live: set<nat>, raw: seq<byte>, t: Tree, lo: nat, nd: seq<byte>)
    requires FileAt(dev, d, live, raw, t) && Lookup(t, lo) != 0 && |nd| == dev.bs
    ensures FileAt(dev, d[Lookup(t, lo) := nd], live, raw, t)
    ensures Replaced(dev, d, t, d[Lookup(t, lo) := nd], t, lo, nd)
  {
    FileFacts(dev, d, live, raw, t);
    hide *;
    var x := Lookup(t, lo);
    var d' := d[x := nd];
    forall b: nat ensures Block(dev, d', b) == if b == x then Some(nd) else Block(dev, d, b) {
      BlockSet(dev, d, x, nd, b);
    }
    MappedData(dev, d, live, t, lo, d', nd);
    TreeKept(dev, d, d', raw, t);
    MappedReplaced(dev, d, t, lo, d', nd);
  }

  lemma MappedData(dev: Device, d: Dirty, live: set<nat>, t: Tree, lo: nat, d': Dirty, nd: seq<byte>)
    requires Sound(t) && DataAt(dev, d, live, t) && Lookup(t, lo) != 0 && |nd| == dev.bs
    requires forall b: nat :: Block(dev, d', b) == if b == Lookup(t, lo) then Some(nd) else Block(dev, d, b)
    ensures DataAt(dev, d', live, t) && forall x :: x in At(t) ==> Block(dev, d', x) == Block(dev, d, x)
  {
    hide BlockNo, OffsetOf, Lookup, Block, At;
    forall b: nat | Lookup(t, b) != 0 ensures BlockOk(dev, d', Lookup(t, b)) {
      assert BlockOk(dev, d, Lookup(t, b));
    }
  }

  lemma MappedReplaced(dev: Device, d: Dirty, t: Tree, lo: nat, d': Dirty, nd: seq<byte>)
    requires Sound(t) && OneToOne(t) && Lookup(t, lo) != 0
    requires forall b: nat :: Block(dev, d', b) == if b == Lookup(t, lo) then Some(nd) else Block(dev, d, b)
    ensures Replaced(dev, d, t, d', t, lo, nd)
  {
    hide Lookup, Block;
    forall b: nat | b != lo ensures SameBlock(dev, d, t, d', t, b) {
      assert Lookup(t, b) != 0 ==> Lookup(t, b) != Lookup(t, lo);
    }
  }

  /** The tree is as before if its leaves are. */
  lemma TreeKept(dev: Device, d: Dirty, d': Dirty, raw: seq<byte>, t: Tree)
    requires TreeAt(dev, d, raw, t) && forall x :: x in At(t) ==> Block(dev, d', x) == Block(dev, d, x)
    ensures TreeAt(dev, d', raw, t)
  {
    hide LeafBytes, IndexBytes, AllOk, Block;
    if t.Indexed? {
      forall i | 0 <= i < |t.at| ensures LeafAt(dev, d', t.at[i], t.leaves[i]) {
        assert t.at[i] in At(t) && LeafAt(dev, d, t.at[i], t.leaves[i]);
      }
    }
  }

  lemma MappedBase(dev: Device, d: Dirty, live: set<nat>, raw: seq<byte>, t: Tree, lo: nat)
    requires FileAt(dev, d, live, raw, t) && Lookup(t, lo) != 0
    ensures Block(dev, d, Lookup(t, lo)).Some? && BaseIs(dev, d, t, lo, Block(dev, d, Lookup(t, lo)).value)
  {
    FileFacts(dev, d, live, raw, t);
    hide BlockNo, OffsetOf, Lookup, TreeAt, LeavesIn, Block, FileAt, OneToOne;
    assert BlockOk(dev, d, Lookup(t, lo));
  }

  lemma HoleBase(dev: Device, d: Dirty, t: Tree, lo: nat)
    requires Sound(t) && dev.bs > 0 && Lookup(t, lo) == 0
    ensures BaseIs(dev, d, t, lo, Zeros(dev.bs))
  {
    hide BlockNo, OffsetOf, Lookup, Block;
  }

  /** Looking a block up in t1 gives what t gave, or nothing, or, for block lo, x. */
  ghost predicate Sources(t: Tree, t1: Tree, lo: nat, x: nat)
    requires Sound(t) && Sound(t1)
  {
    forall b: nat :: Lookup(t1, b) == 0 || Lookup(t1, b) == Lookup(t, b) || (b == lo && Lookup(t1, b) == x)
  }

  /** A hole is given a fresh block x, which holds nd in the end: the tree grew from d to d1, and d2 is d1 with the
      block. Whether or not the tree accepted the extent, the file stays well formed; if it did, exactly that file block
      changes. */
  lemma HoleWrite(dev: Device, d: Dirty, live: set<nat>, raw: seq<byte>, t: Tree, lo: nat, x: nat,
                  d1: Dirty, live1: set<nat>, raw1: seq<byte>, t1: Tree, d2: Dirty, nd: seq<byte>)
    requires FileAt(dev, d, live, raw, t) && x !in live && x != 0 && |nd| == dev.bs
    requires TreeAt(dev, d1, raw1, t1) && Sound(t1) && LeavesIn(t1, live1) && live + {x} <= live1
    requires Kept(dev, d, d1, live, At(t)) && NewLeaves(t, t1, live + {x})
    requires Sources(t, t1, lo, x)
    requires forall b: nat :: Block(dev, d2, b) == if b == x then Some(nd) else Block(dev, d1, b)
    ensures FileAt(dev, d2, live1, raw1, t1)
    ensures Updates(t, t1, Ext(lo, 1, x)) ==> Replaced(dev, d, t, d2, t1, lo, nd)
  {
    FileFacts(dev, d, live, raw, t);
    hide *;
    TreeKept(dev, d1, d2, raw1, t1);
    HoleData(dev, d, live, t, lo, x, d1, live1, t1, d2, nd);
    HoleOneToOne(dev, d, live, t, lo, x, t1);
    if Updates(t, t1, Ext(lo, 1, x)) {
      Updated(t, t1, lo, x);
      HoleReplaced(dev, d, live, t, lo, x, d1, t1, d2, nd);
    }
  }

  lemma MakesFile(dev: Device, dirty: Dirty, live: set<nat>, raw: seq<byte>, t: Tree)
    requires SizeOk(dev.bs) && TreeAt(dev, dirty, raw, t) && LeavesIn(t, live) && Sound(t) && DataAt(dev, dirty, live, t) && OneToOne(t)
    ensures FileAt(dev, dirty, live, raw, t)
  {
  }

  lemma HoleData(dev: Device, d: Dirty, live: set<nat>, t: Tree, lo: nat, x: nat, d1: Dirty, live1: set<nat>, t1: Tree, d2: Dirty, nd: seq<byte>)
    requires Sound(t) && Sound(t1) && DataAt(dev, d, live, t) && x !in At(t1) && live + {x} <= live1 && |nd| == dev.bs
    requires Sources(t, t1, lo, x)
    requires forall y :: y in live && y !in At(t) ==> y !in At(t1) && y != x
    requires Kept(dev, d, d1, live, At(t))
    requires forall b: nat :: Block(dev, d2, b) == if b == x then Some(nd) else Block(dev, d1, b)
    ensures DataAt(dev, d2, live1, t1)
  {
    hide BlockNo, OffsetOf, Lookup, Block, At;
    forall b: nat | Lookup(t1, b) != 0
      ensures Lookup(t1, b) in live1 && Lookup(t1, b) !in At(t1) && BlockOk(dev, d2, Lookup(t1, b))
    {
      var y := Lookup(t1, b);
      if y == Lookup(t, b) {
        assert BlockOk(dev, d, y);
        assert Block(dev, d1, y) == Block(dev, d, y);
      }
    }
  }

  lemma HoleOneToOne(dev: Device, d: Dirty, live: set<nat>, t: Tree, lo: nat, x: nat, t1: Tree)
    requires Sound(t) && Sound(t1) && DataAt(dev, d, live, t) && OneToOne(t) && x !in live && Sources(t, t1, lo, x)
    ensures OneToOne(t1)
  {
    hide BlockNo, OffsetOf, Lookup, BlockOk, At;
    forall a: nat, b: nat | Lookup(t1, a) != 0 && Lookup(t1, a) == Lookup(t1, b) ensures a == b {
      assert Lookup(t, a) != 0 ==> Lookup(t, a) in live;
      assert Lookup(t, b) != 0 ==> Lookup(t, b) in live;
    }
  }

  lemma HoleReplaced(dev: Device, d: Dirty, live: set<nat>, t: Tree, lo: nat, x: nat, d1: Dirty, t1: Tree, d2: Dirty, nd: seq<byte>)
    requires Sound(t) && Sound(t1) && DataAt(dev, d, live, t) && x !in live && x != 0
    requires forall b: nat :: Lookup(t1, b) == if b == lo then x else Lookup(t, b)
    requires Kept(dev, d, d1, live, At(t))
    requires forall b: nat :: Block(dev, d2, b) == if b == x then Some(nd) else Block(dev, d1, b)
    ensures Replaced(dev, d, t, d2, t1, lo, nd)
  {
    hide Lookup, Block, At, BlockOk;
    forall b: nat | b != lo ensures SameBlock(dev, d, t, d2, t1, b) {
      var y := Lookup(t, b);
      if y != 0 {
        assert y in live && y !in At(t);
        assert Block(dev, d1, y) == Block(dev, d, y);
      }
    }
  }

  /** Block x is a leaf of the tree or holds file data. */
  ghost predicate Owns(t: Tree, x: nat)
    requires Sound(t)
  {
    x in At(t) || (x != 0 && exists b: nat :: Lookup(t, b) == x)
  }

  /** Blocks that were in use and not the file's are as before, and did not become the file's. */
  ghost predicate OthersKept(dev: Device, d: Dirty, t: Tree, d': Dirty, t': Tree, live: set<nat>)
    requires Sound(t) && Sound(t')
  {
    forall x: nat :: x in live && !Owns(t, x) ==> Block(dev, d', x) == Block(dev, d, x) && !Owns(t', x)
  }

  lemma OthersNone(dev: Device, d: Dirty, t: Tree, live: set<nat>)
    requires Sound(t)
    ensures OthersKept(dev, d, t, d, t, live)
  {
  }

  lemma OthersStep(dev: Device, d: Dirty, t: Tree, live: set<nat>, d1: Dirty, t1: Tree, live1: set<nat>, d2: Dirty, t2: Tree)
    requires Sound(t) && Sound(t1) && Sound(t2) && live <= live1
    requires OthersKept(dev, d, t, d1, t1, live) && OthersKept(dev, d1, t1, d2, t2, live1)
    ensures OthersKept(dev, d, t, d2, t2, live)
  {
    hide Owns, Block;
  }

  lemma MappedOthers(dev: Device, d: Dirty, t: Tree, live: set<nat>, lo: nat, nd: seq<byte>)
    requires Sound(t) && Lookup(t, lo) != 0
    ensures OthersKept(dev, d, t, d[Lookup(t, lo) := nd], t, live)
  {
    hide Lookup, At;
    assert Owns(t, Lookup(t, lo));
  }

  lemma HoleOthers(dev: Device, d: Dirty, t: Tree, live: set<nat>, lo: nat, x: nat, d1: Dirty, t1: Tree, d2: Dirty, nd: seq<byte>)
    requires Sound(t) && Sound(t1) && x !in live && Sources(t, t1, lo, x)
    requires Kept(dev, d, d1, live, At(t)) && NewLeaves(t, t1, live + {x})
    requires forall b: nat :: Block(dev, d2, b) == if b == x then Some(nd) else Block(dev, d1, b)
    ensures OthersKept(dev, d, t, d2, t1, live)
  {
    hide Lookup, At, Block;
    forall y: nat | y in live && !Owns(t, y) ensures Block(dev, d2, y) == Block(dev, d, y) && !Owns(t1, y) {
      assert Block(dev, d1, y) == Block(dev, d, y);
      if y != 0 {
        forall b: nat ensures Lookup(t1, b) != y {
          assert Lookup(t, b) != y;
        }
      }
    }
  }

  /** Two files with no block in common. */
  ghost predicate Apart(t: Tree, u: Tree)
    requires Sound(t) && Sound(u)
  {
    forall x: nat :: Owns(t, x) ==> !Owns(u, x)
  }

  /** Whatever is done to one file, another one with no block in common stays well formed, reads the same at every byte,
      and has no block in common with the result. */
  lemma OtherFileKept(dev: Device, d: Dirty, t: Tree, live: set<nat>, d': Dirty, t': Tree, live': set<nat>, raw: seq<byte>, u: Tree)
    requires Sound(t) && Sound(t') && OthersKept(dev, d, t, d', t', live) && live <= live'
    requires FileAt(dev, d, live, raw, u) && Apart(u, t)
    ensures FileAt(dev, d', live', raw, u) && Apart(u, t') && dev.bs > 0
    ensures forall p: nat :: ByteAt(dev, d', u, p) == ByteAt(dev, d, u, p)
  {
    FileFacts(dev, d, live, raw, u);
    hide *;
    OwnedLive(dev, d, live, u);
    forall x: nat | Owns(u, x) ensures Block(dev, d', x) == Block(dev, d, x) && !Owns(t', x) {
      KeptHere(dev, d, t, d', t', live, u, x);
    }
    TreeKept(dev, d, d', raw, u);
    SameData(dev, d, d', live, live', u);
    StayApart(u, t');
  }

  lemma OwnedLive(dev: Device, d: Dirty, live: set<nat>, u: Tree)
    requires Sound(u) && DataAt(dev, d, live, u) && LeavesIn(u, live)
    ensures forall x: nat :: Owns(u, x) ==> x in live
  {
    hide Lookup, BlockOk, At;
  }

  lemma KeptHere(dev: Device, d: Dirty, t: Tree, d': Dirty, t': Tree, live: set<nat>, u: Tree, x: nat)
    requires Sound(t) && Sound(t') && Sound(u) && OthersKept(dev, d, t, d', t', live) && Apart(u, t) && Owns(u, x) && x in live
    ensures Block(dev, d', x) == Block(dev, d, x) && !Owns(t', x)
  {
    hide Owns, Block;
  }

  lemma StayApart(u: Tree, t: Tree)
    requires Sound(t) && Sound(u) && forall x: nat :: Owns(u, x) ==> !Owns(t, x)
    ensures Apart(u, t)
  {
    hide Owns;
  }

  lemma SameData(dev: Device, d: Dirty, d': Dirty, live: set<nat>, live': set<nat>, u: Tree)
    requires Sound(u) && DataAt(dev, d, live, u) && LeavesIn(u, live) && live <= live' && dev.bs > 0
    requires forall x: nat :: Owns(u, x) ==> Block(dev, d', x) == Block(dev, d, x)
    ensures DataAt(dev, d', live', u) && LeavesIn(u, live')
    ensures forall p: nat :: ByteAt(dev, d', u, p) == ByteAt(dev, d, u, p)
  {
    hide Lookup, At, Block, BlockNo, OffsetOf;
    forall b: nat | Lookup(u, b) != 0 ensures Block(dev, d', Lookup(u, b)) == Block(dev, d, Lookup(u, b)) {
      assert Owns(u, Lookup(u, b));
    }
    forall b: nat | Lookup(u, b) != 0 ensures BlockOk(dev, d', Lookup(u, b)) {
      assert BlockOk(dev, d, Lookup(u, b));
    }
  }

  /** `total` bytes of data are written from off on; every other byte is as before. */
  ghost predicate Written(dev: Device, d0: Dirty, t0: Tree, d: Dirty, t: Tree, off: nat, data: seq<byte>, total: nat)
    requires Sound(t0) && Sound(t) && dev.bs > 0
  {
    && total <= |data|
    && forall p: nat :: ByteAt(dev, d, t, p) == if off <= p < off + total then data[p - off] else ByteAt(dev, d0, t0, p)
  }

  /** Byte positions against block number and offset in the block. */
  lemma InBlock(q: nat, p: nat, bs: nat, can: nat)
    requires bs > 0 && can <= bs - OffsetOf(q, bs)
    ensures q <= p < q + can <==> BlockNo(p, bs) == BlockNo(q, bs) && OffsetOf(q, bs) <= OffsetOf(p, bs) < OffsetOf(q, bs) + can
    ensures BlockNo(p, bs) == BlockNo(q, bs) ==> p - q == OffsetOf(p, bs) - OffsetOf(q, bs)
  {
    var k := BlockNo(p, bs) - BlockNo(q, bs);
    Positions(p, bs);
    hide BlockNo, OffsetOf;
    assert k * bs == BlockNo(p, bs) * bs - BlockNo(q, bs) * bs;
    Multiples(k, bs);
  }

  lemma Positions(p: nat, bs: nat)
    requires bs > 0
    ensures p == BlockNo(p, bs) * bs + OffsetOf(p, bs)
  {
  }

  lemma WrittenStep(dev: Device, d0: Dirty, t0: Tree, d: Dirty, t: Tree, off: nat, data: seq<byte>, total: nat,
                    d': Dirty, t': Tree, base: seq<byte>, can: nat)
    requires Sound(t0) && Sound(t) && Sound(t') && dev.bs > 0
    requires Written(dev, d0, t0, d, t, off, data, total) && total + can <= |data|
    requires var q := off + total; can <= dev.bs - OffsetOf(q, dev.bs) && BaseIs(dev, d, t, BlockNo(q, dev.bs), base)
    requires var q := off + total; Patched(dev, d, t, d', t', BlockNo(q, dev.bs), Splice(base, OffsetOf(q, dev.bs), data[total..total + can]))
    ensures Written(dev, d0, t0, d', t', off, data, total + can)
  {
    hide ByteAt, BlockNo, OffsetOf;
    var q := off + total;
    forall p: nat ensures ByteAt(dev, d', t', p) == if off <= p < off + total + can then data[p - off] else ByteAt(dev, d0, t0, p) {
      InBlock(q, p, dev.bs, can);
      assert BlockNo(p, dev.bs) == BlockNo(q, dev.bs) ==> base[OffsetOf(p, dev.bs)] == ByteAt(dev, d, t, p);
    }
  }

  /** `out` is what the file holds from byte off on. */
  ghost predicate Reads(dev: Device, d: Dirty, t: Tree, off: nat, out: seq<byte>)
    requires Sound(t) && dev.bs > 0
  {
    forall p: nat :: off <= p < off + |out| ==> out[p - off] == ByteAt(dev, d, t, p)
  }

  lemma ReadStep(dev: Device, d: Dirty, t: Tree, off: nat, out: seq<byte>, data: seq<byte>, can: nat)
    requires Sound(t) && dev.bs > 0 && Reads(dev, d, t, off, out) && |data| == dev.bs
    requires var q := off + |out|; BaseIs(dev, d, t, BlockNo(q, dev.bs), data) && can <= dev.bs - OffsetOf(q, dev.bs)
    ensures var io := OffsetOf(off + |out|, dev.bs); Reads(dev, d, t, off, out + data[io..io + can])
  {
    hide ByteAt, BlockNo, OffsetOf;
    var q := off + |out|;
    var io := OffsetOf(q, dev.bs);
    var all := out + data[io..io + can];
    forall p: nat | off <= p < off + |all| ensures all[p - off] == ByteAt(dev, d, t, p) {
      if p >= q {
        InBlock(q, p, dev.bs, can);
      }
    }
  }

  /** A read of a range that was just written gives the data. */
  lemma WriteThenRead(dev: Device, d0: Dirty, t0: Tree, d: Dirty, t: Tree, off: nat, data: seq<byte>, got: seq<byte>)
    requires Sound(t0) && Sound(t) && dev.bs > 0 && Written(dev, d0, t0, d, t, off, data, |data|)
    requires Reads(dev, d, t, off, got) && |got| == |data|
    ensures got == data
  {
    hide ByteAt;
    forall i | 0 <= i < |got| ensures got[i] == data[i] {
      assert got[off + i - off] == ByteAt(dev, d, t, off + i);
    }
  }

  /** A read of a range the write did not touch gives the same as before. */
  lemma WriteKeepsRead(dev: Device, d0: Dirty, t0: Tree, d: Dirty, t: Tree, off: nat, data: seq<byte>, total: nat, at: nat, got: seq<byte>)
    requires Sound(t0) && Sound(t) && dev.bs > 0 && Written(dev, d0, t0, d, t, off, data, total)
    requires at + |got| <= off || off + total <= at
    ensures Reads(dev, d, t, at, got) <==> Reads(dev, d0, t0, at, got)
  {
    hide ByteAt;
    forall p: nat | at <= p < at + |got| ensures ByteAt(dev, d, t, p) == ByteAt(dev, d0, t0, p) {
    }
  }
}
