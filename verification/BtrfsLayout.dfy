/** Btrfs nodes written out field by field, and what the driver's readers make of them. */
module BtrfsLayout {
  import opened Wrappers
  import opened Bytes
  import opened Chunks
  import opened BtrfsLeaf
  import opened BtrfsNode
  import opened BtrfsInsert
  import opened BtrfsTree
  import opened BtrfsVolume

  /** The 101-byte header: 96 bytes of identification, the number of entries, the level. */
  function NodeHead(head: seq<byte>, n: nat, level: byte): (r: seq<byte>)
    requires |head| == 96
    ensures |r| == 101
  {
    head + Put32(n) + [level]
  }

  lemma HeadReads(head: seq<byte>, n: nat, level: byte, rest: seq<byte>)
    requires |head| == 96 && n < 0x1_0000_0000
    ensures var data := NodeHead(head, n, level) + rest; NItems(data) == n && data[100] == level
  {
    hide Put32, Le32;
    var data := NodeHead(head, n, level) + rest;
    assert data[96..100] == Put32(n);
    WordAt(data, 96, Put32(n));
  }

  /** The values of the items, the last one in front. */
  function Values(items: seq<Item>): seq<byte> {
    if items == [] then [] else Values(items[1..]) + items[0].value
  }

  lemma {:induction false} ValuesAppend(a: seq<Item>, b: seq<Item>)
    ensures Values(a + b) == Values(b) + Values(a)
  {
    if a == [] {
      assert a + b == b;
    } else {
      assert (a + b)[0] == a[0] && (a + b)[1..] == a[1..] + b;
      ValuesAppend(a[1..], b);
    }
  }

  /** Where item i's value starts, counted from the end of the node. */
  function FromEnd(items: seq<Item>, i: nat): nat
    requires i < |items|
  {
    |Values(items[..i + 1])|
  }

  /** The value of item i in the data area. */
  lemma ValueAt(items: seq<Item>, i: nat)
    requires i < |items|
    ensures var all, k := Values(items), FromEnd(items, i);
            && |items[i].value| <= k <= |all| && all[|all| - k..|all| - k + |items[i].value|] == items[i].value
            && |Values(items[..i])| == k - |items[i].value|
  {
    assert items == items[..i + 1] + items[i + 1..] && items[..i + 1] == items[..i] + [items[i]];
    ValuesAppend(items[..i + 1], items[i + 1..]);
    ValuesAppend(items[..i], [items[i]]);
    assert Values([items[i]]) == items[i].value;
    var all := Values(items);
    assert all == Values(items[i + 1..]) + (items[i].value + Values(items[..i]));
  }

  lemma LaterFurther(items: seq<Item>, i: nat, j: nat)
    requires i < j < |items|
    ensures FromEnd(items, i) + |items[j].value| <= FromEnd(items, j)
  {
    assert items[..j] == items[..i + 1] + items[i + 1..j];
    ValuesAppend(items[..i + 1], items[i + 1..j]);
    ValueAt(items, j);
  }

  /** The items fit a node of ns bytes. */
  predicate LeafFits(items: seq<Item>, ns: nat) {
    101 + 25 * |items| + |Values(items)| <= ns < 0x1_0000_0000 && forall i :: 0 <= i < |items| ==> KeyOk(items[i].key)
  }

  function LeafSlots(items: seq<Item>, ns: nat): (slots: seq<Slot>)
    requires LeafFits(items, ns)
    ensures |slots| == |items|
    ensures forall i :: 0 <= i < |items| ==> SlotHere(items, ns, i) == slots[i]
  {
    seq(|items|, i requires 0 <= i < |items| => SlotHere(items, ns, i))
  }

  function SlotHere(items: seq<Item>, ns: nat, i: nat): (s: Slot)
    requires LeafFits(items, ns) && i < |items|
    ensures s.key == items[i].key && s.size == |items[i].value| && 101 + s.off + FromEnd(items, i) == ns
    ensures 101 + s.off + s.size <= ns
  {
    ValueAt(items, i);
    Slot(items[i].key, ns - 101 - FromEnd(items, i), |items[i].value|)
  }

  function LeafDescs(slots: seq<Slot>): (ds: seq<seq<byte>>)
    requires forall i :: 0 <= i < |slots| ==> KeyOk(slots[i].key)
    ensures |ds| == |slots| && forall i :: 0 <= i < |ds| ==> ds[i] == NewDesc(slots[i].key, slots[i].off, slots[i].size)
  {
    seq(|slots|, i requires 0 <= i < |slots| => NewDesc(slots[i].key, slots[i].off, slots[i].size))
  }

  /** A leaf: header, descriptors, a gap, values. */
  function LeafBytes(head: seq<byte>, items: seq<Item>, ns: nat): (r: seq<byte>)
    requires |head| == 96 && LeafFits(items, ns)
    ensures |r| == ns
  {
    var ds := LeafDescs(LeafSlots(items, ns));
    ConcatLength(ds, 25);
    TimesIsProduct(|items|, 25);
    NodeHead(head, |items|, 0) + Concat(ds) + Zeros(ns - 101 - 25 * |items| - |Values(items)|) + Values(items)
  }

  lemma SlotsTidy(items: seq<Item>, ns: nat)
    requires LeafFits(items, ns)
    ensures Tidy(LeafSlots(items, ns), ns)
  {
    var slots := LeafSlots(items, ns);
    SumOfSlots(items, slots);
    hide Values, FromEnd;
    forall i | 0 <= i < |slots| ensures 101 + slots[i].off + slots[i].size <= ns && ns - Sum(slots) <= 101 + slots[i].off {
      ValueAt(items, i);
      assert SlotHere(items, ns, i) == slots[i];
    }
    forall i, j | 0 <= i < j < |slots| ensures !Overlap(slots[i], slots[j]) {
      LaterFurther(items, i, j);
      assert SlotHere(items, ns, i) == slots[i] && SlotHere(items, ns, j) == slots[j];
    }
  }

  lemma {:induction false} SumOfSlots(items: seq<Item>, slots: seq<Slot>)
    requires |items| == |slots| && forall i :: 0 <= i < |items| ==> slots[i].size == |items[i].value|
    ensures Sum(slots) == |Values(items)|
    decreases |items|
  {
    if items != [] {
      var k := |items| - 1;
      SumOfSlots(items[..k], slots[..k]);
      assert items == items[..k] + [items[k]];
      ValuesAppend(items[..k], [items[k]]);
      assert Values([items[k]]) == items[k].value;
    }
  }

  /** The parts of such a leaf. */
  lemma LeafParts(head: seq<byte>, items: seq<Item>, ns: nat, data: seq<byte>, ds: seq<seq<byte>>)
    requires |head| == 96 && LeafFits(items, ns) && data == LeafBytes(head, items, ns) && ds == LeafDescs(LeafSlots(items, ns))
    ensures 101 + 25 * |items| + |Values(items)| <= ns && |Concat(ds)| == 25 * |items| && |ds| == |items|
    ensures NItems(data) == |items| && data[100] == 0
    ensures data[101..101 + 25 * |items|] == Concat(ds) && data[ns - |Values(items)|..] == Values(items)
  {
    ConcatLength(ds, 25);
    TimesIsProduct(|items|, 25);
    var gap := Zeros(ns - 101 - 25 * |items| - |Values(items)|);
    FourParts(NodeHead(head, |items|, 0), Concat(ds), gap, Values(items));
    HeadReads(head, |items|, 0, Concat(ds) + gap + Values(items));
  }

  lemma FourParts(h: seq<byte>, d: seq<byte>, g: seq<byte>, v: seq<byte>)
    ensures var r := h + d + g + v; r == h + (d + g + v) && r[|h|..|h| + |d|] == d && r[|r| - |v|..] == v
  {
  }

  /** The readers see the items of such a leaf, with their keys and values, in order. */
  lemma LeafReads(head: seq<byte>, items: seq<Item>, ns: nat)
    requires |head| == 96 && LeafFits(items, ns)
    ensures var data, slots := LeafBytes(head, items, ns), LeafSlots(items, ns);
            Holds(data, slots, ns) && Contents(data, slots) == items
  {
    var data, slots := LeafBytes(head, items, ns), LeafSlots(items, ns);
    LeafParts(head, items, ns, data, LeafDescs(slots));
    SlotsTidy(items, ns);
    hide *;
    forall i | 0 <= i < |slots| ensures OneReads(data, items, i, slots[i]) {
      ItemReads(data, items, LeafDescs(slots), ns, i);
    }
    AllRead(data, items, slots, ns);
  }

  /** Descriptor and value of item i are in the bytes. */
  ghost predicate OneReads(data: seq<byte>, items: seq<Item>, i: nat, s: Slot)
    requires i < |items|
  {
    DescAt(i) + 25 <= |data| && SlotAt(data, i) == s && 101 + s.off + s.size <= |data| && items[i] == Item(s.key, Value(data, s))
  }

  lemma ItemReads(data: seq<byte>, items: seq<Item>, ds: seq<seq<byte>>, ns: nat, i: nat)
    requires LeafFits(items, ns) && i < |items| && |data| == ns && ds == LeafDescs(LeafSlots(items, ns))
    requires |Concat(ds)| == 25 * |items| && data[101..101 + 25 * |items|] == Concat(ds) && data[ns - |Values(items)|..] == Values(items)
    ensures OneReads(data, items, i, LeafSlots(items, ns)[i])
  {
    var slots := LeafSlots(items, ns);
    assert SlotHere(items, ns, i) == slots[i];
    hide Values, NItems, Concat, FromEnd, LeafDescs, LeafSlots, NewDesc, SlotOf, SlotHere;
    DescHere(data, ds, i);
    NewDescIs(slots[i].key, slots[i].off, slots[i].size);
    ValueHere(data, items, i, slots[i]);
  }

  lemma AllRead(data: seq<byte>, items: seq<Item>, slots: seq<Slot>, ns: nat)
    requires |data| == ns && Tidy(slots, ns) && |slots| == |items| && NItems(data) == |items| && data[100] == 0
    requires forall i :: 0 <= i < |slots| ==> OneReads(data, items, i, slots[i])
    ensures Holds(data, slots, ns) && Contents(data, slots) == items
  {
    hide Value, SlotAt, NItems;
    assert forall i :: 0 <= i < |slots| ==> OneReads(data, items, i, slots[i]) && SlotAt(data, i) == slots[i];
  }

  lemma DescHere(data: seq<byte>, ds: seq<seq<byte>>, i: nat)
    requires i < |ds| && (forall k :: 0 <= k < |ds| ==> |ds[k]| == 25) && |Concat(ds)| == 25 * |ds|
    requires 101 + 25 * |ds| <= |data| && data[101..101 + 25 * |ds|] == Concat(ds)
    ensures DescAt(i) + 25 <= |data| && Desc(data, i) == ds[i]
  {
    PieceAt(ds, 25, i);
    SubSlice(data, 101, 101 + 25 * |ds|, i * 25, i * 25 + 25);
  }

  lemma ValueHere(data: seq<byte>, items: seq<Item>, i: nat, s: Slot)
    requires i < |items| && |Values(items)| <= |data| && data[|data| - |Values(items)|..] == Values(items)
    requires s.size == |items[i].value| && 101 + s.off + FromEnd(items, i) == |data|
    ensures 101 + s.off + s.size <= |data| && Value(data, s) == items[i].value
  {
    ValueAt(items, i);
    var all, k := Values(items), FromEnd(items, i);
    hide Values, FromEnd;
    SubSlice(data, |data| - |all|, |data|, |all| - k, |all| - k + s.size);
  }

  /** A pointer of an inner node: key, child address, generation. */
  datatype Ptr = Ptr(key: Key, addr: nat, generation: nat)

  function PtrBytes(p: Ptr): (r: seq<byte>)
    requires KeyOk(p.key) && p.addr < 0x1_0000_0000_0000_0000 && p.generation < 0x1_0000_0000_0000_0000
    ensures |r| == 33
  {
    EncodeKey(p.key) + Put64(p.addr) + Put64(p.generation)
  }

  predicate PtrsOk(ps: seq<Ptr>) {
    |ps| < 0x1_0000_0000
    && forall i :: 0 <= i < |ps| ==> KeyOk(ps[i].key) && ps[i].addr < 0x1_0000_0000_0000_0000 && ps[i].generation < 0x1_0000_0000_0000_0000
  }

  function PtrList(ps: seq<Ptr>): (bs: seq<seq<byte>>)
    requires PtrsOk(ps)
    ensures |bs| == |ps| && forall i :: 0 <= i < |bs| ==> |bs[i]| == 33 && bs[i] == PtrBytes(ps[i])
  {
    seq(|ps|, i requires 0 <= i < |ps| => PtrBytes(ps[i]))
  }

  /** An inner node: header, pointers, anything. */
  function InnerBytes(head: seq<byte>, level: byte, ps: seq<Ptr>, rest: seq<byte>): seq<byte>
    requires |head| == 96 && PtrsOk(ps)
  {
    NodeHead(head, |ps|, level) + Concat(PtrList(ps)) + rest
  }

  /** The readers follow exactly these pointers. */
  lemma InnerReads(head: seq<byte>, ps: seq<Ptr>, rest: seq<byte>, t: Tree)
    requires |head| == 96 && PtrsOk(ps) && t.Inner? && 0 < t.level < 256 && |t.keys| == |t.kids| == |ps|
    requires forall i :: 0 <= i < |ps| ==> t.keys[i] == ps[i].key && t.kids[i].addr == ps[i].addr
    ensures Points(InnerBytes(head, t.level, ps, rest), t)
  {
    var data, bs := InnerBytes(head, t.level, ps, rest), PtrList(ps);
    InnerParts(head, t.level, ps, rest);
    hide *;
    forall i | 0 <= i < |ps| ensures PtrHere(data, i, ps[i]) {
      PtrInList(data, bs, ps, i);
    }
    AllPointed(data, ps, t);
  }

  ghost predicate PtrHere(data: seq<byte>, i: nat, p: Ptr) {
    PtrAt(i) + 33 <= |data| && DecodeKey(data, PtrAt(i)) == p.key && Le64(data, PtrAt(i) + 17) == p.addr
  }

  lemma PtrInList(data: seq<byte>, bs: seq<seq<byte>>, ps: seq<Ptr>, i: nat)
    requires PtrsOk(ps) && i < |ps| && bs == PtrList(ps) && 101 + 33 * |ps| <= |data| && data[101..101 + 33 * |ps|] == Concat(bs)
    ensures PtrHere(data, i, ps[i])
  {
    hide Concat, PtrBytes, DecodeKey, Le64;
    PieceAt(bs, 33, i);
    SubSlice(data, 101, 101 + 33 * |ps|, i * 33, i * 33 + 33);
    PtrReads(data, PtrAt(i), ps[i]);
  }

  lemma AllPointed(data: seq<byte>, ps: seq<Ptr>, t: Tree)
    requires t.Inner? && t.level > 0 && |t.keys| == |t.kids| == |ps| && 101 + 33 * |ps| <= |data| && NItems(data) == |ps| && data[100] == t.level
    requires forall i :: 0 <= i < |ps| ==> t.keys[i] == ps[i].key && t.kids[i].addr == ps[i].addr && PtrHere(data, i, ps[i])
    ensures Points(data, t)
  {
    hide NItems, DecodeKey, Le64;
  }

  lemma InnerParts(head: seq<byte>, level: byte, ps: seq<Ptr>, rest: seq<byte>)
    requires |head| == 96 && PtrsOk(ps)
    ensures var data, bs := InnerBytes(head, level, ps, rest), PtrList(ps);
            && 101 + 33 * |ps| <= |data| && NItems(data) == |ps| && data[100] == level
            && |Concat(bs)| == 33 * |ps| && data[101..101 + 33 * |ps|] == Concat(bs)
  {
    var data, bs := InnerBytes(head, level, ps, rest), PtrList(ps);
    hide NodeHead, NItems, Concat, PtrList;
    ConcatLength(bs, 33);
    TimesIsProduct(|ps|, 33);
    assert data == NodeHead(head, |ps|, level) + (Concat(bs) + rest);
    HeadReads(head, |ps|, level, Concat(bs) + rest);
  }

  lemma PtrReads(data: seq<byte>, off: nat, p: Ptr)
    requires KeyOk(p.key) && p.addr < 0x1_0000_0000_0000_0000 && p.generation < 0x1_0000_0000_0000_0000
    requires off + 33 <= |data| && data[off..off + 33] == PtrBytes(p)
    ensures DecodeKey(data, off) == p.key && Le64(data, off + 17) == p.addr
  {
    hide Le64, Put64;
    var b := PtrBytes(p);
    KeyRoundTrip(p.key, Put64(p.addr) + Put64(p.generation));
    assert b == EncodeKey(p.key) + (Put64(p.addr) + Put64(p.generation));
    assert b[17..25] == Put64(p.addr);
    SubSlice(data, off, off + 33, 0, 8);
    SubSlice(data, off, off + 33, 9, 17);
    SubSlice(data, off, off + 33, 17, 25);
    SameLe64(data, off, b, 0);
    SameLe64(data, off + 9, b, 9);
    QuadAt(data, off + 17, Put64(p.addr));
    assert b[8] == data[off..off + 33][8] == data[off + 8];
  }

  /** The leaf of a file's inode: inode, name, and two extents' worth of keys whose types and offsets disagree. */
  function InodeItems(a: seq<byte>, b: seq<byte>, c: seq<byte>, d: seq<byte>): seq<Item> {
    [Item(Key(256, 1, 0), a), Item(Key(256, 12, 256), b), Item(Key(256, 84, 39612), c), Item(Key(256, 96, 2), d)]
  }

  /** A device of one node. */
  function OneNode(data: seq<byte>, ns: nat): Image {
    Image([Chunk(0, ns, 0)], data, ns)
  }

  /** A leaf of sorted items on such a device is a tree in search order. */
  lemma OneLeafTree(head: seq<byte>, items: seq<Item>, ns: nat)
    requires |head| == 96 && LeafFits(items, ns) && SortedItems(items)
    ensures var t := LeafNode(0, LeafSlots(items, ns), items);
            Rep(OneNode(LeafBytes(head, items, ns), ns), map[], t) && Ordered(t) && Items(t) == items
  {
    hide *;
    LeafReads(head, items, ns);
    NodeSize(items, ns);
    StoredLeaf(LeafBytes(head, items, ns), LeafSlots(items, ns), items, ns);
  }

  lemma NodeSize(items: seq<Item>, ns: nat)
    requires LeafFits(items, ns)
    ensures 0 < ns < 0x1_0000_0000
  {
  }

  lemma StoredLeaf(data: seq<byte>, slots: seq<Slot>, items: seq<Item>, ns: nat)
    requires 0 < ns < 0x1_0000_0000 && |data| == ns && Holds(data, slots, ns) && Contents(data, slots) == items && SortedItems(items)
    ensures var t := LeafNode(0, slots, items);
            Rep(OneNode(data, ns), map[], t) && Ordered(t) && Items(t) == items
  {
    hide Holds, Contents, SortedItems;
    var none: map<int, seq<byte>> := map[];
    assert Phys(OneNode(data, ns).chunks, 0) == Some(0);
    assert data[0..ns] == data;
    assert NodeBytes(OneNode(data, ns), none, 0) == Some(data);
  }

  lemma InodeSorted(a: seq<byte>, b: seq<byte>, c: seq<byte>, d: seq<byte>)
    ensures SortedItems(InodeItems(a, b, c, d))
  {
  }

  /** Such a leaf is a tree in search order, in which a search for (256, 96, 2) finds its value. */
  lemma InodeLeaf(head: seq<byte>, a: seq<byte>, b: seq<byte>, c: seq<byte>, d: seq<byte>, ns: nat)
    requires |head| == 96 && LeafFits(InodeItems(a, b, c, d), ns)
    ensures var items := InodeItems(a, b, c, d);
            var t := LeafNode(0, LeafSlots(items, ns), items);
            Rep(OneNode(LeafBytes(head, items, ns), ns), map[], t) && Ordered(t) && Finds(Items(t), Key(256, 96, 2), Some(d))
  {
    hide *;
    var items := InodeItems(a, b, c, d);
    InodeSorted(a, b, c, d);
    OneLeafTree(head, items, ns);
    FourthItem(a, b, c, d);
    FoundAt(items, 3);
  }

  lemma FourthItem(a: seq<byte>, b: seq<byte>, c: seq<byte>, d: seq<byte>)
    ensures var items := InodeItems(a, b, c, d); |items| == 4 && items[3] == Item(Key(256, 96, 2), d)
  {
  }
}
