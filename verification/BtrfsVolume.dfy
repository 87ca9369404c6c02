/** Trees on a volume: node reads and writes through the dirty map, walk, search and delete. */
module BtrfsVolume {
  import opened Wrappers
  import opened Bytes
  import opened BtrfsLeaf
  import opened BtrfsNode
  import opened BtrfsTree

  datatype Chunk = Chunk(logStart: nat, length: nat, physStart: nat)

  /** The device as mounted. */
  datatype Image = Image(chunks: seq<Chunk>, disk: seq<byte>, ns: nat)

  predicate InChunk(c: Chunk, logical: nat) {
    c.logStart <= logical < (c.logStart + c.length) % TWO64
  }

  /** Where a logical address is on the device, in 64-bit arithmetic. */
  function Phys(chunks: seq<Chunk>, logical: nat): Option<int> {
    if chunks == [] then None
    else if InChunk(chunks[0], logical) then Some(AsInt64((chunks[0].physStart + (logical - chunks[0].logStart)) % TWO64))
    else Phys(chunks[1..], logical)
  }

  method LogToPhys(chunks: seq<Chunk>, logical: nat) returns (r: Option<int>)
    ensures r == Phys(chunks, logical)
  {
    hide AsInt64;
    assert chunks[0..] == chunks;
    for i := 0 to |chunks|
      invariant Phys(chunks, logical) == Phys(chunks[i..], logical)
    {
      var c := chunks[i];
      assert chunks[i..][0] == c && chunks[i..][1..] == chunks[i + 1..];
      if InChunk(c, logical) {
        return Some(AsInt64((c.physStart + (logical - c.logStart)) % TWO64));
      }
    }
    return None;
  }

  /** The current bytes of the node at a logical address. */
  function NodeBytes(img: Image, dirty: map<int, seq<byte>>, logical: nat): Option<seq<byte>> {
    var p := Phys(img.chunks, logical);
    if p.None? then None
    else if p.value in dirty then Some(dirty[p.value])
    else if 0 <= p.value && p.value + img.ns <= |img.disk| then Some(img.disk[p.value..p.value + img.ns])
    else None
  }

  function PtrAt(i: nat): nat {
    101 + 33 * i
  }

  /** An inner node: keys and child addresses. */
  ghost predicate Points(data: seq<byte>, t: Tree)
    requires t.Inner?
  {
    && |t.keys| == |t.kids| && PtrAt(|t.kids|) <= |data| && NItems(data) == |t.kids| && data[100] == t.level && t.level > 0
    && forall i :: 0 <= i < |t.kids| ==> DecodeKey(data, PtrAt(i)) == t.keys[i] && Le64(data, PtrAt(i) + 17) == t.kids[i].addr
  }

  /** The volume stores tree t; levels decrease downwards. */
  ghost predicate Rep(img: Image, dirty: map<int, seq<byte>>, t: Tree)
    decreases t
  {
    var b := NodeBytes(img, dirty, t.addr);
    && b.Some?
    && match t
       case LeafNode(_, slots, items) => Holds(b.value, slots, img.ns) && items == Contents(b.value, slots)
       case Inner(_, level, _, kids) =>
         && Points(b.value, t)
         && (forall i :: 0 <= i < |kids| ==> Rep(img, dirty, kids[i]) && Level(kids[i]) < level)
  }

  /** The device addresses of the nodes of a tree. */
  ghost function Places(img: Image, t: Tree): set<int>
    decreases t
  {
    Own(img, t) + (if t.LeafNode? then {} else PlacesOf(img, t.kids))
  }

  ghost function Own(img: Image, t: Tree): set<int> {
    var p := Phys(img.chunks, t.addr);
    if p.Some? then {p.value} else {}
  }

  ghost function PlacesOf(img: Image, kids: seq<Tree>): set<int>
    decreases kids
  {
    if kids == [] then {} else Places(img, kids[0]) + PlacesOf(img, kids[1..])
  }

  lemma {:induction false} KidPlaces(img: Image, kids: seq<Tree>)
    ensures forall p :: p in PlacesOf(img, kids) <==> exists i :: 0 <= i < |kids| && p in Places(img, kids[i])
  {
    hide Places;
    if kids != [] {
      KidPlaces(img, kids[1..]);
      forall p ensures p in PlacesOf(img, kids) <==> exists i :: 0 <= i < |kids| && p in Places(img, kids[i]) {
        if p in PlacesOf(img, kids[1..]) {
          var i :| 0 <= i < |kids[1..]| && p in Places(img, kids[1..][i]);
          assert p in Places(img, kids[i + 1]);
        }
        if i :| 0 <= i < |kids| && p in Places(img, kids[i]) {
          assert i > 0 ==> p in Places(img, kids[1..][i - 1]);
        }
      }
    }
  }

  ghost predicate Disjoint(a: set<int>, b: set<int>) {
    forall x :: x in a ==> x !in b
  }

  /** No two nodes share a place. */
  ghost predicate Apart(img: Image, t: Tree)
    decreases t
  {
    match t
    case LeafNode(_, _, _) => true
    case Inner(_, _, _, kids) =>
      && (forall i :: 0 <= i < |kids| ==> Apart(img, kids[i]) && Disjoint(Own(img, t), Places(img, kids[i])))
      && (forall i, j :: 0 <= i < j < |kids| ==> Disjoint(Places(img, kids[i]), Places(img, kids[j])))
  }

  /** Outside `ps` the dirty map is as before. */
  ghost predicate OnlyIn(d: map<int, seq<byte>>, d': map<int, seq<byte>>, ps: set<int>) {
    forall p :: p !in ps ==> (p in d <==> p in d') && (p in d ==> d[p] == d'[p])
  }

  lemma SameNode(img: Image, d: map<int, seq<byte>>, d': map<int, seq<byte>>, t: Tree, ps: set<int>)
    requires OnlyIn(d, d', ps) && Disjoint(Own(img, t), ps)
    ensures NodeBytes(img, d', t.addr) == NodeBytes(img, d, t.addr)
  {
    var p := Phys(img.chunks, t.addr);
    if p.Some? { assert p.value in Own(img, t); }
  }

  /** A tree elsewhere is still stored. */
  lemma {:induction false} Elsewhere(img: Image, d: map<int, seq<byte>>, d': map<int, seq<byte>>, t: Tree, ps: set<int>)
    requires Rep(img, d, t) && OnlyIn(d, d', ps) && Disjoint(Places(img, t), ps)
    ensures Rep(img, d', t)
    decreases t
  {
    hide *;
    OwnPlace(img, t, ps);
    SameNode(img, d, d', t, ps);
    if t.Inner? {
      forall i | 0 <= i < |t.kids| ensures Rep(img, d', t.kids[i]) {
        RepKid(img, d, t, i);
        KidElsewhere(img, t, ps, i);
        Elsewhere(img, d, d', t.kids[i], ps);
      }
    }
    SameRep(img, d, d', t);
  }

  lemma OwnPlace(img: Image, t: Tree, ps: set<int>)
    requires Disjoint(Places(img, t), ps)
    ensures Disjoint(Own(img, t), ps)
  {
  }

  lemma RepKid(img: Image, d: map<int, seq<byte>>, t: Tree, i: nat)
    requires Rep(img, d, t) && t.Inner? && i < |t.kids|
    ensures Rep(img, d, t.kids[i]) && Level(t.kids[i]) < t.level
  {
  }

  lemma KidElsewhere(img: Image, t: Tree, ps: set<int>, i: nat)
    requires t.Inner? && i < |t.kids| && Disjoint(Places(img, t), ps)
    ensures Disjoint(Places(img, t.kids[i]), ps)
  {
    KidPlaces(img, t.kids);
    forall x | x in Places(img, t.kids[i]) ensures x !in ps {
      assert x in PlacesOf(img, t.kids);
    }
  }

  lemma SameRep(img: Image, d: map<int, seq<byte>>, d': map<int, seq<byte>>, t: Tree)
    requires Rep(img, d, t) && NodeBytes(img, d', t.addr) == NodeBytes(img, d, t.addr)
    requires t.Inner? ==> forall i :: 0 <= i < |t.kids| ==> Rep(img, d', t.kids[i])
    ensures Rep(img, d', t)
  {
    hide NodeBytes, Holds, Contents, Points;
  }

  /** What a leaf's node bytes say. */
  lemma LeafFacts(img: Image, d: map<int, seq<byte>>, t: Tree)
    requires Rep(img, d, t) && t.LeafNode?
    ensures var b := NodeBytes(img, d, t.addr);
            && b.Some? && Holds(b.value, t.slots, img.ns) && |b.value| >= 101 && b.value[100] == 0 && Describes(b.value, t.slots)
            && t.items == Contents(b.value, t.slots) && |t.items| == |t.slots|
    ensures forall i :: 0 <= i < |t.slots| ==> t.items[i].key == t.slots[i].key
    ensures Ordered(t) ==> SortedSlots(t.slots)
  {
    hide SlotAt, Less, Tidy;
  }

  lemma InnerFacts(img: Image, d: map<int, seq<byte>>, t: Tree)
    requires Rep(img, d, t) && t.Inner?
    ensures var b := NodeBytes(img, d, t.addr);
            && b.Some? && Points(b.value, t) && |b.value| >= 101 && b.value[100] == t.level > 0 && NItems(b.value) == |t.kids| == |t.keys|
  {
  }

  lemma PointsAt(data: seq<byte>, t: Tree, i: nat)
    requires t.Inner? && Points(data, t) && i < |t.kids|
    ensures PtrAt(i) + 33 <= |data| && |t.keys| == |t.kids|
    ensures DecodeKey(data, PtrAt(i)) == t.keys[i] && Le64(data, PtrAt(i) + 17) == t.kids[i].addr
  {
  }

  lemma ItemAt(data: seq<byte>, slots: seq<Slot>, ns: nat, i: nat)
    requires Holds(data, slots, ns) && i < |slots|
    ensures DescAt(i) + 25 <= |data| && SlotAt(data, i) == slots[i] && 101 + slots[i].off + slots[i].size <= |data|
    ensures Contents(data, slots)[i] == Item(slots[i].key, data[101 + slots[i].off..101 + slots[i].off + slots[i].size])
  {
    DescribesAt(data, slots, i);
  }

  /** The first 32 bytes, where the checksum is, say nothing about the items. */
  lemma ChecksumApart(a: seq<byte>, b: seq<byte>, slots: seq<Slot>, ns: nat)
    requires Holds(a, slots, ns) && |b| == |a| && forall p :: 32 <= p < |a| ==> b[p] == a[p]
    ensures Holds(b, slots, ns) && Contents(b, slots) == Contents(a, slots)
  {
    HoldsInside(a, slots, ns);
    hide Tidy, SlotOf, Le32;
    CountApart(a, b);
    forall i | 0 <= i < |slots| ensures SlotAt(b, i) == slots[i] {
      assert Desc(b, i) == Desc(a, i);
    }
    forall i | 0 <= i < |slots| ensures Value(b, slots[i]) == Value(a, slots[i]) {
      SameValue(b, a, slots[i], 32);
    }
    assert Contents(b, slots) == Contents(a, slots);
  }

  lemma CountApart(a: seq<byte>, b: seq<byte>)
    requires |b| == |a| >= 101 && forall p :: 32 <= p < |a| ==> b[p] == a[p]
    ensures Le32(a, 96) == Le32(b, 96)
  {
  }

  /** Every item with key k and value v that is in `items` is found, and only those. */
  ghost predicate Finds(items: seq<Item>, key: Key, r: Option<seq<byte>>) {
    forall v :: r == Some(v) <==> Item(key, v) in items
  }

  lemma FoundAt(items: seq<Item>, i: nat)
    requires SortedItems(items) && i < |items|
    ensures Finds(items, items[i].key, Some(items[i].value))
  {
    hide Less;
    forall v | Item(items[i].key, v) in items ensures v == items[i].value {
      var j :| 0 <= j < |items| && items[j] == Item(items[i].key, v);
      Irreflexive(items[j].key, items[i].key);
    }
  }

  lemma NotFound(items: seq<Item>, key: Key)
    requires !HasKey(items, key)
    ensures Finds(items, key, None)
  {
    forall v ensures Item(key, v) !in items {
      if Item(key, v) in items { KeyMember(items, Item(key, v)); }
    }
  }

  lemma FindsThere(items: seq<Item>, sub: seq<Item>, key: Key, r: Option<seq<byte>>)
    requires Finds(sub, key, r) && forall x: Item :: x.key == key ==> (x in items <==> x in sub)
    ensures Finds(items, key, r)
  {
    forall v ensures r == Some(v) <==> Item(key, v) in items {
      var x := Item(key, v);
      assert x.key == key;
    }
  }

  /** Keys not above the wanted one come first. */
  lemma StopsThere(keys: seq<Key>, key: Key, slot: int)
    requires SortedKeys(keys) && -1 <= slot < |keys| && (slot >= 0 ==> CmpKey(keys[slot], key) <= 0)
    requires slot + 1 < |keys| ==> CmpKey(keys[slot + 1], key) > 0
    ensures Descends(keys, key, slot)
  {
    hide CmpKey;
    forall i | 0 <= i <= slot ensures CmpKey(keys[i], key) <= 0 {
      if i < slot { DownOrder(keys[i], keys[slot], key); }
    }
    forall i | slot < i < |keys| ensures CmpKey(keys[i], key) > 0 {
      if i > slot + 1 { UpOrder(keys[slot + 1], keys[i], key); }
    }
  }

  lemma DownOrder(a: Key, b: Key, key: Key)
    ensures Less(a, b) && CmpKey(b, key) <= 0 ==> CmpKey(a, key) <= 0
  {
  }

  lemma UpOrder(a: Key, b: Key, key: Key)
    ensures Less(a, b) && CmpKey(a, key) > 0 ==> CmpKey(b, key) > 0
  {
  }

  /** A node whose first four bytes are the checksum of what lies behind its 32 checksum bytes; the others are zero. */
  predicate Sealed(crc: seq<byte> -> nat, node: seq<byte>) {
    |node| >= 32 && Le32(node, 0) == crc(node[32..]) % TWO32 && node[4..32] == Zeros(28)
  }

  /** Whatever is staged and was not before has its checksum right. */
  ghost predicate NewSealed(crc: seq<byte> -> nat, d: map<int, seq<byte>>, d': map<int, seq<byte>>) {
    forall p :: p in d' ==> (p in d && d[p] == d'[p]) || Sealed(crc, d'[p])
  }

  lemma NoneStaged(crc: seq<byte> -> nat, d: map<int, seq<byte>>)
    ensures NewSealed(crc, d, d)
  {
  }

  lemma OneStaged(crc: seq<byte> -> nat, d: map<int, seq<byte>>, p: int, node: seq<byte>)
    requires Sealed(crc, node)
    ensures NewSealed(crc, d, d[p := node])
  {
    hide Sealed;
  }

  /** `crc` is the volume's checksum function. */
  class Volume {
    const img: Image
    const crc: seq<byte> -> nat
    var dirty: map<int, seq<byte>>

    constructor (img: Image, crc: seq<byte> -> nat)
      ensures this.img == img && this.crc == crc && dirty == map[]
    {
      this.img, this.crc, dirty := img, crc, map[];
    }

    method ReadNode(logical: nat) returns (r: Option<seq<byte>>)
      ensures r == NodeBytes(img, dirty, logical)
    {
      hide Phys;
      var p := LogToPhys(img.chunks, logical);
      if p.None? {
        return None;
      }
      if p.value in dirty {
        return Some(dirty[p.value]);
      }
      if p.value < 0 || p.value + img.ns > |img.disk| {
        return None;
      }
      return Some(img.disk[p.value..p.value + img.ns]);
    }

    /** Visits every item, children from left to right. */
    method WalkTree(logical: nat, ghost t: Tree) returns (r: Option<seq<Item>>)
      requires t.addr == logical && Rep(img, dirty, t)
      ensures r == Some(Items(t))
      decreases t
    {
      hide *;
      if t.LeafNode? { LeafFacts(img, dirty, t); } else { InnerFacts(img, dirty, t); }
      var node := ReadNode(logical);
      if node.None? {
        return None;
      }
      var data := node.value;
      var out: seq<Item> := [];
      if data[100] > 0 {
        NoItems(t.kids);
        for i := 0 to NItems(data)
          invariant out == ItemsOf(t.kids[..i])
        {
          PointsAt(data, t, i);
          RepKid(img, dirty, t, i);
          var sub := WalkTree(Le64(data, PtrAt(i) + 17), t.kids[i]);
          if sub.None? {
            return None;
          }
          ItemsSplit(t.kids, i);
          out := out + sub.value;
        }
        assert t.kids[..|t.kids|] == t.kids;
        InnerItems(t);
        return Some(out);
      }
      out := VisitLeaf(data, t.slots, img.ns);
      LeafItems(t);
      return Some(out);
    }

    /** Looks a key up: finds a value exactly if a walk visits it under that key. */
    method SearchTree(root: nat, key: Key, ghost t: Tree) returns (r: Option<seq<byte>>)
      requires t.addr == root && Rep(img, dirty, t) && Ordered(t)
      ensures Finds(Items(t), key, r)
    {
      hide *;
      var logical := root;
      ghost var cur := t;
      while true
        invariant cur.addr == logical && Rep(img, dirty, cur) && Ordered(cur)
        invariant forall x: Item :: x.key == key ==> (x in Items(t) <==> x in Items(cur))
        decreases Level(cur)
      {
        if cur.LeafNode? { LeafFacts(img, dirty, cur); } else { InnerFacts(img, dirty, cur); }
        var node := ReadNode(logical);
        if node.None? {
          assert false;
        }
        var data := node.value;
        if data[100] == 0 {
          LeafItems(cur);
          r := SearchLeaf(data, key, cur.slots, img.ns);
          FindsThere(Items(t), Items(cur), key, r);
          return;
        }
        var slot := FindSlot(data, key, cur);
        SearchStep(cur, key, slot);
        if slot < 0 {
          NotFound(Items(cur), key);
          FindsThere(Items(t), Items(cur), key, None);
          return None;
        }
        PointsAt(data, cur, slot);
        RepKid(img, dirty, cur, slot);
        OrderedKid(cur, slot);
        InnerLevel(cur);
        logical := Le64(data, PtrAt(slot) + 17);
        cur := cur.kids[slot];
      }
    }

    /** All items of one object and type. A walk meets them by ascending offset already, so that sorting them by
        offset changes nothing. */
    method ScanItems(root: nat, objectID: nat, itemType: nat, ghost t: Tree) returns (r: Option<seq<Item>>)
      requires t.addr == root && Rep(img, dirty, t) && Ordered(t)
      ensures r.Some? && forall x :: x in r.value <==> x in Items(t) && Wanted(x, objectID, itemType)
      ensures forall i, j :: 0 <= i < j < |r.value| ==> r.value[i].key.offset < r.value[j].key.offset
    {
      hide *;
      r := WalkTree(root, t);
      WalkAscends(t);
      var all := r.value;
      var out: seq<Item> := [];
      ScanStart(all, objectID, itemType);
      for i := 0 to |all|
        invariant Scanned(all, i, out, objectID, itemType)
      {
        ScanStep(all, i, out, objectID, itemType);
        if Wanted(all[i], objectID, itemType) {
          out := out + [all[i]];
        }
      }
      ScanEnd(all, out, objectID, itemType);
      return Some(out);
    }

    /** Stages a node, its checksum refreshed. */
    method WriteNode(logical: nat, data: array<byte>) returns (ok: bool)
      requires data.Length >= 32
      modifies `dirty, data
      ensures ok <==> Phys(img.chunks, logical).Some?
      ensures !ok ==> dirty == old(dirty)
      ensures ok ==> dirty == old(dirty)[Phys(img.chunks, logical).value := data[..]]
      ensures forall p :: 32 <= p < data.Length ==> data[p] == old(data[p])
      ensures ok ==> Sealed(crc, data[..])
    {
      hide Phys, Put32, Le32;
      var p := LogToPhys(img.chunks, logical);
      if p.None? {
        return false;
      }
      var sum := crc(data[32..]);
      ghost var rest := data[32..];
      StoreBytes(data, 0, Put32(sum));
      StoreBytes(data, 4, Zeros(28));
      assert data[..][0..4] == Put32(sum) && data[..][32..] == rest && data[..][4..32] == Zeros(28);
      WordAt(data[..], 0, Put32(sum));
      dirty := dirty[p.value := data[..]];
      return true;
    }

    /** Removes the item with the given key, if there is one. */
    method BtreeDelete(logical: nat, key: Key, ghost t: Tree) returns (ok: bool, ghost t': Tree)
      requires t.addr == logical && Rep(img, dirty, t) && Ordered(t) && Apart(img, t)
      modifies `dirty
      ensures ok && Rep(img, dirty, t') && Ordered(t') && Apart(img, t')
      ensures Items(t') == Without(Items(t), key)
      ensures SamePlaces(img, t, t') && OnlyIn(old(dirty), dirty, Places(img, t)) && NewSealed(crc, old(dirty), dirty)
      decreases t
    {
      hide *;
      ghost var was := dirty;
      t' := t;
      if t.LeafNode? { LeafFacts(img, dirty, t); } else { InnerFacts(img, dirty, t); }
      var node := ReadNode(logical);
      if node.None? {
        assert false;
      }
      var data := node.value;
      if data[100] == 0 {
        LeafItems(t);
        var idx := LeafFind(data, key, t.slots);
        if idx < 0 {
          HoldsInside(data, t.slots, img.ns);
          NoKeyThere(data, t.slots, key);
          WithoutNone(t.items, key);
          NoChange(img, was, t);
          NoneStaged(crc, was);
          return true, t';
        }
        var buf := new byte[|data|](i requires 0 <= i < |data| => data[i]);
        assert buf[..] == data;
        LeafDelete(buf, img.ns, idx, t.slots);
        ghost var after := buf[..];
        HoldsInside(after, Drop(t.slots, idx), img.ns);
        PhysThere(img, was, logical);
        ok := WriteNode(logical, buf);
        OneStaged(crc, was, Phys(img.chunks, logical).value, buf[..]);
        ChecksumApart(after, buf[..], Drop(t.slots, idx), img.ns);
        t' := LeafNode(t.addr, Drop(t.slots, idx), Contents(buf[..], Drop(t.slots, idx)));
        RemovedIsWithout(t.items, idx, key);
        WithoutSorted(t.items, key);
        LeafStored(img, was, t, t', buf[..]);
        return;
      }
      var slot := FindLastSlot(data, key, t);
      PointsAt(data, t, slot);
      RepKid(img, was, t, slot);
      OrderedKid(t, slot);
      ApartKid(img, t, slot);
      ghost var kid;
      ok, kid := BtreeDelete(Le64(data, PtrAt(slot) + 17), key, t.kids[slot]);
      t' := Inner(t.addr, t.level, t.keys, t.kids[slot := kid]);
      KidReplaced(img, was, dirty, t, slot, kid, key);
    }
  }

  lemma LeafItems(t: Tree)
    requires t.LeafNode?
    ensures Items(t) == t.items && Level(t) == 0 && (Ordered(t) ==> SortedItems(t.items))
  {
  }

  lemma InnerLevel(t: Tree)
    requires t.Inner?
    ensures Level(t) == t.level
  {
  }

  method VisitLeaf(data: seq<byte>, ghost slots: seq<Slot>, ns: nat) returns (out: seq<Item>)
    requires Holds(data, slots, ns)
    ensures out == Contents(data, slots)
  {
    hide *;
    HoldsInside(data, slots, ns);
    out := [];
    VisitStart(data, slots, ns);
    for i := 0 to NItems(data)
      invariant Visited(data, slots, out, i)
    {
      VisitStep(data, slots, ns, out, i);
      var s := SlotAt(data, i);
      if 101 + s.off + s.size <= |data| {
        out := out + [Item(s.key, data[101 + s.off..101 + s.off + s.size])];
      }
    }
    VisitEnd(data, slots, ns, out);
  }

  /** The first i items are visited. */
  ghost predicate Visited(data: seq<byte>, slots: seq<Slot>, out: seq<Item>, i: nat) {
    && i <= |slots| && (forall k :: 0 <= k < |slots| ==> 101 + slots[k].off + slots[k].size <= |data|)
    && out == Contents(data, slots)[..i]
  }

  lemma VisitStart(data: seq<byte>, slots: seq<Slot>, ns: nat)
    requires Holds(data, slots, ns)
    ensures Visited(data, slots, [], 0)
  {
    HoldsInside(data, slots, ns);
  }

  lemma VisitStep(data: seq<byte>, slots: seq<Slot>, ns: nat, out: seq<Item>, i: nat)
    requires Holds(data, slots, ns) && Visited(data, slots, out, i) && i < |slots|
    ensures DescAt(i) + 25 <= |data| && 101 + SlotAt(data, i).off + SlotAt(data, i).size <= |data|
    ensures var s := SlotAt(data, i); Visited(data, slots, out + [Item(s.key, data[101 + s.off..101 + s.off + s.size])], i + 1)
  {
    hide Holds, SlotAt;
    ItemAt(data, slots, ns, i);
  }

  lemma VisitEnd(data: seq<byte>, slots: seq<Slot>, ns: nat, out: seq<Item>)
    requires Holds(data, slots, ns) && Visited(data, slots, out, |slots|)
    ensures out == Contents(data, slots)
  {
  }

  /** The binary search at the bottom. */
  method SearchLeaf(data: seq<byte>, key: Key, ghost slots: seq<Slot>, ns: nat) returns (r: Option<seq<byte>>)
    requires Holds(data, slots, ns) && SortedSlots(slots) && SortedItems(Contents(data, slots))
    ensures Finds(Contents(data, slots), key, r)
  {
    hide *;
    HoldsInside(data, slots, ns);
    var i := LeafFind(data, key, slots);
    if i < 0 {
      MissHere(data, slots, ns, key);
      return None;
    }
    HitHere(data, slots, ns, i);
    var s := SlotAt(data, i);
    return Some(data[101 + s.off..101 + s.off + s.size]);
  }

  lemma HitHere(data: seq<byte>, slots: seq<Slot>, ns: nat, i: nat)
    requires Holds(data, slots, ns) && i < |slots| && SortedItems(Contents(data, slots))
    ensures DescAt(i) + 25 <= |data| && SlotAt(data, i) == slots[i] && 101 + slots[i].off + slots[i].size <= |data|
    ensures Finds(Contents(data, slots), slots[i].key, Some(data[101 + slots[i].off..101 + slots[i].off + slots[i].size]))
  {
    hide Holds, Finds, SortedItems, SlotAt;
    HoldsInside(data, slots, ns);
    ItemAt(data, slots, ns, i);
    FoundAt(Contents(data, slots), i);
  }

  lemma MissHere(data: seq<byte>, slots: seq<Slot>, ns: nat, key: Key)
    requires Holds(data, slots, ns) && forall i :: 0 <= i < |slots| ==> slots[i].key != key
    ensures Finds(Contents(data, slots), key, None)
  {
    HoldsInside(data, slots, ns);
    hide Holds, Finds;
    NotFound(Contents(data, slots), key);
  }

  lemma NoKeyThere(data: seq<byte>, slots: seq<Slot>, key: Key)
    requires forall i :: 0 <= i < |slots| ==> 101 + slots[i].off + slots[i].size <= |data|
    requires forall i :: 0 <= i < |slots| ==> slots[i].key != key
    ensures !HasKey(Contents(data, slots), key)
  {
  }

  /** The rightmost slot whose key is not above the wanted one. */
  method FindSlot(data: seq<byte>, key: Key, ghost t: Tree) returns (slot: int)
    requires t.Inner? && Points(data, t) && Ordered(t)
    ensures Descends(t.keys, key, slot) && -1 <= slot < |t.keys|
  {
    slot := -1;
    ghost var keys := t.keys;
    hide CmpKey, DecodeKey, Ordered, Descends, SortedKeys, Le64, Items, Between;
    var i := 0;
    while i < NItems(data)
      invariant 0 <= i <= |keys| && slot == i - 1 && (slot >= 0 ==> CmpKey(keys[slot], key) <= 0)
    {
      if CmpKey(DecodeKey(data, PtrAt(i)), key) <= 0 {
        slot := i;
      } else {
        break;
      }
      i := i + 1;
    }
    StopsThere(keys, key, slot);
  }

  ghost predicate SamePlaces(img: Image, t: Tree, t': Tree) {
    t'.addr == t.addr && Level(t') == Level(t) && Places(img, t') == Places(img, t)
  }

  lemma NoChange(img: Image, d: map<int, seq<byte>>, t: Tree)
    ensures SamePlaces(img, t, t) && OnlyIn(d, d, Places(img, t))
  {
  }

  lemma PhysThere(img: Image, d: map<int, seq<byte>>, logical: nat)
    requires NodeBytes(img, d, logical).Some?
    ensures Phys(img.chunks, logical).Some?
  {
  }

  lemma LeafStored(img: Image, d: map<int, seq<byte>>, t: Tree, t': Tree, data: seq<byte>)
    requires t.LeafNode? && t'.LeafNode? && t'.addr == t.addr && Phys(img.chunks, t.addr).Some?
    requires Holds(data, t'.slots, img.ns) && t'.items == Contents(data, t'.slots) && SortedItems(t'.items)
    ensures var d' := d[Phys(img.chunks, t.addr).value := data];
            Rep(img, d', t') && Ordered(t') && Apart(img, t') && SamePlaces(img, t, t') && OnlyIn(d, d', Places(img, t)) && Items(t') == t'.items
  {
    hide Phys, Holds, Contents;
  }

  /** The slot a delete follows: the last one not above the key, or the first. */
  method FindLastSlot(data: seq<byte>, key: Key, ghost t: Tree) returns (slot: nat)
    requires t.Inner? && Points(data, t) && Ordered(t)
    ensures slot < |t.kids|
    ensures forall i :: 0 <= i < |t.kids| && i != slot ==> !HasKey(Items(t.kids[i]), key)
  {
    OrderedKid(t, 0);
    ghost var keys := t.keys;
    hide CmpKey, DecodeKey, Ordered, Descends, SortedKeys, Le64, Items, Between, HasKey;
    var i := NItems(data) - 1;
    ghost var low := -1;
    slot := 0;
    while i >= 0
      invariant -1 <= i < |keys| && slot == 0 && low == -1
      invariant i + 1 < |keys| ==> CmpKey(keys[i + 1], key) > 0
    {
      if CmpKey(DecodeKey(data, PtrAt(i)), key) <= 0 {
        slot := i;
        low := i;
        break;
      }
      i := i - 1;
    }
    StopsThere(keys, key, low);
    forall k: nat | k < |t.kids| && k != slot ensures !HasKey(Items(t.kids[k]), key) {
      OnlyThere(t, key, low, k);
    }
  }

  lemma ApartKid(img: Image, t: Tree, i: nat)
    requires t.Inner? && Apart(img, t) && i < |t.kids|
    ensures Apart(img, t.kids[i]) && Disjoint(Own(img, t), Places(img, t.kids[i]))
  {
  }

  lemma ApartKids(img: Image, t: Tree, i: nat, j: nat)
    requires t.Inner? && Apart(img, t) && i < |t.kids| && j < |t.kids| && i != j
    ensures Disjoint(Places(img, t.kids[i]), Places(img, t.kids[j]))
  {
    hide Places;
    assert Disjoint(Places(img, t.kids[i]), Places(img, t.kids[j])) || Disjoint(Places(img, t.kids[j]), Places(img, t.kids[i]));
  }

  /** A child changed inside its own places changes its parent accordingly, and nothing else. */
  lemma KidReplaced(img: Image, d: map<int, seq<byte>>, d': map<int, seq<byte>>, t: Tree, slot: nat, kid: Tree, key: Key)
    requires t.Inner? && Rep(img, d, t) && Ordered(t) && Apart(img, t) && slot < |t.kids|
    requires Rep(img, d', kid) && Ordered(kid) && Apart(img, kid) && SamePlaces(img, t.kids[slot], kid)
    requires OnlyIn(d, d', Places(img, t.kids[slot])) && Items(kid) == Without(Items(t.kids[slot]), key)
    requires forall i :: 0 <= i < |t.kids| && i != slot ==> !HasKey(Items(t.kids[i]), key)
    ensures var t' := Inner(t.addr, t.level, t.keys, t.kids[slot := kid]);
            && Rep(img, d', t') && Ordered(t') && Apart(img, t') && SamePlaces(img, t, t')
            && OnlyIn(d, d', Places(img, t)) && Items(t') == Without(Items(t), key)
  {
    hide *;
    KidStored(img, d, d', t, slot, kid);
    KidOrdered(t, slot, kid, key);
    KidPlaced(img, t, slot, kid);
    KidInside(img, d, d', t, slot);
    KidItems(t, slot, kid, key);
  }

  lemma KidStored(img: Image, d: map<int, seq<byte>>, d': map<int, seq<byte>>, t: Tree, slot: nat, kid: Tree)
    requires t.Inner? && Rep(img, d, t) && Apart(img, t) && slot < |t.kids|
    requires Rep(img, d', kid) && SamePlaces(img, t.kids[slot], kid) && OnlyIn(d, d', Places(img, t.kids[slot]))
    ensures Rep(img, d', Inner(t.addr, t.level, t.keys, t.kids[slot := kid]))
  {
    hide *;
    var ps, t' := Places(img, t.kids[slot]), Inner(t.addr, t.level, t.keys, t.kids[slot := kid]);
    ApartKid(img, t, slot);
    SameNode(img, d, d', t, ps);
    InnerFacts(img, d, t);
    forall i | 0 <= i < |t.kids| ensures Rep(img, d', t'.kids[i]) && Level(t'.kids[i]) < t.level && t'.kids[i].addr == t.kids[i].addr {
      RepKid(img, d, t, i);
      SameHead(img, t.kids[slot], kid);
      if i != slot {
        ApartKids(img, t, i, slot);
        Elsewhere(img, d, d', t.kids[i], ps);
      }
    }
    StillPoints(NodeBytes(img, d, t.addr).value, t, t');
    MakesRep(img, d', t');
  }

  lemma SameHead(img: Image, t: Tree, t': Tree)
    requires SamePlaces(img, t, t')
    ensures t'.addr == t.addr && Level(t') == Level(t) && Places(img, t') == Places(img, t)
  {
  }

  lemma StillPoints(data: seq<byte>, t: Tree, t': Tree)
    requires t.Inner? && t'.Inner? && Points(data, t) && t'.level == t.level && t'.keys == t.keys && |t'.kids| == |t.kids|
    requires forall i :: 0 <= i < |t.kids| ==> t'.kids[i].addr == t.kids[i].addr
    ensures Points(data, t')
  {
    hide Le64, DecodeKey;
  }

  lemma MakesRep(img: Image, d: map<int, seq<byte>>, t: Tree)
    requires t.Inner? && var b := NodeBytes(img, d, t.addr); b.Some? && Points(b.value, t)
    requires forall i :: 0 <= i < |t.kids| ==> Rep(img, d, t.kids[i]) && Level(t.kids[i]) < t.level
    ensures Rep(img, d, t)
  {
    hide NodeBytes, Points;
  }

  lemma KidOrdered(t: Tree, slot: nat, kid: Tree, key: Key)
    requires t.Inner? && Ordered(t) && slot < |t.kids| && Ordered(kid) && Items(kid) == Without(Items(t.kids[slot]), key)
    ensures Ordered(Inner(t.addr, t.level, t.keys, t.kids[slot := kid]))
  {
    WithoutKeeps(Items(t.kids[slot]), key);
    hide Less, Items, Without;
    BetweenSub(Items(t.kids[slot]), Items(kid), t.keys[slot], NextKey(t.keys, slot));
  }

  lemma BetweenSub(a: seq<Item>, b: seq<Item>, lo: Key, hi: Option<Key>)
    requires Between(a, lo, hi) && forall x :: x in b ==> x in a
    ensures Between(b, lo, hi)
  {
    hide Less;
    forall i | 0 <= i < |b| ensures !Less(b[i].key, lo) && (hi.Some? ==> Less(b[i].key, hi.value)) {
      assert b[i] in a;
    }
  }

  lemma KidPlaced(img: Image, t: Tree, slot: nat, kid: Tree)
    requires t.Inner? && Apart(img, t) && slot < |t.kids| && Apart(img, kid) && SamePlaces(img, t.kids[slot], kid)
    ensures var t' := Inner(t.addr, t.level, t.keys, t.kids[slot := kid]); Apart(img, t') && SamePlaces(img, t, t')
  {
    hide Phys;
    SameHead(img, t.kids[slot], kid);
    var t' := Inner(t.addr, t.level, t.keys, t.kids[slot := kid]);
    PlacesSame(img, t.kids, t'.kids);
    hide Places, Disjoint;
    assert Own(img, t') == Own(img, t);
    assert Places(img, t') == Places(img, t) by { PlacesAre(img, t); PlacesAre(img, t'); }
    assert forall i :: 0 <= i < |t.kids| ==> Places(img, t'.kids[i]) == Places(img, t.kids[i]);
  }

  lemma PlacesAre(img: Image, t: Tree)
    requires t.Inner?
    ensures Places(img, t) == Own(img, t) + PlacesOf(img, t.kids)
  {
  }

  lemma {:induction false} PlacesSame(img: Image, a: seq<Tree>, b: seq<Tree>)
    requires |a| == |b| && forall i :: 0 <= i < |a| ==> Places(img, a[i]) == Places(img, b[i])
    ensures PlacesOf(img, a) == PlacesOf(img, b)
  {
    hide Places;
    if a != [] { PlacesSame(img, a[1..], b[1..]); }
  }

  lemma KidInside(img: Image, d: map<int, seq<byte>>, d': map<int, seq<byte>>, t: Tree, slot: nat)
    requires t.Inner? && slot < |t.kids| && OnlyIn(d, d', Places(img, t.kids[slot]))
    ensures OnlyIn(d, d', Places(img, t))
  {
    KidPlaces(img, t.kids);
    hide Places;
    forall p | p in Places(img, t.kids[slot]) ensures p in Places(img, t) {
      assert p in PlacesOf(img, t.kids);
    }
  }

  lemma KidItems(t: Tree, slot: nat, kid: Tree, key: Key)
    requires t.Inner? && slot < |t.kids| && Items(kid) == Without(Items(t.kids[slot]), key)
    requires forall i :: 0 <= i < |t.kids| && i != slot ==> !HasKey(Items(t.kids[i]), key)
    ensures Items(Inner(t.addr, t.level, t.keys, t.kids[slot := kid])) == Without(Items(t), key)
  {
    var kids := t.kids[slot := kid];
    InnerItems(t);
    InnerItems(Inner(t.addr, t.level, t.keys, kids));
    hide *;
    var a, b := t.kids[..slot], t.kids[slot + 1..];
    assert kids[..slot] == a && kids[slot + 1..] == b && kids[slot] == kid;
    ItemsSplit(t.kids, slot);
    ItemsSplit(kids, slot);
    WithoutAppend(ItemsOf(a) + Items(t.kids[slot]), ItemsOf(b), key);
    WithoutAppend(ItemsOf(a), Items(t.kids[slot]), key);
    KeylessKids(a, key);
    KeylessKids(b, key);
  }

  lemma {:induction false} KeylessKids(kids: seq<Tree>, key: Key)
    requires forall i :: 0 <= i < |kids| ==> !HasKey(Items(kids[i]), key)
    ensures Without(ItemsOf(kids), key) == ItemsOf(kids)
  {
    hide Items, Without, HasKey;
    if kids == [] {
      NoneThere(key);
      WithoutNone(ItemsOf(kids), key);
    } else {
      KeylessKids(kids[1..], key);
      WithoutNone(Items(kids[0]), key);
      WithoutAppend(Items(kids[0]), ItemsOf(kids[1..]), key);
    }
  }

  lemma NoneThere(key: Key)
    ensures !HasKey([], key)
  {
  }

  /** After a delete every other key is found as before, and the deleted one is not found. */
  lemma DeleteThenSearch(t: Tree, t': Tree, key: Key, k: Key, r: Option<seq<byte>>)
    requires Items(t') == Without(Items(t), key)
    ensures k != key ==> (Finds(Items(t'), k, r) <==> Finds(Items(t), k, r))
    ensures Finds(Items(t'), key, None)
  {
    hide Items, Without;
    WithoutKeeps(Items(t), key);
    if k != key {
      assert forall v :: Item(k, v) in Items(t') <==> Item(k, v) in Items(t);
    }
    assert forall v :: Item(key, v) !in Items(t');
  }

  predicate Wanted(x: Item, objectID: nat, itemType: nat) {
    x.key.objectID == objectID && x.key.itemType == itemType
  }

  /** The wanted ones of the first i items, in order. */
  ghost predicate Scanned(all: seq<Item>, i: nat, out: seq<Item>, objectID: nat, itemType: nat) {
    && i <= |all| && SortedItems(all)
    && (forall x :: x in out <==> x in all[..i] && Wanted(x, objectID, itemType))
    && (forall k, m :: 0 <= k < m < |out| ==> out[k].key.offset < out[m].key.offset)
  }

  lemma ScanStart(all: seq<Item>, objectID: nat, itemType: nat)
    requires SortedItems(all)
    ensures Scanned(all, 0, [], objectID, itemType)
  {
  }

  lemma ScanStep(all: seq<Item>, i: nat, out: seq<Item>, objectID: nat, itemType: nat)
    requires Scanned(all, i, out, objectID, itemType) && i < |all|
    ensures Scanned(all, i + 1, if Wanted(all[i], objectID, itemType) then out + [all[i]] else out, objectID, itemType)
  {
    hide Less;
    assert all[..i + 1] == all[..i] + [all[i]];
    if Wanted(all[i], objectID, itemType) {
      forall k | 0 <= k < |out| ensures out[k].key.offset < all[i].key.offset {
        assert out[k] in out && out[k] in all[..i];
        OffsetOrder(out[k].key, all[i].key);
      }
    }
  }

  lemma OffsetOrder(a: Key, b: Key)
    ensures Less(a, b) && a.objectID == b.objectID && a.itemType == b.itemType ==> a.offset < b.offset
  {
  }

  lemma ScanEnd(all: seq<Item>, out: seq<Item>, objectID: nat, itemType: nat)
    requires Scanned(all, |all|, out, objectID, itemType)
    ensures forall x :: x in out <==> x in all && Wanted(x, objectID, itemType)
    ensures forall i, j :: 0 <= i < j < |out| ==> out[i].key.offset < out[j].key.offset
  {
    assert all[..|all|] == all;
  }
}
