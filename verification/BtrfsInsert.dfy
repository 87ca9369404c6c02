/** Insertion into a leaf, when it is right, and the two loops that halve a full leaf. */
module BtrfsInsert {
  import opened Wrappers
  import opened Bytes
  import opened BtrfsLeaf
  import opened BtrfsNode

  /** The descriptors from p on moved up by one place. */
  function Shifted(s: seq<byte>, n: nat, p: nat): (r: seq<byte>)
    requires p <= n && DescAt(n + 1) <= |s|
    ensures |r| == |s|
  {
    if p < n then Splice(s, DescAt(p + 1), s[DescAt(p)..DescAt(n)]) else s
  }

  /** What the first n descriptors say once the others have moved up. */
  ghost function ShiftedSlots(slots: seq<Slot>, p: nat): (r: seq<Slot>)
    requires p <= |slots|
    ensures |r| == |slots| && forall k :: 0 <= k < |r| ==> r[k] == slots[if k <= p then k else k - 1]
  {
    seq(|slots|, k requires 0 <= k < |slots| => slots[if k <= p then k else k - 1])
  }

  /** The data start found after the shift is the right one exactly when the new item goes last, or the item it
      displaces is as long as the last one. */
  ghost predicate StartFound(slots: seq<Slot>, p: nat)
    requires p <= |slots|
  {
    p == |slots| || slots[p].size == slots[|slots| - 1].size
  }

  lemma ShiftedSum(slots: seq<Slot>, p: nat)
    requires p < |slots|
    ensures Sum(ShiftedSlots(slots, p)) == Sum(slots) + slots[p].size - slots[|slots| - 1].size
  {
    hide *;
    ShiftedParts(slots, p);
    TwoSums(slots[..p], slots[p..|slots| - 1], slots[p], slots[|slots| - 1]);
  }

  lemma TwoSums(a: seq<Slot>, m: seq<Slot>, x: Slot, y: Slot)
    ensures Sum(a + ([x] + m)) == Sum(a) + x.size + Sum(m)
    ensures Sum(a + (m + [y])) == Sum(a) + Sum(m) + y.size
  {
    hide *;
    SumAppend(a, [x] + m);
    SumAppend([x], m);
    SumAppend(a, m + [y]);
    SumAppend(m, [y]);
    SumOne(x);
    SumOne(y);
  }

  lemma ShiftedParts(slots: seq<Slot>, p: nat)
    requires p < |slots|
    ensures var n := |slots|;
            && ShiftedSlots(slots, p) == slots[..p] + ([slots[p]] + slots[p..n - 1])
            && slots == slots[..p] + (slots[p..n - 1] + [slots[n - 1]])
  {
  }

  lemma ShiftedStart(slots: seq<Slot>, p: nat)
    requires p <= |slots|
    ensures Sum(ShiftedSlots(slots, p)) == Sum(slots) <==> StartFound(slots, p)
  {
    if p < |slots| {
      ShiftedSum(slots, p);
    } else {
      assert ShiftedSlots(slots, p) == slots;
    }
  }

  /** The leaf's slots after an insert as the code does it: the data goes below the start found after the shift, and its
      offset is stored in 32 bits; None where that place is before the node and the code panics. */
  ghost function InsertResult(slots: seq<Slot>, p: nat, key: Key, size: nat, ns: nat): Option<seq<Slot>>
    requires p <= |slots|
  {
    var at := ns - Sum(ShiftedSlots(slots, p)) - size;
    if at < 0 then None else Some(PutAt(slots, p, Slot(key, (at - 101) % TWO32, size)))
  }

  /** With room for the item, an insert makes a well-formed leaf if and only if the start was found, or the item is empty
      and its offset not negative: otherwise the new data leaves a hole below the data area or lies on another item. */
  lemma InsertExact(slots: seq<Slot>, p: nat, key: Key, size: nat, ns: nat)
    requires Tidy(slots, ns) && p <= |slots| && 101 + 25 * (|slots| + 1) + Sum(slots) + size <= ns
    ensures var r := InsertResult(slots, p, key, size, ns);
            r.Some? && Tidy(r.value, ns)
            <==> StartFound(slots, p) || (size == 0 && 101 + Sum(ShiftedSlots(slots, p)) <= ns)
  {
    hide *;
    ShiftedStart(slots, p);
    TidySize(slots, ns);
    var found := Sum(ShiftedSlots(slots, p));
    var at := ns - found - size;
    ResultIs(slots, p, key, size, ns);
    if at >= 0 {
      var s := Slot(key, (at - 101) % TWO32, size);
      OffsetIs(at, ns);
      if at >= 101 && size > 0 {
        ExactAt(slots, p, s, found, ns);
      } else if at >= 101 {
        EmptyTidy(slots, p, s, ns);
      } else {
        FarOut(slots, p, s, ns);
      }
    }
  }

  lemma ResultIs(slots: seq<Slot>, p: nat, key: Key, size: nat, ns: nat)
    requires p <= |slots|
    ensures TWO32 > 0
    ensures var at := ns - Sum(ShiftedSlots(slots, p)) - size;
            InsertResult(slots, p, key, size, ns) == if at < 0 then None else Some(PutAt(slots, p, Slot(key, (at - 101) % TWO32, size)))
  {
    hide Sum, ShiftedSlots, PutAt;
  }

  lemma OffsetIs(at: nat, ns: nat)
    requires at <= ns < TWO32
    ensures at >= 101 ==> (at - 101) % TWO32 == at - 101
    ensures at < 101 ==> (at - 101) % TWO32 + 101 > ns
  {
  }

  /** An empty item does not disturb anybody. */
  lemma EmptyTidy(slots: seq<Slot>, p: nat, s: Slot, ns: nat)
    requires Tidy(slots, ns) && p <= |slots| && 101 + 25 * (|slots| + 1) + Sum(slots) <= ns && s.size == 0 && 101 + s.off <= ns
    ensures Tidy(PutAt(slots, p, s), ns)
  {
    PutAtSum(slots, p, s);
    hide Sum, PutAt, Overlap, Tidy;
    var r := PutAt(slots, p, s);
    forall i | 0 <= i < |r| ensures InData(r, ns, i) {
      if i != p { TidyAt(slots, ns, if i < p then i else i - 1); }
    }
    forall i, j | 0 <= i < j < |r| ensures !Overlap(r[i], r[j]) {
      PutAtIndex(slots, p, s, i);
      EmptyApart(r[i], r[j]);
      if i != p && j != p { PairFree(slots, ns, if i < p then i else i - 1, if j < p then j else j - 1); }
    }
    TidySize(slots, ns);
    TidyFromSlots(r, ns);
  }

  lemma EmptyApart(a: Slot, b: Slot)
    ensures a.size == 0 || b.size == 0 ==> !Overlap(a, b)
  {
  }

  lemma PutAtIndex(slots: seq<Slot>, p: nat, s: Slot, i: nat)
    requires p <= |slots| && i <= |slots|
    ensures |PutAt(slots, p, s)| == |slots| + 1
    ensures PutAt(slots, p, s)[i] == if i < p then slots[i] else if i == p then s else slots[i - 1]
  {
  }

  /** Item i lies in the data area. */
  ghost predicate InData(slots: seq<Slot>, ns: nat, i: nat)
    requires i < |slots|
  {
    101 + slots[i].off + slots[i].size <= ns && (slots[i].size > 0 ==> ns - Sum(slots) <= 101 + slots[i].off)
  }

  lemma TidyAt(slots: seq<Slot>, ns: nat, i: nat)
    requires Tidy(slots, ns) && i < |slots|
    ensures InData(slots, ns, i)
  {
    hide Sum, Overlap;
  }

  lemma TidyFromSlots(slots: seq<Slot>, ns: nat)
    requires 101 + 25 * |slots| + Sum(slots) <= ns < 0x1_0000_0000
    requires forall i :: 0 <= i < |slots| ==> InData(slots, ns, i)
    requires forall i, j :: 0 <= i < j < |slots| ==> !Overlap(slots[i], slots[j])
    ensures Tidy(slots, ns)
  {
    hide Sum, Overlap;
    forall i | 0 <= i < |slots| ensures 101 + slots[i].off + slots[i].size <= ns && (slots[i].size > 0 ==> ns - Sum(slots) <= 101 + slots[i].off) {
      assert InData(slots, ns, i);
    }
  }

  lemma FarOut(slots: seq<Slot>, p: nat, s: Slot, ns: nat)
    requires p <= |slots| && 101 + s.off > ns
    ensures !Tidy(PutAt(slots, p, s), ns)
  {
    hide Sum, PutAt;
    assert PutAt(slots, p, s)[p] == s;
  }

  lemma ExactAt(slots: seq<Slot>, p: nat, s: Slot, found: nat, ns: nat)
    requires Tidy(slots, ns) && p <= |slots| && 101 + 25 * (|slots| + 1) + Sum(slots) + s.size <= ns && s.size > 0
    requires s.off + s.size + 101 == ns - found
    ensures Tidy(PutAt(slots, p, s), ns) <==> found == Sum(slots)
  {
    hide Tidy, Sum, PutAt;
    PutAtSum(slots, p, s);
    if found == Sum(slots) {
      PutTidy(slots, p, s.key, s.size, ns);
      assert s == Slot(s.key, ns - Sum(slots) - s.size - 101, s.size);
    } else if found > Sum(slots) {
      TooLow(PutAt(slots, p, s), p, ns);
    } else {
      OnTop(slots, p, s, ns, found);
    }
  }

  lemma TooLow(r: seq<Slot>, p: nat, ns: nat)
    requires p < |r| && r[p].size > 0 && 101 + r[p].off < ns - Sum(r)
    ensures !Tidy(r, ns)
  {
  }

  lemma OnTop(slots: seq<Slot>, p: nat, s: Slot, ns: nat, found: nat)
    requires Tidy(slots, ns) && p <= |slots| && found < Sum(slots) && s.size > 0 && s.off + s.size + 101 == ns - found
    ensures !Tidy(PutAt(slots, p, s), ns)
  {
    hide Tidy, Sum, PutAt;
    var low := if 101 + s.off < ns - Sum(slots) then ns - Sum(slots) else 101 + s.off;
    TidySize(slots, ns);
    NoGap(slots, ns, low);
    var i :| 0 <= i < |slots| && Within(slots[i], low - 101);
    Clash(slots, p, s, i, low - 101, ns);
  }

  lemma Clash(slots: seq<Slot>, p: nat, s: Slot, i: nat, x: int, ns: nat)
    requires p <= |slots| && i < |slots| && Within(slots[i], x) && Within(s, x)
    ensures !Tidy(PutAt(slots, p, s), ns)
  {
    var r := PutAt(slots, p, s);
    var i' := if i < p then i else i + 1;
    assert r[i'] == slots[i] && r[p] == s;
    if i' < p {
      assert Overlap(r[i'], r[p]);
    } else {
      assert Overlap(r[p], r[i']);
    }
  }

  /** A 25-byte descriptor. */
  function NewDesc(key: Key, off: nat, size: nat): (d: seq<byte>)
    requires KeyOk(key)
    ensures |d| == 25
  {
    EncodeKey(key) + Put32(off) + Put32(size)
  }

  lemma NewDescIs(key: Key, off: nat, size: nat)
    requires KeyOk(key) && off < 0x1_0000_0000 && size < 0x1_0000_0000
    ensures SlotOf(NewDesc(key, off, size)) == Slot(key, off, size)
  {
    hide EncodeKey, Put32, Le32, DecodeKey;
    var d := NewDesc(key, off, size);
    assert d == EncodeKey(key) + (Put32(off) + Put32(size));
    KeyRoundTrip(key, Put32(off) + Put32(size));
    WordAt(d, 17, Put32(off));
    WordAt(d, 21, Put32(size));
  }

  /** A shifted leaf with the new data, descriptor and count in place. */
  function Inserted(s: seq<byte>, n: nat, p: nat, at: nat, item: seq<byte>, desc: seq<byte>): (r: seq<byte>)
    requires p <= n && DescAt(n + 1) <= |s| && at + |item| <= |s| && |desc| == 25
    ensures |r| == |s|
  {
    Splice(Splice(Splice(s, at, item), DescAt(p), desc), 96, Put32(n + 1))
  }

  lemma InsertedDescs(b: seq<byte>, n: nat, p: nat, at: nat, item: seq<byte>, desc: seq<byte>, k: nat)
    requires p <= n && k <= n && DescAt(n + 1) <= at && at + |item| <= |b| && |desc| == 25
    ensures var r := Inserted(Shifted(b, n, p), n, p, at, item, desc);
            Desc(r, k) == if k == p then desc else Desc(b, if k < p then k else k - 1)
  {
    hide Put32;
    var s := Shifted(b, n, p);
    var r := Inserted(s, n, p, at, item, desc);
    if k == p {
      assert Desc(r, k) == desc;
    } else if k < p {
      assert Desc(r, k) == Desc(b, k);
    } else {
      assert Desc(r, k) == Desc(s, k);
      ShiftedUp(b, n, p, k);
    }
  }

  /** The item is at `at`, and nothing behind it has changed. */
  ghost predicate NewData(b: seq<byte>, r: seq<byte>, at: nat, item: seq<byte>) {
    && |r| == |b| && at + |item| <= |r| && r[at..at + |item|] == item
    && forall q :: at + |item| <= q < |r| ==> r[q] == b[q]
  }

  lemma InsertedRest(b: seq<byte>, n: nat, p: nat, at: nat, item: seq<byte>, desc: seq<byte>)
    requires p <= n && DescAt(n + 1) <= at && at + |item| <= |b| && |desc| == 25 && n + 1 < 0x1_0000_0000
    ensures var r := Inserted(Shifted(b, n, p), n, p, at, item, desc);
            NItems(r) == n + 1 && r[100] == b[100] && NewData(b, r, at, item)
  {
    hide Put32, Le32;
    var s := Shifted(b, n, p);
    var m := Splice(Splice(s, at, item), DescAt(p), desc);
    SplicedLe32(m, 96, Put32(n + 1));
  }

  lemma InsertedLeaf(b: seq<byte>, slots: seq<Slot>, p: nat, key: Key, item: seq<byte>, ns: nat)
    requires Holds(b, slots, ns) && p <= |slots| && KeyOk(key) && 101 + 25 * (|slots| + 1) + Sum(slots) + |item| <= ns
    ensures var at := ns - Sum(slots) - |item|;
            var r := Inserted(Shifted(b, |slots|, p), |slots|, p, at, item, NewDesc(key, at - 101, |item|));
            Holds(r, Put(slots, p, key, |item|, ns), ns) && NewData(b, r, at, item)
  {
    hide *;
    HoldsInside(b, slots, ns);
    DescAtIs();
    var n, at := |slots|, ns - Sum(slots) - |item|;
    var desc := NewDesc(key, at - 101, |item|);
    PutTidy(slots, p, key, |item|, ns);
    TidySize(slots, ns);
    InsertedRest(b, n, p, at, item, desc);
    NewDescIs(key, at - 101, |item|);
    var r, to := Inserted(Shifted(b, n, p), n, p, at, item, desc), Put(slots, p, key, |item|, ns);
    PutHas(slots, p, key, |item|, ns);
    forall k | 0 <= k < n + 1 ensures DescAt(k) + 25 <= |r| && SlotAt(r, k) == to[k] {
      InsertedSlot(b, slots, p, at, item, desc, Slot(key, at - 101, |item|), k);
    }
    MakesLeaf(r, to, ns);
  }

  lemma TidySize(slots: seq<Slot>, ns: nat)
    requires Tidy(slots, ns)
    ensures 101 + 25 * |slots| + Sum(slots) <= ns < TWO32
  {
    hide Sum, Overlap;
  }

  lemma PutHas(slots: seq<Slot>, p: nat, key: Key, size: nat, ns: nat)
    requires p <= |slots| && 101 + Sum(slots) + size <= ns
    ensures var r := Put(slots, p, key, size, ns);
            && |r| == |slots| + 1 && r[p] == Slot(key, ns - Sum(slots) - size - 101, size)
            && forall k :: 0 <= k < |r| && k != p ==> r[k] == slots[if k < p then k else k - 1]
  {
  }

  lemma MakesLeaf(r: seq<byte>, to: seq<Slot>, ns: nat)
    requires |r| == ns && Tidy(to, ns) && |r| >= 101 && NItems(r) == |to| && r[100] == 0
    requires forall k :: 0 <= k < |to| ==> DescAt(k) + 25 <= |r| && SlotAt(r, k) == to[k]
    ensures Holds(r, to, ns)
  {
    hide SlotAt, NItems, Sum, Overlap;
  }

  lemma InsertedSlot(b: seq<byte>, slots: seq<Slot>, p: nat, at: nat, item: seq<byte>, desc: seq<byte>, s: Slot, k: nat)
    requires Describes(b, slots) && p <= |slots| && k <= |slots| && DescAt(|slots| + 1) <= at && at + |item| <= |b|
    requires |desc| == 25 && SlotOf(desc) == s
    ensures SlotAt(Inserted(Shifted(b, |slots|, p), |slots|, p, at, item, desc), k)
            == if k == p then s else slots[if k < p then k else k - 1]
  {
    hide SlotOf, Inserted, Shifted, Desc, NItems;
    InsertedDescs(b, |slots|, p, at, item, desc, k);
    assert k != p ==> SlotAt(b, if k < p then k else k - 1) == slots[if k < p then k else k - 1];
  }

  ghost function Inserting<T>(s: seq<T>, p: nat, x: T): seq<T>
    requires p <= |s|
  {
    s[..p] + [x] + s[p..]
  }

  lemma InsertedContents(b: seq<byte>, r: seq<byte>, slots: seq<Slot>, p: nat, key: Key, item: seq<byte>, ns: nat)
    requires Holds(b, slots, ns) && p <= |slots| && 101 + Sum(slots) + |item| <= ns
    requires Holds(r, Put(slots, p, key, |item|, ns), ns)
    requires NewData(b, r, ns - Sum(slots) - |item|, item)
    ensures Contents(r, Put(slots, p, key, |item|, ns)) == Inserting(Contents(b, slots), p, Item(key, item))
  {
    hide *;
    HoldsInside(b, slots, ns);
    HoldsInside(r, Put(slots, p, key, |item|, ns), ns);
    PutHas(slots, p, key, |item|, ns);
    var to, c := Put(slots, p, key, |item|, ns), Contents(b, slots);
    InsertingAt(c, p, Item(key, item), 0);
    forall k | 0 <= k < |to| ensures Contents(r, to)[k] == Inserting(c, p, Item(key, item))[k] {
      InsertingAt(c, p, Item(key, item), k);
      InsertedItem(b, r, slots, p, key, item, ns, k);
    }
  }

  lemma InsertedItem(b: seq<byte>, r: seq<byte>, slots: seq<Slot>, p: nat, key: Key, item: seq<byte>, ns: nat, k: nat)
    requires Tidy(slots, ns) && |b| == |r| == ns && p <= |slots| && k <= |slots| && 101 + Sum(slots) + |item| <= ns
    requires NewData(b, r, ns - Sum(slots) - |item|, item)
    ensures |Put(slots, p, key, |item|, ns)| == |slots| + 1
    ensures var s := Put(slots, p, key, |item|, ns)[k];
            var k' := if k < p then k else k - 1;
            && 101 + s.off + s.size <= ns && (k != p ==> 101 + slots[k'].off + slots[k'].size <= ns)
            && Item(s.key, Value(r, s)) == if k == p then Item(key, item) else Item(slots[k'].key, Value(b, slots[k']))
  {
    hide *;
    PutHas(slots, p, key, |item|, ns);
    var s := Put(slots, p, key, |item|, ns)[k];
    NewDataIs(b, r, ns - Sum(slots) - |item|, item);
    if k == p {
      ValueIs(r, s, item);
    } else {
      SlotInside(slots, ns, if k < p then k else k - 1);
      SameValue(r, b, s, ns - Sum(slots));
    }
  }

  lemma NewDataIs(b: seq<byte>, r: seq<byte>, at: nat, item: seq<byte>)
    requires NewData(b, r, at, item)
    ensures at + |item| <= |r| == |b| && r[at..at + |item|] == item && forall q :: at + |item| <= q < |r| ==> r[q] == b[q]
  {
  }

  lemma ValueIs(r: seq<byte>, s: Slot, item: seq<byte>)
    requires 101 + s.off + s.size <= |r| && r[101 + s.off..101 + s.off + s.size] == item
    ensures Value(r, s) == item
  {
  }

  lemma InsertingAt<T>(s: seq<T>, p: nat, x: T, k: nat)
    requires p <= |s| && k <= |s|
    ensures |Inserting(s, p, x)| == |s| + 1
    ensures Inserting(s, p, x)[k] == if k == p then x else s[if k < p then k else k - 1]
  {
  }

  ghost predicate LowerBoundIs(slots: seq<Slot>, key: Key, p: nat) {
    && p <= |slots|
    && (forall i :: 0 <= i < p ==> Less(slots[i].key, key))
    && (forall i :: p <= i < |slots| ==> !Less(slots[i].key, key))
  }

  /** Inserts an item at its place. The caller has checked the room; the data start is found right only where
      StartFound says so. */
  method LeafInsert(data: array<byte>, ns: nat, key: Key, item: seq<byte>, ghost slots: seq<Slot>) returns (ghost p: nat)
    requires Holds(data[..], slots, ns) && SortedSlots(slots) && KeyOk(key)
    requires 101 + 25 * (|slots| + 1) + Sum(slots) + |item| <= ns
    requires forall q :: LowerBoundIs(slots, key, q) ==> StartFound(slots, q)
    modifies data
    ensures LowerBoundIs(slots, key, p)
    ensures Holds(data[..], Put(slots, p, key, |item|, ns), ns)
    ensures Contents(data[..], Put(slots, p, key, |item|, ns)) == Inserting(Contents(old(data[..]), slots), p, Item(key, item))
  {
    hide *;
    ghost var before := data[..];
    HoldsInside(before, slots, ns);
    DescAtIs();
    var n := NItems(data[..]);
    var at := LowerBound(data[..], key, slots);
    p := at;
    LowerBoundHere(slots, key, p);
    if at < n {
      StoreBytes(data, DescAt(at + 1), data[DescAt(at)..DescAt(n)]);
    }
    ShiftedIs(before, n, p);
    ShiftedDescribes(before, slots, p);
    ShiftedStart(slots, p);
    var ds := LeafDataStart(data[..], ns, ShiftedSlots(slots, p));
    var newAt := ds - |item|;
    InsertedLeaf(before, slots, p, key, item, ns);
    ThreeWrites(Shifted(before, n, p), n, p, newAt, item, key);
    StoreBytes(data, newAt, item);
    StoreBytes(data, DescAt(at), EncodeKey(key));
    StoreBytes(data, DescAt(at) + 17, Put32(newAt - 101));
    StoreBytes(data, DescAt(at) + 21, Put32(|item|));
    StoreBytes(data, 96, Put32(n + 1));
    InsertedContents(before, data[..], slots, p, key, item, ns);
  }

  lemma LowerBoundHere(slots: seq<Slot>, key: Key, p: nat)
    requires p <= |slots| && (forall i :: 0 <= i < p ==> Less(slots[i].key, key)) && (forall i :: p <= i < |slots| ==> !Less(slots[i].key, key))
    ensures LowerBoundIs(slots, key, p)
  {
  }

  lemma ShiftedIs(s: seq<byte>, n: nat, p: nat)
    requires p <= n && DescAt(n + 1) <= |s|
    ensures DescAt(p) <= DescAt(n) && DescAt(p + 1) + (DescAt(n) - DescAt(p)) <= |s|
    ensures Shifted(s, n, p) == if p < n then Splice(s, DescAt(p + 1), s[DescAt(p)..DescAt(n)]) else s
  {
  }

  lemma ShiftedDescribes(b: seq<byte>, slots: seq<Slot>, p: nat)
    requires Describes(b, slots) && p <= |slots| && DescAt(|slots| + 1) <= |b|
    ensures Describes(Shifted(b, |slots|, p), ShiftedSlots(slots, p))
  {
    hide SlotOf, Le32, Shifted, Desc;
    var n, s, to := |slots|, Shifted(b, |slots|, p), ShiftedSlots(slots, p);
    HeaderSame(b, n, p);
    SameCount(b, s);
    forall k | 0 <= k < n ensures SlotAt(s, k) == to[k] {
      ShiftedUp(b, n, p, k);
      assert SlotAt(b, if k <= p then k else k - 1) == slots[if k <= p then k else k - 1];
    }
  }

  lemma HeaderSame(s: seq<byte>, n: nat, p: nat)
    requires p <= n && DescAt(n + 1) <= |s|
    ensures forall q :: 0 <= q < 101 ==> s[q] == Shifted(s, n, p)[q]
  {
  }

  lemma ShiftedUp(s: seq<byte>, n: nat, p: nat, k: nat)
    requires p <= n && DescAt(n + 1) <= |s| && k <= n && (k == n ==> p < n)
    ensures Desc(Shifted(s, n, p), k) == Desc(s, if k <= p then k else k - 1)
  {
    var t := Shifted(s, n, p);
    if k <= p {
      assert Desc(t, k) == Desc(s, k);
    } else {
      assert Desc(t, k) == Desc(s, k - 1);
    }
  }

  /** Key, offset and size written one after the other make the descriptor. */
  lemma ThreeWrites(s: seq<byte>, n: nat, p: nat, at: nat, item: seq<byte>, key: Key)
    requires p <= n && DescAt(n + 1) <= |s| && 101 <= at && at + |item| <= |s| && KeyOk(key)
    ensures DescAt(p) + 25 <= |s|
    ensures var a := Splice(s, at, item);
            var c := Splice(Splice(a, DescAt(p), EncodeKey(key)), DescAt(p) + 17, Put32(at - 101));
            Inserted(s, n, p, at, item, NewDesc(key, at - 101, |item|))
            == Splice(Splice(c, DescAt(p) + 21, Put32(|item|)), 96, Put32(n + 1))
  {
    hide EncodeKey, Put32;
    var a, o := Splice(s, at, item), DescAt(p);
  }

  /** The right half so far: items mid..i of the full leaf, in a leaf of its own. */
  ghost predicate RightHalf(full: seq<byte>, slots: seq<Slot>, ns: nat, mid: nat, i: nat, right: seq<byte>, rs: seq<Slot>) {
    && Holds(full, slots, ns) && SortedSlots(slots) && mid <= i <= |slots|
    && Holds(right, rs, ns) && |rs| == i - mid
    && (forall k :: 0 <= k < |rs| ==> rs[k].key == slots[mid + k].key)
    && Sum(rs) == Sum(slots[mid..i])
    && Contents(right, rs) == Contents(full, slots)[mid..i]
  }

  lemma RightStart(full: seq<byte>, slots: seq<Slot>, ns: nat, mid: nat, right: seq<byte>)
    requires Holds(full, slots, ns) && SortedSlots(slots) && mid <= |slots| && Holds(right, [], ns)
    ensures RightHalf(full, slots, ns, mid, mid, right, [])
  {
    hide Tidy, Describes;
    HoldsInside(full, slots, ns);
    assert slots[mid..mid] == [];
    assert Contents(right, []) == [] == Contents(full, slots)[mid..mid];
  }

  /** There is room for the next item, and it goes last. */
  lemma RightRoom(full: seq<byte>, slots: seq<Slot>, ns: nat, mid: nat, i: nat, right: seq<byte>, rs: seq<Slot>)
    requires RightHalf(full, slots, ns, mid, i, right, rs) && i < |slots|
    ensures DescAt(i) + 25 <= |full| && SlotAt(full, i) == slots[i] && 101 + slots[i].off + slots[i].size <= ns == |full|
    ensures 101 + 25 * (|rs| + 1) + Sum(rs) + slots[i].size <= ns
    ensures SortedSlots(rs) && forall q :: LowerBoundIs(rs, slots[i].key, q) ==> q == |rs| && StartFound(rs, q)
  {
    hide SlotAt, Sum, Overlap, Contents, Less, SortedSlots, LowerBoundIs, StartFound, Tidy, Describes;
    HoldsInside(full, slots, ns);
    SumParts(slots, mid, i);
    TidySize(slots, ns);
    GoesLast(slots, mid, i, rs);
  }

  lemma GoesLast(slots: seq<Slot>, mid: nat, i: nat, rs: seq<Slot>)
    requires SortedSlots(slots) && mid <= i < |slots| && |rs| == i - mid && forall k :: 0 <= k < |rs| ==> rs[k].key == slots[mid + k].key
    ensures SortedSlots(rs) && forall q :: LowerBoundIs(rs, slots[i].key, q) ==> q == |rs| && StartFound(rs, q)
  {
    hide Less;
    HalvesSorted(slots, rs, mid);
    forall k: nat | k < |rs| ensures !LowerBoundIs(rs, slots[i].key, k) {
      assert Less(slots[mid + k].key, slots[i].key);
      assert Less(rs[k].key, slots[i].key);
    }
  }

  lemma SumParts(slots: seq<Slot>, mid: nat, i: nat)
    requires mid <= i < |slots|
    ensures Sum(slots[mid..i]) + slots[i].size <= Sum(slots)
    ensures Sum(slots[mid..i + 1]) == Sum(slots[mid..i]) + slots[i].size
  {
    hide Sum;
    var a, m := slots[..mid], slots[mid..i];
    SumSplit(slots, i);
    assert slots[..i] == a + m;
    SumAppend(a, m);
    assert slots[mid..i + 1] == m + [slots[i]];
    SumAppend(m, [slots[i]]);
    SumOne(slots[i]);
  }

  lemma RightStep(full: seq<byte>, slots: seq<Slot>, ns: nat, mid: nat, i: nat, right: seq<byte>, rs: seq<Slot>, right': seq<byte>)
    requires RightHalf(full, slots, ns, mid, i, right, rs) && i < |slots|
    requires 101 + Sum(rs) + slots[i].size <= ns && 101 + slots[i].off + slots[i].size <= |full|
    requires var to := Put(rs, |rs|, slots[i].key, slots[i].size, ns);
      && Holds(right', to, ns)
      && Contents(right', to) == Inserting(Contents(right, rs), |rs|, Item(slots[i].key, Value(full, slots[i])))
    ensures RightHalf(full, slots, ns, mid, i + 1, right', Put(rs, |rs|, slots[i].key, slots[i].size, ns))
  {
    hide Sum, Holds, Put, Value, Less, Contents;
    var to, x := Put(rs, |rs|, slots[i].key, slots[i].size, ns), Item(slots[i].key, Value(full, slots[i]));
    PutSum(rs, slots[i].key, slots[i].size, ns);
    SumParts(slots, mid, i);
    HoldsInside(full, slots, ns);
    OneLonger(Contents(full, slots), mid, i, x);
  }

  lemma OneLonger(c: seq<Item>, mid: nat, i: nat, x: Item)
    requires mid <= i < |c| && c[i] == x
    ensures c[mid..i + 1] == Inserting(c[mid..i], i - mid, x)
  {
  }

  lemma PutSum(rs: seq<Slot>, key: Key, size: nat, ns: nat)
    requires 101 + Sum(rs) + size <= ns
    ensures Sum(Put(rs, |rs|, key, size, ns)) == Sum(rs) + size
  {
    PutAtSum(rs, |rs|, Slot(key, ns - Sum(rs) - size - 101, size));
  }

  /** The left half so far: the first i items are left. */
  ghost predicate LeftHalf(full: seq<byte>, slots: seq<Slot>, ns: nat, i: nat, left: seq<byte>, ls: seq<Slot>) {
    && Holds(full, slots, ns) && SortedSlots(slots) && i <= |slots|
    && Holds(left, ls, ns) && |ls| == i
    && (forall k :: 0 <= k < i ==> ls[k].key == slots[k].key)
    && Contents(left, ls) == Contents(full, slots)[..i]
  }

  lemma LeftStart(full: seq<byte>, slots: seq<Slot>, ns: nat)
    requires Holds(full, slots, ns) && SortedSlots(slots)
    ensures LeftHalf(full, slots, ns, |slots|, full, slots)
  {
    hide Tidy, Describes, Less;
    HoldsInside(full, slots, ns);
    assert Contents(full, slots)[..|slots|] == Contents(full, slots);
  }

  lemma LeftStep(full: seq<byte>, slots: seq<Slot>, ns: nat, i: nat, left: seq<byte>, ls: seq<Slot>, left': seq<byte>)
    requires LeftHalf(full, slots, ns, i + 1, left, ls) && Holds(left', Drop(ls, i), ns)
    requires Contents(left', Drop(ls, i)) == Removed(Contents(left, ls), i)
    ensures LeftHalf(full, slots, ns, i, left', Drop(ls, i))
  {
    hide Holds, Less, Moved, Value;
    HoldsInside(full, slots, ns);
    var c := Contents(full, slots);
    assert Removed(c[..i + 1], i) == c[..i];
    forall k | 0 <= k < i ensures Drop(ls, i)[k].key == slots[k].key {
      MovedKey(ls[k], ls[i]);
    }
  }

  lemma HalvesSorted(slots: seq<Slot>, part: seq<Slot>, from: nat)
    requires SortedSlots(slots) && from + |part| <= |slots| && forall k :: 0 <= k < |part| ==> part[k].key == slots[from + k].key
    ensures SortedSlots(part)
  {
    hide Less;
    forall k, m | 0 <= k < m < |part| ensures Less(part[k].key, part[m].key) {
      assert Less(slots[from + k].key, slots[from + m].key);
    }
  }

  /** The two loops of a split: the upper half of the items moves to an empty leaf, and nothing is lost. */
  method Redistribute(left: array<byte>, right: array<byte>, ns: nat, ghost slots: seq<Slot>)
    returns (mid: nat, ghost ls: seq<Slot>, ghost rs: seq<Slot>)
    requires left != right && Holds(left[..], slots, ns) && SortedSlots(slots) && Holds(right[..], [], ns)
    modifies left, right
    ensures mid == |slots| / 2
    ensures Holds(left[..], ls, ns) && SortedSlots(ls) && Contents(left[..], ls) == Contents(old(left[..]), slots)[..mid]
    ensures Holds(right[..], rs, ns) && SortedSlots(rs) && Contents(right[..], rs) == Contents(old(left[..]), slots)[mid..]
  {
    hide *;
    ghost var full := left[..];
    HoldsInside(full, slots, ns);
    var n := NItems(left[..]);
    mid := n / 2;
    rs := [];
    RightStart(full, slots, ns, mid, right[..]);
    for i := mid to n
      invariant RightHalf(full, slots, ns, mid, i, right[..], rs) && left[..] == full
    {
      RightRoom(full, slots, ns, mid, i, right[..], rs);
      RightParts(full, slots, ns, mid, i, right[..], rs);
      var s := SlotAt(left[..], i);
      ValueSlice(full, s);
      KeysOk(full, i);
      ghost var before := right[..];
      ghost var p := LeafInsert(right, ns, s.key, left[101 + s.off..101 + s.off + s.size], rs);
      RightStep(full, slots, ns, mid, i, before, rs, right[..]);
      rs := Put(rs, |rs|, s.key, s.size, ns);
    }
    ls := slots;
    LeftStart(full, slots, ns);
    ghost var moved := right[..];
    var i := n;
    while i > mid
      invariant mid <= i <= n && LeftHalf(full, slots, ns, i, left[..], ls) && right[..] == moved
    {
      i := i - 1;
      LeftParts(full, slots, ns, i + 1, left[..], ls);
      ghost var before := left[..];
      LeafDelete(left, ns, i, ls);
      LeftStep(full, slots, ns, i, before, ls, left[..]);
      ls := Drop(ls, i);
    }
    LeftParts(full, slots, ns, mid, left[..], ls);
    RightParts(full, slots, ns, mid, n, right[..], rs);
    HalvesSorted(slots, ls, 0);
    HalvesSorted(slots, rs, mid);
    WholeTail(full, slots, ns, mid);
  }

  lemma RightParts(full: seq<byte>, slots: seq<Slot>, ns: nat, mid: nat, i: nat, right: seq<byte>, rs: seq<Slot>)
    requires RightHalf(full, slots, ns, mid, i, right, rs)
    ensures Holds(right, rs, ns) && |rs| == i - mid && Contents(right, rs) == Contents(full, slots)[mid..i]
    ensures forall k :: 0 <= k < |rs| ==> rs[k].key == slots[mid + k].key
  {
  }

  lemma LeftParts(full: seq<byte>, slots: seq<Slot>, ns: nat, i: nat, left: seq<byte>, ls: seq<Slot>)
    requires LeftHalf(full, slots, ns, i, left, ls)
    ensures Holds(left, ls, ns) && |ls| == i && Contents(left, ls) == Contents(full, slots)[..i]
    ensures forall k :: 0 <= k < |ls| ==> ls[k].key == slots[k].key
  {
  }

  lemma ValueSlice(full: seq<byte>, s: Slot)
    requires 101 + s.off + s.size <= |full|
    ensures Value(full, s) == full[101 + s.off..101 + s.off + s.size]
  {
  }

  lemma KeysOk(full: seq<byte>, i: nat)
    requires DescAt(i) + 25 <= |full|
    ensures KeyOk(SlotAt(full, i).key)
  {
  }

  lemma WholeTail(full: seq<byte>, slots: seq<Slot>, ns: nat, mid: nat)
    requires Holds(full, slots, ns) && mid <= |slots|
    ensures Contents(full, slots)[mid..|slots|] == Contents(full, slots)[mid..]
  {
  }

  /** A well-formed leaf of two items, 10 and 4 bytes long, and a key below both: the data start found is wrong. */
  lemma UnequalSizes()
    ensures var slots := [Slot(Key(2, 1, 0), 4096 - 101 - 10, 10), Slot(Key(3, 1, 0), 4096 - 101 - 14, 4)];
            && Tidy(slots, 4096) && SortedSlots(slots) && LowerBoundIs(slots, Key(1, 1, 0), 0) && !StartFound(slots, 0)
            && 101 + 25 * 3 + Sum(slots) + 8 <= 4096
            && var r := InsertResult(slots, 0, Key(1, 1, 0), 8, 4096); !(r.Some? && Tidy(r.value, 4096))
  {
    var a, b := Slot(Key(2, 1, 0), 4096 - 101 - 10, 10), Slot(Key(3, 1, 0), 4096 - 101 - 14, 4);
    var slots := [a, b];
    assert slots == [a] + [b];
    SumAppend([a], [b]);
    SumOne(a);
    SumOne(b);
    hide Sum;
    InsertExact(slots, 0, Key(1, 1, 0), 8, 4096);
  }
}
