/** Leaf nodes as bytes: search, insertion, deletion and the redistribution of a split. */
module BtrfsNode {
  import opened Bytes
  import opened BtrfsLeaf

  function NItems(data: seq<byte>): nat
    requires |data| >= 101
  {
    Le32(data, 96)
  }

  function DescAt(i: nat): nat {
    101 + 25 * i
  }

  function Desc(data: seq<byte>, i: nat): (d: seq<byte>)
    requires DescAt(i) + 25 <= |data|
    ensures |d| == 25
  {
    data[DescAt(i)..DescAt(i) + 25]
  }

  function SlotOf(d: seq<byte>): Slot
    requires |d| == 25
  {
    Slot(DecodeKey(d, 0), Le32(d, 17), Le32(d, 21))
  }

  function SlotAt(data: seq<byte>, i: nat): Slot
    requires DescAt(i) + 25 <= |data|
  {
    SlotOf(Desc(data, i))
  }

  /** The descriptors of `data` are `slots`. */
  ghost predicate Describes(data: seq<byte>, slots: seq<Slot>) {
    && DescAt(|slots|) <= |data| && NItems(data) == |slots|
    && forall i :: 0 <= i < |slots| ==> SlotAt(data, i) == slots[i]
  }

  /** A well-formed leaf of `ns` bytes. */
  ghost predicate Holds(data: seq<byte>, slots: seq<Slot>, ns: nat) {
    |data| == ns && Tidy(slots, ns) && Describes(data, slots) && data[100] == 0
  }

  function Value(data: seq<byte>, s: Slot): seq<byte>
    requires 101 + s.off + s.size <= |data|
  {
    data[101 + s.off..101 + s.off + s.size]
  }

  /** The items of a leaf, in key order. */
  ghost function Contents(data: seq<byte>, slots: seq<Slot>): (r: seq<Item>)
    requires forall i :: 0 <= i < |slots| ==> 101 + slots[i].off + slots[i].size <= |data|
    ensures |r| == |slots| && forall i :: 0 <= i < |r| ==> r[i] == Item(slots[i].key, Value(data, slots[i]))
  {
    seq(|slots|, i requires 0 <= i < |slots| => Item(slots[i].key, Value(data, slots[i])))
  }

  lemma HoldsInside(data: seq<byte>, slots: seq<Slot>, ns: nat)
    requires Holds(data, slots, ns)
    ensures |data| == ns >= 101 + 25 * |slots| && NItems(data) == |slots| && Describes(data, slots) && Tidy(slots, ns) && data[100] == 0
    ensures forall i :: 0 <= i < |slots| ==> 101 + slots[i].off + slots[i].size <= |data|
  {
  }

  ghost predicate SortedSlots(slots: seq<Slot>) {
    forall i, j :: 0 <= i < j < |slots| ==> Less(slots[i].key, slots[j].key)
  }

  /** Bytes used by the data of the items. */
  method LeafDataStart(data: seq<byte>, ns: nat, ghost slots: seq<Slot>) returns (r: int)
    requires Describes(data, slots)
    ensures r == ns - Sum(slots)
  {
    var total := 0;
    assert slots[..0] == [];
    for i := 0 to NItems(data)
      invariant total == Sum(slots[..i])
    {
      assert slots[..i + 1][..i] == slots[..i];
      total := total + SlotAt(data, i).size;
    }
    assert slots[..|slots|] == slots;
    return ns - total;
  }

  /** Room for one more descriptor and its data. */
  method LeafFree(data: seq<byte>, ns: nat, ghost slots: seq<Slot>) returns (r: int)
    requires Describes(data, slots)
    ensures r == ns - 101 - 25 * |slots| - Sum(slots)
  {
    var start := LeafDataStart(data, ns, slots);
    return start - 101 - NItems(data) * 25;
  }

  /** First slot whose key is not below `key`. */
  method LowerBound(data: seq<byte>, key: Key, ghost slots: seq<Slot>) returns (p: nat)
    requires Describes(data, slots) && SortedSlots(slots)
    ensures p <= |slots|
    ensures forall i :: 0 <= i < p ==> Less(slots[i].key, key)
    ensures forall i :: p <= i < |slots| ==> !Less(slots[i].key, key)
  {
    hide CmpKey, SlotOf;
    var lo, hi := 0, NItems(data);
    while lo < hi
      invariant 0 <= lo <= hi <= |slots|
      invariant forall i :: 0 <= i < lo ==> Less(slots[i].key, key)
      invariant forall i :: hi <= i < |slots| ==> !Less(slots[i].key, key)
    {
      var mid := (lo + hi) / 2;
      var k := SlotAt(data, mid).key;
      if CmpKey(k, key) < 0 {
        BelowTransfers(slots, mid, key);
        lo := mid + 1;
      } else {
        AboveTransfers(slots, mid, key);
        hi := mid;
      }
    }
    return lo;
  }

  lemma BelowTransfers(slots: seq<Slot>, m: nat, key: Key)
    requires SortedSlots(slots) && m < |slots| && Less(slots[m].key, key)
    ensures forall i :: 0 <= i <= m ==> Less(slots[i].key, key)
  {
    forall i | 0 <= i < m ensures Less(slots[i].key, key) {
      KeyOrder(slots[i].key, slots[m].key, key);
    }
  }

  lemma AboveTransfers(slots: seq<Slot>, m: nat, key: Key)
    requires SortedSlots(slots) && m < |slots| && !Less(slots[m].key, key)
    ensures forall i :: m <= i < |slots| ==> !Less(slots[i].key, key)
    ensures forall i :: m < i < |slots| ==> slots[i].key != key
  {
    forall i | m < i < |slots| ensures !Less(slots[i].key, key) && slots[i].key != key {
      KeyOrder(slots[m].key, slots[i].key, key);
    }
  }

  /** The slot with exactly `key`, or -1 if there is none. */
  method LeafFind(data: seq<byte>, key: Key, ghost slots: seq<Slot>) returns (r: int)
    requires Describes(data, slots) && SortedSlots(slots)
    ensures r >= 0 ==> r < |slots| && slots[r].key == key
    ensures r < 0 ==> r == -1 && forall i :: 0 <= i < |slots| ==> slots[i].key != key
  {
    hide CmpKey, SlotOf;
    var lo, hi := 0, NItems(data);
    while lo < hi
      invariant 0 <= lo <= hi <= |slots|
      invariant forall i :: 0 <= i < lo ==> slots[i].key != key
      invariant forall i :: hi <= i < |slots| ==> slots[i].key != key
    {
      var mid := (lo + hi) / 2;
      var c := CmpKey(SlotAt(data, mid).key, key);
      if c == 0 {
        return mid;
      } else if c < 0 {
        BelowDiffers(slots, mid, key);
        lo := mid + 1;
      } else {
        AboveTransfers(slots, mid, key);
        hi := mid;
      }
    }
    return -1;
  }

  lemma BelowDiffers(slots: seq<Slot>, m: nat, key: Key)
    requires SortedSlots(slots) && m < |slots| && Less(slots[m].key, key)
    ensures forall i :: 0 <= i <= m ==> slots[i].key != key
  {
    BelowTransfers(slots, m, key);
  }

  /** A new offset stored in descriptor i. */
  lemma OffsetStored(data: seq<byte>, i: nat, v: nat, n: nat)
    requires i < n && DescAt(n) <= |data| && v < 0x1_0000_0000
    ensures var r := Splice(data, DescAt(i) + 17, Put32(v));
            && SlotAt(r, i) == SlotAt(data, i).(off := v)
            && (forall k :: 0 <= k < n && k != i ==> SlotAt(r, k) == SlotAt(data, k))
            && (forall p :: 0 <= p < |r| && (p < 101 || DescAt(n) <= p) ==> r[p] == data[p])
  {
    var t := Put32(v);
    hide Put32, SlotOf;
    var r := Splice(data, DescAt(i) + 17, t);
    forall k | 0 <= k < n && k != i ensures SlotAt(r, k) == SlotAt(data, k) {
      assert Desc(r, k) == Desc(data, k);
    }
    OffsetField(Desc(data, i), t, v);
    assert Desc(r, i) == Splice(Desc(data, i), 17, t);
  }

  lemma OffsetField(d: seq<byte>, t: seq<byte>, v: nat)
    requires |d| == 25 && |t| == 4 && Le32(t, 0) == v
    ensures SlotOf(Splice(d, 17, t)) == SlotOf(d).(off := v)
  {
    var r := Splice(d, 17, t);
    SplicedLe32(d, 17, t);
    OutsideLe32(d, 17, t, 21);
    assert r[0..8] == d[0..8] && r[9..17] == d[9..17];
    SameLe64(r, 0, d, 0);
    SameLe64(r, 9, d, 9);
  }

  /** Offsets of the slots before number i are adjusted for the removal of slot idx. */
  ghost predicate Adjusted(before: seq<byte>, now: seq<byte>, slots: seq<Slot>, idx: nat, i: nat) {
    && |now| == |before| && idx < |slots| && DescAt(|slots|) <= |now|
    && (forall k :: 0 <= k < |slots| ==> SlotAt(now, k) == if k < i && k != idx then Moved(slots[k], slots[idx]) else slots[k])
    && (forall p :: 0 <= p < |now| && (p < 101 || DescAt(|slots|) <= p) ==> now[p] == before[p])
  }

  lemma AdjustStep(before: seq<byte>, now: seq<byte>, slots: seq<Slot>, idx: nat, i: nat, ns: nat)
    requires Adjusted(before, now, slots, idx, i) && i < |slots| && Tidy(slots, ns)
    ensures DescAt(i) + 25 <= |now| && SlotAt(now, i) == slots[i]
    ensures i == idx || slots[i].off >= slots[idx].off ==> Adjusted(before, now, slots, idx, i + 1)
    ensures slots[i].off + slots[idx].size < 0x1_0000_0000 || slots[i].off >= slots[idx].off
    ensures i != idx && slots[i].off < slots[idx].off ==>
      Adjusted(before, Splice(now, DescAt(i) + 17, Put32(slots[i].off + slots[idx].size)), slots, idx, i + 1)
  {
    hide Put32, SlotAt, Sum, Overlap;
    if i != idx && slots[i].off < slots[idx].off {
      OffsetStored(now, i, slots[i].off + slots[idx].size, |slots|);
    }
  }

  /** The data below the removed item moves up over it. */
  function DataMoved(s: seq<byte>, start: nat, gone: Slot): (r: seq<byte>)
    requires start + gone.size <= |s| && 101 + gone.off + gone.size <= |s|
    ensures |r| == |s|
  {
    if 101 + gone.off > start then Splice(s, start + gone.size, s[start..101 + gone.off]) else s
  }

  /** The descriptors behind idx move down, the last one is cleared, and the count drops. */
  function DescRemoved(s: seq<byte>, n: nat, idx: nat): (r: seq<byte>)
    requires idx < n && DescAt(n) <= |s|
    ensures |r| == |s|
  {
    var shifted := if idx < n - 1 then Splice(s, DescAt(idx), s[DescAt(idx + 1)..DescAt(n)]) else s;
    Splice(Splice(shifted, DescAt(n - 1), Zeros(25)), 96, Put32(n - 1))
  }

  lemma DescRemovedSlots(s: seq<byte>, n: nat, idx: nat)
    requires idx < n && DescAt(n) <= |s| && n < 0x1_0000_0000
    ensures var r := DescRemoved(s, n, idx);
            && NItems(r) == n - 1 && r[100] == s[100]
            && (forall k :: 0 <= k < n - 1 ==> SlotAt(r, k) == SlotAt(s, if k < idx then k else k + 1))
            && (forall p :: DescAt(n) <= p < |s| ==> r[p] == s[p])
  {
    hide Put32, SlotOf, Le32;
    var shifted := if idx < n - 1 then Splice(s, DescAt(idx), s[DescAt(idx + 1)..DescAt(n)]) else s;
    var cleared := Splice(shifted, DescAt(n - 1), Zeros(25));
    var r := DescRemoved(s, n, idx);
    SplicedLe32(cleared, 96, Put32(n - 1));
    forall k | 0 <= k < n - 1 ensures SlotAt(r, k) == SlotAt(s, if k < idx then k else k + 1) {
      assert Desc(r, k) == Desc(shifted, k);
      ShiftedDown(s, n, idx, k);
    }
  }

  lemma ShiftedDown(s: seq<byte>, n: nat, idx: nat, k: nat)
    requires idx < n && DescAt(n) <= |s| && k < n - 1
    ensures var t := if idx < n - 1 then Splice(s, DescAt(idx), s[DescAt(idx + 1)..DescAt(n)]) else s;
            Desc(t, k) == Desc(s, if k < idx then k else k + 1)
  {
    var t := if idx < n - 1 then Splice(s, DescAt(idx), s[DescAt(idx + 1)..DescAt(n)]) else s;
    if k < idx {
      assert Desc(t, k) == Desc(s, k);
    } else {
      assert Desc(t, k) == Desc(s, k + 1);
    }
  }

  /** Every other item keeps its bytes. */
  lemma ValueMoved(s: seq<byte>, start: nat, gone: Slot, x: Slot)
    requires start + gone.size <= |s| && 101 + gone.off + gone.size <= |s| && 101 + x.off + x.size <= |s|
    requires !Overlap(x, gone) && (x.size > 0 ==> start <= 101 + x.off)
    ensures var m := Moved(x, gone); 101 + m.off + m.size <= |s| && Value(DataMoved(s, start, gone), m) == Value(s, x)
  {
    var m, r := Moved(x, gone), DataMoved(s, start, gone);
    assert 101 + m.off + m.size <= |s|;
    var u, w := Value(r, m), Value(s, x);
    forall q | 0 <= q < x.size ensures u[q] == w[q] {
      assert u[q] == r[101 + m.off + q] == s[101 + x.off + q] == w[q];
    }
    assert u == w;
  }

  /** The item of slot x is now at slot m. */
  ghost predicate ItemKept(before: seq<byte>, after: seq<byte>, x: Slot, m: Slot) {
    && 101 + m.off + m.size <= |after| && 101 + x.off + x.size <= |before|
    && m.key == x.key && Value(after, m) == Value(before, x)
  }

  function From(k: nat, idx: nat): nat {
    if k < idx then k else k + 1
  }

  /** What deletion leaves of a leaf. */
  lemma DeletedLeaf(before: seq<byte>, now: seq<byte>, slots: seq<Slot>, idx: nat, ns: nat)
    requires Holds(before, slots, ns) && Adjusted(before, now, slots, idx, |slots|)
    ensures DescAt(|slots|) <= ns - Sum(slots) && ns - Sum(slots) + slots[idx].size <= ns
    ensures 101 + slots[idx].off + slots[idx].size <= ns
    ensures var r := DescRemoved(DataMoved(now, ns - Sum(slots), slots[idx]), |slots|, idx);
            && Holds(r, Drop(slots, idx), ns)
            && forall k :: 0 <= k < |slots| - 1 ==> ItemKept(before, r, slots[From(k, idx)], Drop(slots, idx)[k])
  {
    hide Overlap, SlotOf, Sum, Put32, DescRemoved, DataMoved, Moved, Value, Desc, Le32;
    var n, gone, start := |slots|, slots[idx], ns - Sum(slots);
    DropTidy(slots, idx, ns);
    SumHas(slots, idx);
    var s, to := DataMoved(now, start, gone), Drop(slots, idx);
    MovedFrame(now, start, gone, n);
    DescRemovedSlots(s, n, idx);
    var r := DescRemoved(s, n, idx);
    forall k | 0 <= k < n - 1 ensures SlotAt(r, k) == to[k] && ItemKept(before, r, slots[From(k, idx)], to[k]) {
      SlotMoved(now, s, start, n, From(k, idx));
      DeletedItem(before, now, slots, idx, ns, k, r);
    }
  }

  lemma DeletedItem(before: seq<byte>, now: seq<byte>, slots: seq<Slot>, idx: nat, ns: nat, k: nat, r: seq<byte>)
    requires Tidy(slots, ns) && idx < |slots| && k < |slots| - 1 && |before| == |now| == |r| == ns
    requires slots[idx].size <= Sum(slots) && 101 + slots[idx].off + slots[idx].size <= ns
    requires forall p :: DescAt(|slots|) <= p < ns ==> now[p] == before[p]
    requires forall p :: DescAt(|slots|) <= p < ns ==> r[p] == DataMoved(now, ns - Sum(slots), slots[idx])[p]
    ensures ItemKept(before, r, slots[From(k, idx)], Drop(slots, idx)[k])
  {
    hide *;
    FromIs(k, idx, |slots|);
    SlotInside(slots, ns, From(k, idx));
    var gone, start, x := slots[idx], ns - Sum(slots), slots[From(k, idx)];
    var m := Moved(x, gone);
    PairFree(slots, ns, From(k, idx), idx);
    ValueMoved(now, start, gone, x);
    DropTidy(slots, idx, ns);
    DropIn(slots, idx, ns, k);
    DescAtIs();
    SameValue(r, DataMoved(now, start, gone), m, start);
    SameValue(now, before, x, start);
    MovedKey(x, gone);
    ItemStays(before, r, x, m);
  }

  lemma FromIs(k: nat, idx: nat, n: nat)
    requires idx < n && k < n - 1
    ensures From(k, idx) == (if k < idx then k else k + 1) < n && From(k, idx) != idx
  {
  }

  lemma SlotInside(slots: seq<Slot>, ns: nat, i: nat)
    requires Tidy(slots, ns) && i < |slots|
    ensures 101 + slots[i].off + slots[i].size <= ns && (slots[i].size > 0 ==> ns - Sum(slots) <= 101 + slots[i].off)
    ensures 101 + 25 * |slots| + Sum(slots) <= ns
  {
    hide Sum, Overlap;
  }

  lemma ItemStays(before: seq<byte>, after: seq<byte>, x: Slot, m: Slot)
    requires 101 + m.off + m.size <= |after| && 101 + x.off + x.size <= |before| && m.key == x.key && Value(after, m) == Value(before, x)
    ensures ItemKept(before, after, x, m)
  {
  }

  lemma MovedKey(x: Slot, gone: Slot)
    ensures Moved(x, gone).key == x.key
  {
  }

  lemma SumHas(slots: seq<Slot>, i: nat)
    requires i < |slots|
    ensures slots[i].size <= Sum(slots)
  {
    SumSplit(slots, i);
  }

  lemma DropIn(slots: seq<Slot>, idx: nat, ns: nat, k: nat)
    requires idx < |slots| && k < |slots| - 1 && Tidy(Drop(slots, idx), ns)
    ensures var m := Moved(slots[if k < idx then k else k + 1], slots[idx]);
            && 101 + m.off + m.size <= ns && (m.size > 0 ==> ns - (Sum(slots) - slots[idx].size) <= 101 + m.off)
            && Drop(slots, idx)[k] == m
  {
    DropSum(slots, idx);
    assert Drop(slots, idx)[k] == Moved(slots[if k < idx then k else k + 1], slots[idx]);
  }

  lemma SameValue(a: seq<byte>, b: seq<byte>, s: Slot, from: nat)
    requires |a| == |b| && 101 + s.off + s.size <= |a| && (s.size > 0 ==> from <= 101 + s.off)
    requires forall p :: from <= p < |a| ==> a[p] == b[p]
    ensures Value(a, s) == Value(b, s)
  {
  }

  lemma MovedFrame(s: seq<byte>, start: nat, gone: Slot, n: nat)
    requires start + gone.size <= |s| && 101 + gone.off + gone.size <= |s| && DescAt(n) <= start
    ensures var r := DataMoved(s, start, gone); |r| == |s| && forall p :: 0 <= p < start ==> r[p] == s[p]
  {
  }

  lemma SlotMoved(s: seq<byte>, r: seq<byte>, start: nat, n: nat, k: nat)
    requires |r| == |s| && DescAt(n) <= start <= |s| && k < n && forall p :: 0 <= p < start ==> r[p] == s[p]
    ensures SlotAt(r, k) == SlotAt(s, k)
  {
    assert Desc(r, k) == Desc(s, k);
  }

  ghost function Removed<T>(s: seq<T>, i: nat): seq<T>
    requires i < |s|
  {
    s[..i] + s[i + 1..]
  }

  lemma DeletedContents(before: seq<byte>, after: seq<byte>, slots: seq<Slot>, idx: nat, ns: nat)
    requires Holds(before, slots, ns) && idx < |slots| && Holds(after, Drop(slots, idx), ns)
    requires forall k :: 0 <= k < |slots| - 1 ==> ItemKept(before, after, slots[From(k, idx)], Drop(slots, idx)[k])
    ensures Contents(after, Drop(slots, idx)) == Removed(Contents(before, slots), idx)
  {
    hide Value, Overlap, Sum, SlotAt, Moved;
    var a, b := Contents(after, Drop(slots, idx)), Contents(before, slots);
    forall k | 0 <= k < |slots| - 1 ensures a[k] == Removed(b, idx)[k] {
      assert ItemKept(before, after, slots[From(k, idx)], Drop(slots, idx)[k]);
      assert Removed(b, idx)[k] == b[From(k, idx)];
    }
  }

  /** Offsets of the data below the removed item, which is about to move up. */
  method AdjustOffsets(data: array<byte>, ns: nat, idx: nat, ghost slots: seq<Slot>)
    requires Holds(data[..], slots, ns) && idx < |slots|
    modifies data
    ensures Adjusted(old(data[..]), data[..], slots, idx, |slots|)
  {
    hide *;
    ghost var before := data[..];
    HoldsInside(before, slots, ns);
    var n := NItems(data[..]);
    DescribesAt(data[..], slots, idx);
    var gone := SlotAt(data[..], idx);
    AdjustStart(before, slots, idx, ns);
    for i := 0 to n
      invariant Adjusted(before, data[..], slots, idx, i) && data.Length == ns
    {
      AdjustStep(before, data[..], slots, idx, i, ns);
      if i != idx {
        var rel := SlotAt(data[..], i).off;
        if rel < gone.off {
          StoreBytes(data, DescAt(i) + 17, Put32(rel + gone.size));
        }
      }
    }
  }

  /** Removes item idx in place, closing the gap in the data area. */
  method LeafDelete(data: array<byte>, ns: nat, idx: int, ghost slots: seq<Slot>)
    requires Holds(data[..], slots, ns)
    modifies data
    ensures !(0 <= idx < |slots|) ==> data[..] == old(data[..])
    ensures 0 <= idx < |slots| ==> Holds(data[..], Drop(slots, idx), ns)
    ensures 0 <= idx < |slots| ==> Contents(data[..], Drop(slots, idx)) == Removed(Contents(old(data[..]), slots), idx)
  {
    hide *;
    ghost var before := data[..];
    HoldsInside(before, slots, ns);
    DescAtIs();
    var n := NItems(data[..]);
    if idx < 0 || idx >= n {
      return;
    }
    var gone := SlotAt(data[..], idx);
    AdjustOffsets(data, ns, idx, slots);
    DeletedLeaf(before, data[..], slots, idx, ns);
    DeletedBytes(data[..], ns - Sum(slots), gone, n, idx);
    AdjustedSizes(before, data[..], slots, idx);
    var start := LeafDataStart(data[..], ns, AdjustedSlots(slots, idx));
    if 101 + gone.off > start {
      StoreBytes(data, start + gone.size, data[start..101 + gone.off]);
    }
    if idx < n - 1 {
      StoreBytes(data, DescAt(idx), data[DescAt(idx + 1)..DescAt(n)]);
    }
    StoreBytes(data, DescAt(n - 1), Zeros(25));
    StoreBytes(data, 96, Put32(n - 1));
    DeletedContents(before, data[..], slots, idx, ns);
  }

  lemma DescAtIs()
    ensures forall i: nat {:trigger DescAt(i)} :: DescAt(i) == 101 + 25 * i
  {
  }

  lemma DescribesAt(data: seq<byte>, slots: seq<Slot>, i: nat)
    requires Describes(data, slots) && i < |slots|
    ensures DescAt(i) + 25 <= |data| && SlotAt(data, i) == slots[i]
  {
  }

  lemma AdjustStart(before: seq<byte>, slots: seq<Slot>, idx: nat, ns: nat)
    requires Holds(before, slots, ns) && idx < |slots|
    ensures Adjusted(before, before, slots, idx, 0)
  {
  }

  ghost function AdjustedSlots(slots: seq<Slot>, idx: nat): (r: seq<Slot>)
    requires idx < |slots|
    ensures |r| == |slots| && forall k :: 0 <= k < |r| ==> r[k] == if k != idx then Moved(slots[k], slots[idx]) else slots[k]
  {
    seq(|slots|, k requires 0 <= k < |slots| => if k != idx then Moved(slots[k], slots[idx]) else slots[k])
  }

  lemma AdjustedSizes(before: seq<byte>, now: seq<byte>, slots: seq<Slot>, idx: nat)
    requires Describes(before, slots) && Adjusted(before, now, slots, idx, |slots|)
    ensures Describes(now, AdjustedSlots(slots, idx)) && Sum(AdjustedSlots(slots, idx)) == Sum(slots)
  {
    SumSameSizes(AdjustedSlots(slots, idx), slots);
    hide SlotAt, Sum, Moved, Le32;
    SameCount(before, now);
  }

  lemma SameCount(a: seq<byte>, b: seq<byte>)
    requires |a| == |b| >= 101 && forall p :: 0 <= p < 101 ==> a[p] == b[p]
    ensures Le32(a, 96) == Le32(b, 96)
  {
  }

  lemma DeletedBytes(s: seq<byte>, start: nat, gone: Slot, n: nat, idx: nat)
    requires start + gone.size <= |s| && 101 + gone.off + gone.size <= |s| && idx < n && DescAt(n) <= |s|
    ensures var m := if 101 + gone.off > start then Splice(s, start + gone.size, s[start..101 + gone.off]) else s;
            var d := if idx < n - 1 then Splice(m, DescAt(idx), m[DescAt(idx + 1)..DescAt(n)]) else m;
            DescRemoved(DataMoved(s, start, gone), n, idx) == Splice(Splice(d, DescAt(n - 1), Zeros(25)), 96, Put32(n - 1))
  {
    hide Splice, Zeros, Put32;
  }
}
