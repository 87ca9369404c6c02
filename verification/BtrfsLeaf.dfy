/** Btrfs keys and leaf nodes: item descriptors growing up, item data growing down. */
module BtrfsLeaf {
  import opened Bytes

  datatype Key = Key(objectID: nat, itemType: nat, offset: nat)

  predicate KeyOk(k: Key) {
    k.objectID < 0x1_0000_0000_0000_0000 && k.itemType < 256 && k.offset < 0x1_0000_0000_0000_0000
  }

  function DecodeKey(s: seq<byte>, off: nat): (k: Key)
    requires off + 17 <= |s|
    ensures KeyOk(k)
  {
    Key(Le64(s, off), s[off + 8], Le64(s, off + 9))
  }

  function EncodeKey(k: Key): (s: seq<byte>)
    requires KeyOk(k)
    ensures |s| == 17
  {
    Put64(k.objectID) + [k.itemType] + Put64(k.offset)
  }

  lemma SameLe64(a: seq<byte>, i: nat, b: seq<byte>, j: nat)
    requires i + 8 <= |a| && j + 8 <= |b| && a[i..i + 8] == b[j..j + 8]
    ensures Le64(a, i) == Le64(b, j)
  {
    QuadAt(a, i, a[i..i + 8]);
    QuadAt(b, j, b[j..j + 8]);
  }

  /** A key read back is the key that was written. */
  lemma KeyRoundTrip(k: Key, rest: seq<byte>)
    requires KeyOk(k)
    ensures DecodeKey(EncodeKey(k) + rest, 0) == k
  {
    hide Le64, Put64;
    var s := EncodeKey(k) + rest;
    assert s[0..8] == Put64(k.objectID)[0..8];
    assert s[9..17] == Put64(k.offset)[0..8];
    SameLe64(s, 0, Put64(k.objectID), 0);
    SameLe64(s, 9, Put64(k.offset), 0);
  }

  /** The order of keys: object, then item type, then offset. */
  predicate Less(a: Key, b: Key) {
    a.objectID < b.objectID
    || (a.objectID == b.objectID && a.itemType < b.itemType)
    || (a.objectID == b.objectID && a.itemType == b.itemType && a.offset < b.offset)
  }

  function CmpKey(a: Key, b: Key): (c: int)
    ensures c < 0 <==> Less(a, b)
    ensures c == 0 <==> a == b
    ensures c > 0 <==> Less(b, a)
  {
    if a.objectID != b.objectID then (if a.objectID < b.objectID then -1 else 1)
    else if a.itemType != b.itemType then (if a.itemType < b.itemType then -1 else 1)
    else if a.offset != b.offset then (if a.offset < b.offset then -1 else 1)
    else 0
  }

  /** A key as one number of 136 bits: the object in the top 64, the type in 8, the offset in the low 64. */
  function Num(k: Key): nat {
    k.objectID * 0x1_00_0000_0000_0000_0000 + k.itemType * 0x1_0000_0000_0000_0000 + k.offset
  }

  /** Keys are ordered as these numbers are. */
  lemma KeyNumbers(a: Key, b: Key)
    requires KeyOk(a) && KeyOk(b)
    ensures Less(a, b) <==> Num(a) < Num(b)
    ensures a == b <==> Num(a) == Num(b)
  {
  }

  /** Keys are totally ordered. */
  lemma KeyOrder(a: Key, b: Key, c: Key)
    ensures Less(a, b) && Less(b, c) ==> Less(a, c)
    ensures Less(a, b) || a == b || Less(b, a)
    ensures !(Less(a, b) && Less(b, a)) && (Less(a, b) <==> CmpKey(b, a) > 0)
  {
  }

  /** One item descriptor. */
  datatype Slot = Slot(key: Key, off: nat, size: nat)

  datatype Item = Item(key: Key, value: seq<byte>)

  function Sum(slots: seq<Slot>): nat {
    if slots == [] then 0 else Sum(slots[..|slots| - 1]) + slots[|slots| - 1].size
  }

  lemma {:induction false} SumAppend(a: seq<Slot>, b: seq<Slot>)
    ensures Sum(a + b) == Sum(a) + Sum(b)
  {
    if b == [] {
      assert a + b == a;
    } else {
      var k := |b| - 1;
      SumAppend(a, b[..k]);
      assert (a + b)[..|a + b| - 1] == a + b[..k];
    }
  }

  lemma {:induction false} SumSameSizes(a: seq<Slot>, b: seq<Slot>)
    requires |a| == |b| && forall i :: 0 <= i < |a| ==> a[i].size == b[i].size
    ensures Sum(a) == Sum(b)
  {
    if a != [] { SumSameSizes(a[..|a| - 1], b[..|b| - 1]); }
  }

  lemma SumOne(s: Slot)
    ensures Sum([s]) == s.size
  {
    assert [s][..0] == [];
  }

  lemma SumSplit(slots: seq<Slot>, i: nat)
    requires i < |slots|
    ensures Sum(slots) == Sum(slots[..i]) + slots[i].size + Sum(slots[i + 1..])
  {
    hide Sum;
    assert slots == slots[..i] + ([slots[i]] + slots[i + 1..]);
    SumAppend(slots[..i], [slots[i]] + slots[i + 1..]);
    SumAppend([slots[i]], slots[i + 1..]);
    SumOne(slots[i]);
  }

  ghost predicate Overlap(a: Slot, b: Slot) {
    a.size > 0 && b.size > 0 && a.off < b.off + b.size && b.off < a.off + a.size
  }

  /** Descriptors and data do not meet, the data lies in the last Sum(slots) bytes, and no two items share a byte. */
  ghost predicate Tidy(slots: seq<Slot>, ns: nat) {
    && 101 + 25 * |slots| + Sum(slots) <= ns < 0x1_0000_0000
    && (forall i :: 0 <= i < |slots| ==> 101 + slots[i].off + slots[i].size <= ns)
    && (forall i :: 0 <= i < |slots| && slots[i].size > 0 ==> ns - Sum(slots) <= 101 + slots[i].off)
    && (forall i, j :: 0 <= i < j < |slots| ==> !Overlap(slots[i], slots[j]))
  }

  /** Byte x of the data area belongs to the item of slot s. */
  predicate Within(s: Slot, x: int) {
    s.off <= x < s.off + s.size
  }

  ghost function Interval(a: int, n: nat): (r: set<int>)
    ensures |r| == n && forall x :: x in r <==> a <= x < a + n
  {
    if n == 0 then {} else Interval(a, n - 1) + {a + (n - 1)}
  }

  ghost function Covered(slots: seq<Slot>): (r: set<int>)
    ensures forall x :: x in r ==> exists i :: 0 <= i < |slots| && Within(slots[i], x)
  {
    if slots == [] then {}
    else
      var k := |slots| - 1;
      var rest, own := Covered(slots[..k]), Interval(slots[k].off, slots[k].size);
      CoveredStep(slots, rest, own);
      rest + own
  }

  lemma CoveredStep(slots: seq<Slot>, rest: set<int>, own: set<int>)
    requires slots != [] && var k := |slots| - 1;
      && (forall x :: x in rest ==> exists i :: 0 <= i < k && Within(slots[..k][i], x))
      && (forall x :: x in own ==> Within(slots[k], x))
    ensures forall x :: x in rest + own ==> exists i :: 0 <= i < |slots| && Within(slots[i], x)
  {
    hide Within;
    var k := |slots| - 1;
    forall x | x in rest + own ensures exists i :: 0 <= i < |slots| && Within(slots[i], x) {
      if x in rest {
        var i :| 0 <= i < k && Within(slots[..k][i], x);
        assert Within(slots[i], x);
      }
    }
  }

  lemma {:induction false} CoveredCard(slots: seq<Slot>)
    requires forall i, j :: 0 <= i < j < |slots| ==> !Overlap(slots[i], slots[j])
    ensures |Covered(slots)| == Sum(slots)
  {
    if slots != [] {
      var k := |slots| - 1;
      CoveredCard(slots[..k]);
      hide Overlap, Within, Interval;
      LastApart(slots);
      JointCard(Covered(slots[..k]), Interval(slots[k].off, slots[k].size));
    }
  }

  lemma LastApart(slots: seq<Slot>)
    requires slots != [] && forall i, j :: 0 <= i < j < |slots| ==> !Overlap(slots[i], slots[j])
    ensures var k := |slots| - 1; Covered(slots[..k]) * Interval(slots[k].off, slots[k].size) == {}
  {
    hide Overlap, Within, Covered;
    var k := |slots| - 1;
    forall x | x in Covered(slots[..k]) ensures x !in Interval(slots[k].off, slots[k].size) {
      var i :| 0 <= i < |slots[..k]| && Within(slots[..k][i], x);
      ApartBytes(slots[i], slots[k], x);
    }
  }

  lemma JointCard(a: set<int>, b: set<int>)
    requires a * b == {}
    ensures |a + b| == |a| + |b|
  {
  }

  lemma ApartBytes(a: Slot, b: Slot, x: int)
    requires !Overlap(a, b) && Within(a, x)
    ensures !Within(b, x) && !(b.off <= x < b.off + b.size)
  {
  }

  /** The data area has no gap: every byte from the lowest item to the end of the node belongs to some item. */
  lemma NoGap(slots: seq<Slot>, ns: nat, x: int)
    requires Tidy(slots, ns) && ns - Sum(slots) <= x < ns
    ensures exists i :: 0 <= i < |slots| && Within(slots[i], x - 101)
  {
    var low := ns - Sum(slots) - 101;
    var area, all := Interval(low, Sum(slots)), Covered(slots);
    CoveredCard(slots);
    forall y | y in all ensures y in area {
      var i :| 0 <= i < |slots| && Within(slots[i], y);
    }
    SameCard(all, area);
    assert x - 101 in all;
  }

  lemma SameCard(a: set<int>, b: set<int>)
    requires a <= b && |a| == |b|
    ensures a == b
  {
    assert b == a + (b - a);
  }

  /** The slots without number idx, the data below its data moved up. */
  ghost function Drop(slots: seq<Slot>, idx: nat): (r: seq<Slot>)
    requires idx < |slots|
    ensures |r| == |slots| - 1
    ensures forall j :: 0 <= j < |r| ==> r[j] == Moved(slots[if j < idx then j else j + 1], slots[idx])
  {
    seq(|slots| - 1, j requires 0 <= j < |slots| - 1 => Moved(slots[if j < idx then j else j + 1], slots[idx]))
  }

  function Moved(s: Slot, removed: Slot): Slot {
    if s.off < removed.off then s.(off := s.off + removed.size) else s
  }

  lemma DropSum(slots: seq<Slot>, idx: nat)
    requires idx < |slots|
    ensures Sum(Drop(slots, idx)) == Sum(slots) - slots[idx].size
  {
    hide Sum;
    SumSplit(slots, idx);
    SumAppend(slots[..idx], slots[idx + 1..]);
    SumSameSizes(Drop(slots, idx), slots[..idx] + slots[idx + 1..]);
  }

  lemma PairFree(slots: seq<Slot>, ns: nat, i: nat, j: nat)
    requires Tidy(slots, ns) && i < |slots| && j < |slots| && i != j
    ensures !Overlap(slots[i], slots[j])
  {
    if j < i { assert !Overlap(slots[j], slots[i]); }
  }

  lemma MovedInside(s: Slot, gone: Slot, sum: nat, ns: nat)
    requires !Overlap(s, gone) && gone.size <= sum <= ns && 101 + s.off + s.size <= ns && 101 + gone.off + gone.size <= ns
    requires (s.size > 0 ==> ns - sum <= 101 + s.off) && (gone.size > 0 ==> ns - sum <= 101 + gone.off)
    ensures var m := Moved(s, gone);
            101 + m.off + m.size <= ns && (m.size > 0 ==> ns - (sum - gone.size) <= 101 + m.off)
  {
  }

  lemma MovedApart(a: Slot, b: Slot, gone: Slot)
    requires !Overlap(a, b) && !Overlap(a, gone) && !Overlap(b, gone)
    ensures !Overlap(Moved(a, gone), Moved(b, gone))
  {
  }

  lemma DropTidy(slots: seq<Slot>, idx: nat, ns: nat)
    requires Tidy(slots, ns) && idx < |slots|
    ensures Tidy(Drop(slots, idx), ns)
  {
    hide Overlap, Moved, Sum;
    var r, gone := Drop(slots, idx), slots[idx];
    DropSum(slots, idx);
    forall j | 0 <= j < |r|
      ensures 101 + r[j].off + r[j].size <= ns && (r[j].size > 0 ==> ns - Sum(r) <= 101 + r[j].off)
    {
      var j' := if j < idx then j else j + 1;
      PairFree(slots, ns, j', idx);
      MovedInside(slots[j'], gone, Sum(slots), ns);
    }
    forall i, j | 0 <= i < j < |r| ensures !Overlap(r[i], r[j]) {
      var i', j' := if i < idx then i else i + 1, if j < idx then j else j + 1;
      PairFree(slots, ns, i', j');
      PairFree(slots, ns, i', idx);
      PairFree(slots, ns, j', idx);
      MovedApart(slots[i'], slots[j'], gone);
    }
  }

  /** The slots with a new one at p. */
  ghost function PutAt(slots: seq<Slot>, p: nat, s: Slot): (r: seq<Slot>)
    requires p <= |slots|
    ensures |r| == |slots| + 1 && r[p] == s
    ensures forall i :: 0 <= i < |r| && i != p ==> r[i] == slots[if i < p then i else i - 1]
  {
    slots[..p] + [s] + slots[p..]
  }

  lemma PutAtSum(slots: seq<Slot>, p: nat, s: Slot)
    requires p <= |slots|
    ensures Sum(PutAt(slots, p, s)) == Sum(slots) + s.size
  {
    hide Sum, PutAt;
    PutAtParts(slots, p, s);
    SumAppend(slots[..p], [s] + slots[p..]);
    SumAppend([s], slots[p..]);
    SumOne(s);
    SumAppend(slots[..p], slots[p..]);
  }

  lemma PutAtParts(slots: seq<Slot>, p: nat, s: Slot)
    requires p <= |slots|
    ensures PutAt(slots, p, s) == slots[..p] + ([s] + slots[p..]) && slots == slots[..p] + slots[p..]
  {
  }

  /** A new slot at p, its data right below the data area. */
  ghost function Put(slots: seq<Slot>, p: nat, key: Key, size: nat, ns: nat): seq<Slot>
    requires p <= |slots| && 101 + Sum(slots) + size <= ns
  {
    PutAt(slots, p, Slot(key, ns - Sum(slots) - size - 101, size))
  }

  lemma PutTidy(slots: seq<Slot>, p: nat, key: Key, size: nat, ns: nat)
    requires Tidy(slots, ns) && p <= |slots| && 101 + 25 * (|slots| + 1) + Sum(slots) + size <= ns
    ensures Tidy(Put(slots, p, key, size, ns), ns)
  {
    hide *;
    var s := Slot(key, ns - Sum(slots) - size - 101, size);
    PutAtSum(slots, p, s);
    var r := PutAt(slots, p, s);
    PutIs(slots, p, key, size, ns);
    forall i, j | 0 <= i < j < |r| ensures !Overlap(r[i], r[j]) {
      PutApart(slots, p, s, ns, i, j);
    }
    forall i | 0 <= i < |r| ensures 101 + r[i].off + r[i].size <= ns && (r[i].size > 0 ==> ns - Sum(r) <= 101 + r[i].off) {
      PutInside(slots, p, s, ns, i);
    }
    MakesTidy(slots, r, ns);
  }

  lemma PutIs(slots: seq<Slot>, p: nat, key: Key, size: nat, ns: nat)
    requires p <= |slots| && 101 + Sum(slots) + size <= ns
    ensures Put(slots, p, key, size, ns) == PutAt(slots, p, Slot(key, ns - Sum(slots) - size - 101, size))
  {
    hide Sum, PutAt;
  }

  lemma MakesTidy(slots: seq<Slot>, r: seq<Slot>, ns: nat)
    requires Tidy(slots, ns) && 101 + 25 * |r| + Sum(r) <= ns
    requires forall i, j :: 0 <= i < j < |r| ==> !Overlap(r[i], r[j])
    requires forall i :: 0 <= i < |r| ==> 101 + r[i].off + r[i].size <= ns && (r[i].size > 0 ==> ns - Sum(r) <= 101 + r[i].off)
    ensures Tidy(r, ns)
  {
    hide Overlap, Sum;
  }

  lemma PutApart(slots: seq<Slot>, p: nat, s: Slot, ns: nat, i: nat, j: nat)
    requires Tidy(slots, ns) && p <= |slots| && 101 + s.off + s.size == ns - Sum(slots) && i < j <= |slots|
    ensures !Overlap(PutAt(slots, p, s)[i], PutAt(slots, p, s)[j])
  {
    hide Overlap, Sum, PutAt;
    if i == p {
      BelowAll(slots[j - 1], s);
    } else if j == p {
      BelowAll(slots[i], s);
    } else {
      PairFree(slots, ns, if i < p then i else i - 1, if j < p then j else j - 1);
    }
  }

  lemma PutInside(slots: seq<Slot>, p: nat, s: Slot, ns: nat, i: nat)
    requires Tidy(slots, ns) && p <= |slots| && 101 + s.off + s.size == ns - Sum(slots) && i <= |slots|
    ensures var x := PutAt(slots, p, s)[i];
            101 + x.off + x.size <= ns && (x.size > 0 ==> ns - (Sum(slots) + s.size) <= 101 + x.off)
  {
    hide Overlap, Sum, PutAt;
    assert i != p ==> PutAt(slots, p, s)[i] == slots[if i < p then i else i - 1];
  }

  lemma BelowAll(s: Slot, low: Slot)
    requires s.size > 0 ==> low.off + low.size <= s.off
    ensures !Overlap(s, low) && !Overlap(low, s)
  {
  }
}
