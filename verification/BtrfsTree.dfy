/** Btrfs trees: their items, their order, and how they are stored in nodes. */
module BtrfsTree {
  import opened Wrappers
  import opened BtrfsLeaf
  import opened BtrfsNode

  /** A tree as its nodes describe it. */
  datatype Tree =
    | LeafNode(addr: nat, slots: seq<Slot>, items: seq<Item>)
    | Inner(addr: nat, level: nat, keys: seq<Key>, kids: seq<Tree>)

  function Level(t: Tree): nat {
    if t.LeafNode? then 0 else t.level
  }

  /** The items of a tree, from left to right. */
  function Items(t: Tree): seq<Item>
    decreases t
  {
    match t
    case LeafNode(_, _, items) => items
    case Inner(_, _, _, kids) => ItemsOf(kids)
  }

  function ItemsOf(kids: seq<Tree>): seq<Item>
    decreases kids
  {
    if kids == [] then [] else Items(kids[0]) + ItemsOf(kids[1..])
  }

  lemma {:induction false} ItemsAppend(a: seq<Tree>, b: seq<Tree>)
    ensures ItemsOf(a + b) == ItemsOf(a) + ItemsOf(b)
  {
    if a == [] {
      assert a + b == b;
    } else {
      assert (a + b)[0] == a[0] && (a + b)[1..] == a[1..] + b;
      ItemsAppend(a[1..], b);
    }
  }

  lemma ItemsSplit(kids: seq<Tree>, i: nat)
    requires i < |kids|
    ensures ItemsOf(kids) == ItemsOf(kids[..i]) + Items(kids[i]) + ItemsOf(kids[i + 1..])
    ensures ItemsOf(kids[..i + 1]) == ItemsOf(kids[..i]) + Items(kids[i])
  {
    hide *;
    CutAt(kids, i);
    Pieces(kids[..i], kids[i], kids[i + 1..]);
  }

  lemma CutAt<T>(s: seq<T>, i: nat)
    requires i < |s|
    ensures s == s[..i] + [s[i]] + s[i + 1..] && s[..i + 1] == s[..i] + [s[i]]
  {
  }

  lemma Pieces(a: seq<Tree>, t: Tree, b: seq<Tree>)
    ensures ItemsOf(a + [t] + b) == ItemsOf(a) + Items(t) + ItemsOf(b)
    ensures ItemsOf(a + [t]) == ItemsOf(a) + Items(t)
  {
    hide *;
    ItemsAppend(a, [t]);
    ItemsAppend(a + [t], b);
    OneKid(t);
  }

  lemma OneKid(t: Tree)
    ensures ItemsOf([t]) == Items(t)
  {
    assert [t][1..] == [] && Items(t) + [] == Items(t);
  }

  /** Every key of the items lies in [lo, hi). */
  ghost predicate Between(items: seq<Item>, lo: Key, hi: Option<Key>) {
    forall i :: 0 <= i < |items| ==> !Less(items[i].key, lo) && (hi.Some? ==> Less(items[i].key, hi.value))
  }

  ghost predicate SortedItems(items: seq<Item>) {
    forall i, j :: 0 <= i < j < |items| ==> Less(items[i].key, items[j].key)
  }

  ghost predicate SortedKeys(keys: seq<Key>) {
    forall i, j :: 0 <= i < j < |keys| ==> Less(keys[i], keys[j])
  }

  function NextKey(keys: seq<Key>, i: nat): Option<Key> {
    if i + 1 < |keys| then Some(keys[i + 1]) else None
  }

  /** Search order: leaves are sorted, and the items of child i lie from its key up to the next one. */
  ghost predicate Ordered(t: Tree)
    decreases t
  {
    match t
    case LeafNode(_, _, items) => SortedItems(items)
    case Inner(_, _, keys, kids) =>
      && |kids| >= 1 && |keys| == |kids| && SortedKeys(keys)
      && (forall i :: 0 <= i < |kids| ==> Ordered(kids[i]) && Between(Items(kids[i]), keys[i], NextKey(keys, i)))
  }

  lemma SortedJoin(a: seq<Item>, b: seq<Item>, m: Key)
    requires SortedItems(a) && SortedItems(b)
    requires (forall i :: 0 <= i < |a| ==> Less(a[i].key, m)) && (forall i :: 0 <= i < |b| ==> !Less(b[i].key, m))
    ensures SortedItems(a + b)
  {
    hide Less;
    var c := a + b;
    forall i, j | 0 <= i < j < |c| ensures Less(c[i].key, c[j].key) {
      if i < |a| <= j {
        AcrossOrder(c[i].key, m, c[j].key);
      }
    }
  }

  lemma AcrossOrder(x: Key, m: Key, y: Key)
    ensures Less(x, m) && !Less(y, m) ==> Less(x, y)
  {
  }

  ghost predicate AllBelow(items: seq<Item>, m: Key) {
    forall i :: 0 <= i < |items| ==> Less(items[i].key, m)
  }

  lemma {:induction false} PrefixSorted(keys: seq<Key>, kids: seq<Tree>, k: nat)
    requires |keys| == |kids| && k <= |kids| && SortedKeys(keys)
    requires forall i :: 0 <= i < |kids| ==> SortedItems(Items(kids[i])) && Between(Items(kids[i]), keys[i], NextKey(keys, i))
    ensures SortedItems(ItemsOf(kids[..k])) && (k < |kids| ==> AllBelow(ItemsOf(kids[..k]), keys[k]))
    decreases k
  {
    hide Less, ItemsOf, Items;
    if k == 0 {
      NoItems(kids);
    } else {
      PrefixSorted(keys, kids, k - 1);
      ItemsSplit(kids, k - 1);
      var a, b := ItemsOf(kids[..k - 1]), Items(kids[k - 1]);
      SortedJoin(a, b, keys[k - 1]);
      if k < |kids| {
        BelowNext(a, b, keys[k - 1], keys[k]);
      }
    }
  }

  lemma NoItems(kids: seq<Tree>)
    ensures ItemsOf(kids[..0]) == []
  {
  }

  lemma BelowNext(a: seq<Item>, b: seq<Item>, m: Key, n: Key)
    requires AllBelow(a, m) && Less(m, n) && AllBelow(b, n)
    ensures AllBelow(a + b, n)
  {
    hide Less;
    forall i | 0 <= i < |a + b| ensures Less((a + b)[i].key, n) {
      if i < |a| { KeyOrder(a[i].key, m, n); }
    }
  }

  /** A walk of a tree in search order meets strictly ascending keys. */
  lemma {:induction false} WalkAscends(t: Tree)
    requires Ordered(t)
    ensures SortedItems(Items(t))
    decreases t
  {
    if t.Inner? {
      forall i | 0 <= i < |t.kids| ensures SortedItems(Items(t.kids[i])) {
        WalkAscends(t.kids[i]);
      }
      PrefixSorted(t.keys, t.kids, |t.kids|);
      assert t.kids[..|t.kids|] == t.kids;
    }
  }

  ghost predicate HasKey(items: seq<Item>, key: Key) {
    exists i :: 0 <= i < |items| && items[i].key == key
  }

  /** The child a search descends to: the last one whose key is not above the wanted one. */
  ghost predicate Descends(keys: seq<Key>, key: Key, slot: int) {
    && -1 <= slot < |keys|
    && (forall i :: 0 <= i <= slot ==> CmpKey(keys[i], key) <= 0)
    && (forall i :: slot < i < |keys| ==> CmpKey(keys[i], key) > 0)
  }

  /** No other child has the key. */
  lemma OnlyThere(t: Tree, key: Key, slot: int, i: nat)
    requires t.Inner? && Ordered(t) && Descends(t.keys, key, slot) && i < |t.kids| && i != slot
    ensures !HasKey(Items(t.kids[i]), key)
  {
    hide CmpKey, Items, Ordered;
    OrderedKid(t, i);
    var items := Items(t.kids[i]);
    forall k | 0 <= k < |items| ensures items[k].key != key {
      if i < slot {
        NotUpThere(items[k].key, t.keys[i + 1], key);
      } else {
        NotDownThere(items[k].key, t.keys[i], key);
      }
    }
  }

  lemma OrderedKid(t: Tree, i: nat)
    requires t.Inner? && Ordered(t) && i < |t.kids|
    ensures |t.keys| == |t.kids| && SortedKeys(t.keys) && Ordered(t.kids[i]) && Between(Items(t.kids[i]), t.keys[i], NextKey(t.keys, i))
  {
  }

  lemma NotUpThere(x: Key, next: Key, key: Key)
    requires Less(x, next) && CmpKey(next, key) <= 0
    ensures x != key
  {
  }

  lemma NotDownThere(x: Key, low: Key, key: Key)
    requires !Less(x, low) && CmpKey(low, key) > 0
    ensures x != key
  {
  }

  /** Items with the wanted key are all in the child a search descends to, if it descends at all. */
  lemma SearchStep(t: Tree, key: Key, slot: int)
    requires t.Inner? && Ordered(t) && Descends(t.keys, key, slot)
    ensures |t.kids| == |t.keys|
    ensures slot < 0 ==> !HasKey(Items(t), key)
    ensures slot >= 0 ==> forall x: Item :: x.key == key ==> (x in Items(t) <==> x in Items(t.kids[slot]))
  {
    OrderedKid(t, 0);
    hide Ordered, Descends;
    forall i: nat | i < |t.kids| && i != slot ensures !HasKey(Items(t.kids[i]), key) {
      OnlyThere(t, key, slot, i);
    }
    hide Items, HasKey;
    forall x: Item, i: nat | x.key == key && i < |t.kids| && i != slot ensures x !in Items(t.kids[i]) {
      if x in Items(t.kids[i]) { KeyMember(Items(t.kids[i]), x); }
    }
    InKids(t.kids);
    assert Items(t) == ItemsOf(t.kids) by { InnerItems(t); }
    if slot < 0 && HasKey(Items(t), key) {
      var x := KeyWitness(Items(t), key);
    }
  }

  lemma InnerItems(t: Tree)
    requires t.Inner?
    ensures Items(t) == ItemsOf(t.kids)
  {
  }

  lemma KeyMember(s: seq<Item>, x: Item)
    requires x in s
    ensures HasKey(s, x.key)
  {
  }

  lemma KeyWitness(s: seq<Item>, key: Key) returns (x: Item)
    requires HasKey(s, key)
    ensures x in s && x.key == key
  {
    var i :| 0 <= i < |s| && s[i].key == key;
    x := s[i];
  }

  lemma {:induction false} InKids(kids: seq<Tree>)
    ensures forall x :: x in ItemsOf(kids) <==> exists i :: 0 <= i < |kids| && x in Items(kids[i])
  {
    hide Items;
    if kids != [] {
      InKids(kids[1..]);
      forall x ensures x in ItemsOf(kids) <==> exists i :: 0 <= i < |kids| && x in Items(kids[i]) {
        if x in ItemsOf(kids[1..]) {
          var i :| 0 <= i < |kids[1..]| && x in Items(kids[1..][i]);
          assert x in Items(kids[i + 1]);
        }
        if i :| 0 <= i < |kids| && x in Items(kids[i]) {
          assert i > 0 ==> x in Items(kids[1..][i - 1]);
        }
      }
    }
  }

  /** The items without those of one key. */
  function Without(s: seq<Item>, key: Key): seq<Item> {
    if s == [] then []
    else
      var k := |s| - 1;
      if s[k].key == key then Without(s[..k], key) else Without(s[..k], key) + [s[k]]
  }

  lemma {:induction false} WithoutAppend(a: seq<Item>, b: seq<Item>, key: Key)
    ensures Without(a + b, key) == Without(a, key) + Without(b, key)
  {
    if b == [] {
      assert a + b == a;
    } else {
      var k := |b| - 1;
      WithoutAppend(a, b[..k], key);
      assert (a + b)[..|a + b| - 1] == a + b[..k];
    }
  }

  lemma {:induction false} WithoutNone(s: seq<Item>, key: Key)
    requires !HasKey(s, key)
    ensures Without(s, key) == s
  {
    if s != [] {
      var k := |s| - 1;
      assert s[k].key != key;
      assert forall i :: 0 <= i < k ==> s[..k][i] == s[i];
      WithoutNone(s[..k], key);
      assert s[..k] + [s[k]] == s;
    }
  }

  /** What is left is what has another key. */
  lemma {:induction false} WithoutKeeps(s: seq<Item>, key: Key)
    ensures forall x :: x in Without(s, key) <==> x in s && x.key != key
  {
    if s != [] {
      var k := |s| - 1;
      WithoutKeeps(s[..k], key);
      assert forall x :: x in s <==> x in s[..k] || x == s[k];
    }
  }

  /** In a sorted leaf, removing the one slot with the key removes the key. */
  lemma RemovedIsWithout(items: seq<Item>, idx: nat, key: Key)
    requires SortedItems(items) && idx < |items| && items[idx].key == key
    ensures Removed(items, idx) == Without(items, key)
  {
    var a, b := items[..idx], items[idx + 1..];
    hide Less, Without;
    forall i | 0 <= i < |a| ensures a[i].key != key {
      Irreflexive(a[i].key, items[idx].key);
    }
    forall i | 0 <= i < |b| ensures b[i].key != key {
      assert b[i] == items[idx + 1 + i];
    }
    assert items == a + [items[idx]] + b;
    WithoutAppend(a + [items[idx]], b, key);
    WithoutAppend(a, [items[idx]], key);
    WithoutNone(a, key);
    WithoutNone(b, key);
  }

  lemma Irreflexive(a: Key, b: Key)
    ensures Less(a, b) ==> a != b
  {
  }

  lemma {:induction false} WithoutSorted(s: seq<Item>, key: Key)
    requires SortedItems(s)
    ensures SortedItems(Without(s, key))
  {
    hide Less;
    if s != [] {
      var k := |s| - 1;
      WithoutSorted(s[..k], key);
      WithoutKeeps(s[..k], key);
      var r := Without(s[..k], key);
      forall i | 0 <= i < |r| ensures Less(r[i].key, s[k].key) {
        assert r[i] in r && r[i] in s[..k];
      }
    }
  }
}
