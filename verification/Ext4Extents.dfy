/** ext4 extent trees of depth zero and one, as maps from file blocks to device blocks. */
module Ext4Extents {

  /** `count` file blocks from `block` on are stored from `phys` on. */
  datatype Ext = Ext(block: nat, count: nat, phys: nat)

  predicate ExtOk(e: Ext) {
    1 <= e.count < 0x8000 && e.block + e.count <= 0x1_0000_0000 && 1 <= e.phys && e.phys + e.count <= 0x1_0000_0000_0000
  }

  predicate AllOk(exts: seq<Ext>) {
    forall i :: 0 <= i < |exts| ==> ExtOk(exts[i])
  }

  predicate Covers(e: Ext, b: nat) {
    e.block <= b < e.block + e.count
  }

  /** Extents held in the inode, or in up to four leaf blocks behind index entries. */
  datatype Tree =
    | Inline(exts: seq<Ext>)
    | Indexed(firsts: seq<nat>, at: seq<nat>, leaves: seq<seq<Ext>>)

  /** The first extent that covers b decides; 0 is a hole. */
  function Look(exts: seq<Ext>, b: nat): nat {
    if exts == [] then 0
    else if Covers(exts[0], b) then exts[0].phys + (b - exts[0].block)
    else Look(exts[1..], b)
  }

  /** The index entry a search follows: the last one before the first that starts above b. */
  function Route(firsts: seq<nat>, b: nat): (r: int)
    ensures -1 <= r < |firsts|
  {
    if firsts == [] || firsts[0] > b then -1 else 1 + Route(firsts[1..], b)
  }

  function Lookup(t: Tree, b: nat): nat
    requires Sound(t)
  {
    match t
    case Inline(exts) => Look(exts, b)
    case Indexed(firsts, _, leaves) =>
      var i := Route(firsts, b);
      if i < 0 then 0 else Look(leaves[i], b)
  }

  predicate Sound(t: Tree) {
    match t
    case Inline(exts) => |exts| <= 4 && AllOk(exts)
    case Indexed(firsts, at, leaves) =>
      && 1 <= |firsts| == |at| == |leaves| <= 4
      && (forall i :: 0 <= i < |leaves| ==> AllOk(leaves[i]))
  }

  /** What the code makes of a tree and a new extent; `blk` is the block it allocates if it needs one. */
  function Append(t: Tree, e: Ext, blk: nat, cap: nat): Tree
    requires Sound(t)
  {
    match t
    case Inline(exts) => if |exts| < 4 then Inline(exts + [e]) else Indexed([0], [blk], [exts + [e]])
    case Indexed(firsts, at, leaves) =>
      var k := |leaves| - 1;
      if |leaves[k]| < cap then Indexed(firsts, at, leaves[k := leaves[k] + [e]])
      else if |firsts| < 4 then Indexed(firsts + [e.block], at + [blk], leaves + [[e]])
      else t
  }

  /** The new extent must route to the last leaf; and a new leaf can only be started above every mapped block, while
      there is an index entry left. */
  ghost predicate Accepts(t: Tree, e: Ext, cap: nat)
    requires Sound(t)
  {
    match t
    case Inline(_) => true
    case Indexed(firsts, _, leaves) =>
      var k := |leaves| - 1;
      && Route(firsts, e.block) == k
      && (|leaves[k]| >= cap ==> |firsts| < 4 && forall b: nat :: e.block <= b ==> Lookup(t, b) == 0)
  }

  /** The map with one extent more. */
  ghost predicate Updates(t: Tree, t': Tree, e: Ext)
    requires Sound(t) && Sound(t')
  {
    forall b: nat :: Lookup(t', b) == if Covers(e, b) then e.phys + (b - e.block) else Lookup(t, b)
  }

  lemma AppendSound(t: Tree, e: Ext, blk: nat, cap: nat)
    requires Sound(t) && ExtOk(e)
    ensures Sound(Append(t, e, blk, cap))
  {
    hide ExtOk;
  }

  lemma {:induction false} LookAppend(a: seq<Ext>, e: Ext, b: nat)
    requires AllOk(a)
    ensures Look(a + [e], b) == if Look(a, b) != 0 then Look(a, b) else Look([e], b)
  {
    if a == [] {
      assert a + [e] == [e];
    } else {
      assert (a + [e])[0] == a[0] && (a + [e])[1..] == a[1..] + [e];
      LookAppend(a[1..], e, b);
    }
  }

  lemma LookOne(e: Ext, b: nat)
    ensures Look([e], b) == if Covers(e, b) then e.phys + (b - e.block) else 0
  {
  }

  /** All index entries start at or below b exactly if the search goes to the last. */
  lemma {:induction false} RouteLast(firsts: seq<nat>, b: nat)
    ensures Route(firsts, b) == |firsts| - 1 <==> forall i :: 0 <= i < |firsts| ==> firsts[i] <= b
  {
    if firsts != [] {
      RouteLast(firsts[1..], b);
      assert forall i :: 1 <= i < |firsts| ==> firsts[i] == firsts[1..][i - 1];
    }
  }

  lemma {:induction false} RouteMore(firsts: seq<nat>, f: nat, b: nat)
    ensures Route(firsts + [f], b) == if Route(firsts, b) == |firsts| - 1 && f <= b then |firsts| else Route(firsts, b)
  {
    if firsts == [] {
      assert firsts + [f] == [f] && [f][1..] == [];
    } else {
      assert (firsts + [f])[0] == firsts[0] && (firsts + [f])[1..] == firsts[1..] + [f];
      RouteMore(firsts[1..], f, b);
    }
  }

  lemma RouteAbove(firsts: seq<nat>, a: nat, b: nat)
    requires Route(firsts, a) == |firsts| - 1 && a <= b
    ensures Route(firsts, b) == |firsts| - 1
  {
    RouteLast(firsts, a);
    RouteLast(firsts, b);
  }

  ghost predicate Hole(t: Tree, e: Ext)
    requires Sound(t)
  {
    forall b: nat :: Covers(e, b) ==> Lookup(t, b) == 0
  }

  /** In the inode, and on the way out of it, appending always is the update. */
  lemma InlineUpdates(t: Tree, e: Ext, blk: nat, cap: nat)
    requires Sound(t) && t.Inline? && ExtOk(e) && Hole(t, e) && Sound(Append(t, e, blk, cap))
    ensures Updates(t, Append(t, e, blk, cap), e)
  {
    hide ExtOk, Look;
    forall b: nat ensures Lookup(Append(t, e, blk, cap), b) == if Covers(e, b) then e.phys + (b - e.block) else Lookup(t, b) {
      LookAppend(t.exts, e, b);
      LookOne(e, b);
      assert Route([0], b) == 0;
    }
  }

  /** In the last leaf. */
  lemma LeafUpdates(t: Tree, e: Ext, blk: nat, cap: nat)
    requires Sound(t) && t.Indexed? && ExtOk(e) && Hole(t, e) && Sound(Append(t, e, blk, cap))
    requires |t.leaves[|t.leaves| - 1]| < cap && Route(t.firsts, e.block) == |t.leaves| - 1
    ensures Updates(t, Append(t, e, blk, cap), e)
  {
    hide ExtOk, Look, Route;
    var k := |t.leaves| - 1;
    forall b: nat ensures Lookup(Append(t, e, blk, cap), b) == if Covers(e, b) then e.phys + (b - e.block) else Lookup(t, b) {
      if Covers(e, b) { RouteAbove(t.firsts, e.block, b); }
      LookAppend(t.leaves[k], e, b);
      LookOne(e, b);
    }
  }

  /** In a leaf of its own. */
  lemma NewLeafUpdates(t: Tree, e: Ext, blk: nat, cap: nat)
    requires Sound(t) && t.Indexed? && ExtOk(e) && Hole(t, e) && Sound(Append(t, e, blk, cap))
    requires |t.leaves[|t.leaves| - 1]| >= cap && Accepts(t, e, cap)
    ensures Updates(t, Append(t, e, blk, cap), e)
  {
    hide ExtOk, Look, Route;
    forall b: nat ensures Lookup(Append(t, e, blk, cap), b) == if Covers(e, b) then e.phys + (b - e.block) else Lookup(t, b) {
      RouteMore(t.firsts, e.block, b);
      if e.block <= b { RouteAbove(t.firsts, e.block, b); }
      LookOne(e, b);
    }
  }

  /** Where appending does not accept the extent, some block is looked up wrongly afterwards. */
  lemma NotAccepted(t: Tree, e: Ext, blk: nat, cap: nat) returns (b: nat)
    requires Sound(t) && ExtOk(e) && Hole(t, e) && Sound(Append(t, e, blk, cap)) && !Accepts(t, e, cap)
    ensures Lookup(Append(t, e, blk, cap), b) != if Covers(e, b) then e.phys + (b - e.block) else Lookup(t, b)
  {
    hide Look, Route;
    var k := |t.leaves| - 1;
    b := e.block;
    assert Covers(e, e.block) && Lookup(t, e.block) == 0;
    RouteMore(t.firsts, e.block, e.block);
    if Route(t.firsts, e.block) == k && |t.firsts| < 4 {
      b :| e.block <= b && Lookup(t, b) != 0;
      RouteMore(t.firsts, e.block, b);
      RouteAbove(t.firsts, e.block, b);
      LookOne(e, b);
    }
  }

  /** Appending an extent for a hole is exactly that update of the map, if and only if the tree accepts it. */
  lemma AppendIsUpdate(t: Tree, e: Ext, blk: nat, cap: nat)
    requires Sound(t) && ExtOk(e) && Hole(t, e)
    ensures Sound(Append(t, e, blk, cap))
    ensures Updates(t, Append(t, e, blk, cap), e) <==> Accepts(t, e, cap)
  {
    AppendSound(t, e, blk, cap);
    if Accepts(t, e, cap) {
      hide Append, Lookup, ExtOk, Hole, Updates;
      if t.Inline? {
        InlineUpdates(t, e, blk, cap);
      } else if |t.leaves[|t.leaves| - 1]| < cap {
        LeafUpdates(t, e, blk, cap);
      } else {
        NewLeafUpdates(t, e, blk, cap);
      }
    } else {
      hide Append, Lookup, ExtOk, Hole;
      var b := NotAccepted(t, e, blk, cap);
    }
  }

  /** Accepted or not, an append maps no block anywhere new but those of the extent. */
  lemma AppendSources(t: Tree, e: Ext, blk: nat, cap: nat, b: nat)
    requires Sound(t) && ExtOk(e) && Sound(Append(t, e, blk, cap))
    ensures var y := Lookup(Append(t, e, blk, cap), b);
            y == 0 || y == Lookup(t, b) || (Covers(e, b) && y == e.phys + (b - e.block))
  {
    hide Look, Route, ExtOk;
    LookOne(e, b);
    if t.Inline? {
      LookAppend(t.exts, e, b);
      ZeroFirst(b);
    } else {
      var k := |t.leaves| - 1;
      LookAppend(t.leaves[k], e, b);
      RouteMore(t.firsts, e.block, b);
    }
  }

  lemma HoleAt(t: Tree, lo: nat, x: nat)
    requires Sound(t) && Lookup(t, lo) == 0
    ensures Hole(t, Ext(lo, 1, x))
  {
    hide Lookup;
    forall b: nat | Covers(Ext(lo, 1, x), b) ensures Lookup(t, b) == 0 {
      assert b == lo;
    }
  }

  lemma Updated(t: Tree, t1: Tree, lo: nat, x: nat)
    requires Sound(t) && Sound(t1) && Updates(t, t1, Ext(lo, 1, x))
    ensures forall b: nat :: Lookup(t1, b) == if b == lo then x else Lookup(t, b)
  {
    hide Lookup;
    forall b: nat ensures Lookup(t1, b) == if b == lo then x else Lookup(t, b) {
      assert Covers(Ext(lo, 1, x), b) <==> b == lo;
    }
  }

  lemma ZeroFirst(b: nat)
    ensures Route([0], b) == 0
  {
    assert [0][1..] == [];
  }

  lemma {:induction false} LookNone(exts: seq<Ext>, b: nat)
    requires forall i :: 0 <= i < |exts| ==> !Covers(exts[i], b)
    ensures Look(exts, b) == 0
  {
    if exts != [] {
      forall i | 0 <= i < |exts[1..]| ensures !Covers(exts[1..][i], b) {
        assert exts[1..][i] == exts[i + 1];
      }
      LookNone(exts[1..], b);
    }
  }

  /** A leaf of 84 single-block extents, as many as a 1024-byte block holds. */
  function FullLeaf(block: nat, phys: nat): (r: seq<Ext>)
    ensures |r| == 84 && forall i :: 0 <= i < |r| ==> r[i] == Ext(block + i, 1, phys + i)
  {
    seq(84, i requires 0 <= i < 84 => Ext(block + i, 1, phys + i))
  }

  lemma RouteOf(firsts: seq<nat>, b: nat, r: int)
    requires -1 <= r < |firsts| && (forall i :: 0 <= i <= r ==> firsts[i] <= b) && (r + 1 < |firsts| ==> firsts[r + 1] > b)
    ensures Route(firsts, b) == r
    decreases |firsts|
  {
    if firsts != [] && r >= 0 {
      var rest := firsts[1..];
      assert forall i :: 0 <= i < |rest| ==> rest[i] == firsts[i + 1];
      RouteOf(rest, b, r - 1);
    }
  }

  /** Four full leaves: the next block, above all others, is not mapped by appending it. */
  lemma FourFullLeaves()
    ensures var t := Indexed([0, 84, 168, 252], [1, 2, 3, 4], [FullLeaf(0, 1000), FullLeaf(84, 1084), FullLeaf(168, 1168), FullLeaf(252, 1252)]);
            var e := Ext(336, 1, 1336);
            && Sound(t) && ExtOk(e) && Hole(t, e) && !Accepts(t, e, 84)
            && Lookup(Append(t, e, 5, 84), 336) == 0
  {
    var t := Indexed([0, 84, 168, 252], [1, 2, 3, 4], [FullLeaf(0, 1000), FullLeaf(84, 1084), FullLeaf(168, 1168), FullLeaf(252, 1252)]);
    var e := Ext(336, 1, 1336);
    RouteOf(t.firsts, 336, 3);
    LookNone(FullLeaf(252, 1252), 336);
    hide Look, Route;
    forall b: nat | Covers(e, b) ensures Lookup(t, b) == 0 {
      assert b == 336;
    }
  }

  /** A hole between the last block of a full first leaf and the second leaf: appending goes to the second leaf, where a
      search for the block never comes. */
  lemma HoleBelowLastLeaf()
    ensures var t := Indexed([0, 100], [1, 2], [FullLeaf(0, 1000), [Ext(100, 1, 1100)]]);
            var e := Ext(90, 1, 1090);
            && Sound(t) && ExtOk(e) && Hole(t, e) && !Accepts(t, e, 84)
            && Sound(Append(t, e, 5, 84)) && Lookup(Append(t, e, 5, 84), 90) == 0
  {
    var t := Indexed([0, 100], [1, 2], [FullLeaf(0, 1000), [Ext(100, 1, 1100)]]);
    var e := Ext(90, 1, 1090);
    RouteOf(t.firsts, 90, 0);
    LookNone(FullLeaf(0, 1000), 90);
    forall b: nat | Covers(e, b) ensures Lookup(t, b) == 0 {
      assert b == 90;
    }
    AppendSound(t, e, 5, 84);
  }
}
