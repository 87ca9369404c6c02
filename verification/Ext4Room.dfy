/** When a run of new file blocks fits an extent tree, and what it costs: capacity and order limits of the code, exactly. */
module Ext4Room {
  import opened Chunks
  import opened Ext4Extents

  /** Unmapped blocks in [lo, hi). */
  ghost function Holes(t: Tree, lo: nat, hi: nat): nat
    requires Sound(t)
    decreases hi - lo
  {
    if lo >= hi then 0 else (if Lookup(t, lo) == 0 then 1 else 0) + Holes(t, lo + 1, hi)
  }

  /** Room in leaf blocks that do not exist yet. */
  function Unused(leaves: nat, cap: nat): nat {
    if leaves == 1 then 3 * cap else if leaves == 2 then 2 * cap else if leaves == 3 then cap else 0
  }

  /** Extents that can be appended before another leaf has to be started. */
  function FreeSlots(t: Tree, cap: nat): int
    requires Sound(t)
  {
    cap - match t case Inline(exts) => |exts| case Indexed(_, _, leaves) => |leaves[|leaves| - 1]|
  }

  /** Extents that can still be appended. */
  function Spare(t: Tree, cap: nat): int
    requires Sound(t)
  {
    FreeSlots(t, cap) + Unused(if t.Indexed? then |t.leaves| else 1, cap)
  }

  ghost predicate NoneFrom(t: Tree, b: nat)
    requires Sound(t)
  {
    forall m: nat :: b <= m ==> Lookup(t, m) == 0
  }

  /** A search for block b goes to the last leaf. */
  predicate GoesLast(t: Tree, b: nat) {
    t.Indexed? ==> Route(t.firsts, b) == |t.firsts| - 1
  }

  /** Hole b of a range from lo on: a search goes to the last leaf, and if the holes before it use up the free slots,
      nothing is mapped at or above it. */
  ghost predicate HoleFits(t: Tree, lo: nat, b: nat, cap: nat)
    requires Sound(t)
  {
    GoesLast(t, b) && (Holes(t, lo, b) >= FreeSlots(t, cap) ==> NoneFrom(t, b))
  }

  /** Every hole of [lo, hi) can be filled, one after the other. */
  ghost predicate RoomFor(t: Tree, lo: nat, hi: nat, cap: nat)
    requires Sound(t)
  {
    && Holes(t, lo, hi) <= Spare(t, cap)
    && forall b: nat :: lo <= b < hi && Lookup(t, b) == 0 ==> HoleFits(t, lo, b, cap)
  }

  /** Block b lies above every mapped block and every index entry. */
  ghost predicate OnTop(t: Tree, b: nat)
    requires Sound(t)
  {
    (forall m: nat :: Lookup(t, m) != 0 ==> m < b) && GoesLast(t, b)
  }

  ghost predicate Filled(t: Tree, cap: nat)
    requires Sound(t)
  {
    t.Indexed? ==> forall i :: 0 <= i < |t.leaves| ==> |t.leaves[i]| <= cap
  }

  lemma {:induction false} SameHoles(t: Tree, t': Tree, lo: nat, hi: nat)
    requires Sound(t) && Sound(t') && forall b: nat :: lo <= b ==> Lookup(t', b) == Lookup(t, b)
    ensures Holes(t', lo, hi) == Holes(t, lo, hi)
    decreases hi - lo
  {
    hide Lookup;
    if lo < hi { SameHoles(t, t', lo + 1, hi); }
  }

  lemma HolesStep(t: Tree, lo: nat, hi: nat)
    requires Sound(t) && lo < hi
    ensures Holes(t, lo, hi) == (if Lookup(t, lo) == 0 then 1 else 0) + Holes(t, lo + 1, hi)
  {
    hide Lookup;
  }

  /** A mapped block makes no difference. */
  lemma RoomSkips(t: Tree, lo: nat, hi: nat, cap: nat)
    requires Sound(t) && lo < hi && Lookup(t, lo) != 0
    ensures RoomFor(t, lo, hi, cap) <==> RoomFor(t, lo + 1, hi, cap)
  {
    hide Lookup, NoneFrom, Spare, FreeSlots, GoesLast, Holes;
    HolesStep(t, lo, hi);
    forall b: nat | lo < b ensures HoleFits(t, lo, b, cap) <==> HoleFits(t, lo + 1, b, cap) {
      HolesStep(t, lo, b);
    }
  }

  /** The tree accepts the next hole. */
  lemma RoomAccepts(t: Tree, lo: nat, hi: nat, cap: nat, e: Ext)
    requires Sound(t) && Filled(t, cap) && RoomFor(t, lo, hi, cap) && lo < hi && Lookup(t, lo) == 0 && e.block == lo
    ensures Accepts(t, e, cap)
  {
    HolesStep(t, lo, hi);
    hide Holes, Lookup, Route;
    assert HoleFits(t, lo, lo, cap);
  }

  /** One extent less can be appended. */
  lemma SpareDrops(t: Tree, e: Ext, blk: nat, cap: nat)
    requires Sound(t) && Filled(t, cap) && Sound(Append(t, e, blk, cap)) && Accepts(t, e, cap) && cap >= 5
    ensures var t' := Append(t, e, blk, cap);
            && Spare(t', cap) == Spare(t, cap) - 1 && Filled(t', cap)
            && (FreeSlots(t, cap) > 0 ==> FreeSlots(t', cap) == FreeSlots(t, cap) - 1)
            && (FreeSlots(t, cap) <= 0 ==> NoneFrom(t, e.block) && FreeSlots(t', cap) == cap - 1)
  {
    hide Lookup, Route, ExtOk;
  }

  lemma GoesOn(t: Tree, e: Ext, blk: nat, cap: nat, b: nat)
    requires Sound(t) && Sound(Append(t, e, blk, cap)) && Accepts(t, e, cap) && e.block < b
    ensures GoesLast(t, b) && GoesLast(Append(t, e, blk, cap), b)
  {
    hide Lookup, ExtOk;
    if t.Inline? {
      ZeroFirst(b);
    } else {
      RouteAbove(t.firsts, e.block, b);
      RouteMore(t.firsts, e.block, b);
    }
  }

  lemma StillOnTop(t: Tree, e: Ext, blk: nat, cap: nat, b: nat)
    requires Sound(t) && Sound(Append(t, e, blk, cap)) && Updates(t, Append(t, e, blk, cap), e) && e.count == 1
    requires OnTop(t, b) && e.block < b
    ensures OnTop(Append(t, e, blk, cap), b)
  {
    var t' := Append(t, e, blk, cap);
    hide Lookup, ExtOk;
    forall m: nat | Lookup(t', m) != 0 ensures m < b {
      assert !Covers(e, m) ==> Lookup(t', m) == Lookup(t, m);
    }
    if t.Inline? { ZeroFirst(b); } else { RouteMore(t.firsts, e.block, b); }
  }

  /** Filling an accepted hole: there is room for all holes exactly if then there is room for the others. */
  lemma RoomStep(t: Tree, lo: nat, hi: nat, cap: nat, x: nat, blk: nat)
    requires Sound(t) && Filled(t, cap) && lo < hi && Lookup(t, lo) == 0 && cap >= 5
    requires var e := Ext(lo, 1, x); Accepts(t, e, cap) && Sound(Append(t, e, blk, cap)) && Updates(t, Append(t, e, blk, cap), e)
    ensures var t' := Append(t, Ext(lo, 1, x), blk, cap); Filled(t', cap) && (RoomFor(t, lo, hi, cap) <==> RoomFor(t', lo + 1, hi, cap))
  {
    var e := Ext(lo, 1, x);
    var t' := Append(t, e, blk, cap);
    SpareDrops(t, e, blk, cap);
    forall b: nat | lo + 1 <= b ensures Lookup(t', b) == Lookup(t, b) {
      assert !Covers(e, b);
    }
    SameHoles(t, t', lo + 1, hi);
    HolesStep(t, lo, hi);
    FirstFits(t, lo, e, cap);
    forall b: nat | lo < b ensures HoleFits(t, lo, b, cap) <==> HoleFits(t', lo + 1, b, cap) {
      GoesOn(t, e, blk, cap, b);
      HolesStep(t, lo, b);
      SameHoles(t, t', lo + 1, b);
      SameFrom(t, t', lo, b);
      hide Append, Spare, FreeSlots, GoesLast, Lookup, Holes, Accepts, NoneFrom;
    }
    hide Append, Spare, FreeSlots, GoesLast, Lookup, Holes, Accepts, NoneFrom, HoleFits;
  }

  lemma SameFrom(t: Tree, t': Tree, lo: nat, b: nat)
    requires Sound(t) && Sound(t') && lo < b && forall m: nat :: lo + 1 <= m ==> Lookup(t', m) == Lookup(t, m)
    ensures NoneFrom(t', b) <==> NoneFrom(t, b)
    ensures NoneFrom(t, lo) ==> NoneFrom(t, b)
  {
    hide Lookup;
  }

  lemma FirstFits(t: Tree, lo: nat, e: Ext, cap: nat)
    requires Sound(t) && Filled(t, cap) && Accepts(t, e, cap) && e.block == lo && cap >= 5
    ensures HoleFits(t, lo, lo, cap)
  {
    hide Lookup, Route;
  }

  /** Leaf blocks that hold n extents. */
  function Leaves(n: nat, cap: nat): nat
    requires cap > 0
  {
    (n + cap - 1) / cap
  }

  /** Blocks that appending one extent takes: one if the inode or the last leaf is full. */
  function LeafNeed(t: Tree, cap: nat): nat
    requires Sound(t)
  {
    match t
    case Inline(exts) => if |exts| < 4 then 0 else 1
    case Indexed(_, _, leaves) => if |leaves[|leaves| - 1]| < cap then 0 else 1
  }

  /** Leaf blocks that appending n extents takes: none while they fit the inode, else as many as hold them and what is there already. */
  function LeavesFor(t: Tree, n: nat, cap: nat): nat
    requires Sound(t) && cap > 0
  {
    match t
    case Inline(exts) => if |exts| + n <= 4 then 0 else Leaves(|exts| + n, cap)
    case Indexed(_, _, leaves) => var m := |leaves[|leaves| - 1]| + n; if m == 0 then 0 else Leaves(m, cap) - 1
  }

  lemma OneLeafMore(n: nat, cap: nat)
    requires cap > 0
    ensures Leaves(cap + n, cap) == 1 + Leaves(n, cap)
    ensures n <= cap ==> Leaves(n, cap) == if n == 0 then 0 else 1
  {
    hide *;
    assert (cap + n + cap - 1) / cap == 1 + (n + cap - 1) / cap by { OneMoreTime(n + cap - 1, cap); }
    if 0 < n <= cap {
      OneMoreTime(n - 1, cap);
      SmallQuotient(n - 1, cap);
    } else if n == 0 {
      SmallQuotient(cap - 1, cap);
    }
    LeavesIs(n, cap);
    LeavesIs(cap + n, cap);
  }

  lemma LeavesIs(n: nat, cap: nat)
    requires cap > 0
    ensures Leaves(n, cap) == (n + cap - 1) / cap
  {
  }

  lemma OneMoreTime(x: nat, d: nat)
    requires d > 0
    ensures (x + d) / d == 1 + x / d
  {
    hide *;
    var q, r := x / d, x % d;
    assert x + d == d * (q + 1) + r;
    SameQuotient(x + d, d, q + 1, r);
  }

  lemma SameQuotient(x: nat, d: nat, q: nat, r: nat)
    requires d > 0 && x == d * q + r && r < d
    ensures x / d == q
  {
    DivMod(q, r, d);
  }

  lemma SmallQuotient(x: nat, d: nat)
    requires d > 0 && x < d
    ensures x / d == 0
  {
  }

  /** Appending n extents takes what the first one takes, and what the others take then. */
  lemma LeavesStep(t: Tree, e: Ext, blk: nat, cap: nat, n: nat)
    requires Sound(t) && Filled(t, cap) && Sound(Append(t, e, blk, cap)) && Accepts(t, e, cap) && cap >= 5 && n >= 1
    ensures LeavesFor(t, n, cap) == LeafNeed(t, cap) + LeavesFor(Append(t, e, blk, cap), n - 1, cap)
  {
    hide Lookup, Route, ExtOk, Leaves;
    if t.Indexed? { OneLeafMore(n, cap); }
    OneLeafMore(0, cap);
  }

  lemma LeavesNone(t: Tree, cap: nat)
    requires Sound(t) && Filled(t, cap) && cap >= 5
    ensures LeavesFor(t, 0, cap) == 0
  {
    hide ExtOk, Leaves;
    if t.Indexed? { OneLeafMore(|t.leaves[|t.leaves| - 1]|, cap); }
  }

  /** `free` blocks are enough for the holes of the range and the leaves they need. */
  ghost predicate Affords(t: Tree, lo: nat, hi: nat, cap: nat, free: int)
    requires Sound(t) && cap > 0
  {
    Holes(t, lo, hi) + LeavesFor(t, Holes(t, lo, hi), cap) <= free
  }

  lemma AffordsSkips(t: Tree, lo: nat, hi: nat, cap: nat, free: int)
    requires Sound(t) && lo < hi && Lookup(t, lo) != 0 && cap > 0
    ensures Affords(t, lo, hi, cap, free) <==> Affords(t, lo + 1, hi, cap, free)
  {
    HolesStep(t, lo, hi);
    hide Holes, Lookup, LeavesFor;
  }

  /** A hole that cannot be paid for. */
  lemma AffordsFirst(t: Tree, lo: nat, hi: nat, cap: nat, free: int)
    requires Sound(t) && Filled(t, cap) && lo < hi && Lookup(t, lo) == 0 && cap >= 5 && free < 1 + LeafNeed(t, cap)
    ensures !Affords(t, lo, hi, cap, free)
  {
    HolesStep(t, lo, hi);
    hide Holes, Lookup, ExtOk;
    var n := Holes(t, lo, hi);
    if LeafNeed(t, cap) == 1 {
      hide Leaves;
      OneLeafMore(n, cap);
      if t.Inline? { AtLeastOne(4 + n, cap); } else { AtLeastOne(n, cap); }
    }
  }

  lemma AtLeastOne(n: nat, cap: nat)
    requires cap > 0 && n >= 1
    ensures Leaves(n, cap) >= 1
  {
    hide *;
    LeavesIs(n, cap);
    OneMoreTime(n - 1, cap);
  }

  /** A hole is filled and paid for. */
  lemma AffordsStep(t: Tree, lo: nat, hi: nat, cap: nat, x: nat, blk: nat, free: int)
    requires Sound(t) && Filled(t, cap) && lo < hi && Lookup(t, lo) == 0 && cap >= 5
    requires var e := Ext(lo, 1, x); Accepts(t, e, cap) && Sound(Append(t, e, blk, cap)) && Updates(t, Append(t, e, blk, cap), e)
    ensures var t' := Append(t, Ext(lo, 1, x), blk, cap);
            Affords(t, lo, hi, cap, free) <==> Affords(t', lo + 1, hi, cap, free - 1 - LeafNeed(t, cap))
  {
    var e := Ext(lo, 1, x);
    var t' := Append(t, e, blk, cap);
    forall b: nat | lo + 1 <= b ensures Lookup(t', b) == Lookup(t, b) {
      assert !Covers(e, b);
    }
    SameHoles(t, t', lo + 1, hi);
    HolesStep(t, lo, hi);
    LeavesStep(t, e, blk, cap, Holes(t, lo, hi));
    hide Append, Lookup, Holes, Accepts, LeavesFor, LeafNeed, Filled;
  }

  lemma AffordsEnd(t: Tree, hi: nat, cap: nat, free: nat)
    requires Sound(t) && Filled(t, cap) && cap >= 5
    ensures Affords(t, hi, hi, cap, free)
  {
    HolesHere(t, hi);
    LeavesNone(t, cap);
  }

  lemma HolesHere(t: Tree, lo: nat)
    requires Sound(t)
    ensures Holes(t, lo, lo) == 0
  {
  }

  /** What the writer makes of a range: each hole b in turn is given block x(b), and blk(b) if a leaf is needed. */
  ghost function FillRange(t: Tree, lo: nat, hi: nat, cap: nat, x: nat -> nat, blk: nat -> nat): (t': Tree)
    requires Sound(t) && forall b: nat :: lo <= b < hi ==> ExtOk(Ext(b, 1, x(b)))
    ensures Sound(t')
    decreases hi - lo
  {
    if lo >= hi then t
    else if Lookup(t, lo) != 0 then FillRange(t, lo + 1, hi, cap, x, blk)
    else
      AppendSound(t, Ext(lo, 1, x(lo)), blk(lo), cap);
      FillRange(Append(t, Ext(lo, 1, x(lo)), blk(lo), cap), lo + 1, hi, cap, x, blk)
  }

  /** The map with every hole of [lo, hi) filled. */
  ghost predicate AllFilled(t: Tree, t': Tree, lo: nat, hi: nat, x: nat -> nat)
    requires Sound(t) && Sound(t')
  {
    forall b: nat :: Lookup(t', b) == if Lookup(t, b) == 0 && lo <= b < hi then x(b) else Lookup(t, b)
  }

  /** Filling maps no block anywhere new but to the one chosen for it. */
  lemma {:induction false} FillSources(t: Tree, lo: nat, hi: nat, cap: nat, x: nat -> nat, blk: nat -> nat, b: nat)
    requires Sound(t) && forall b: nat :: lo <= b < hi ==> ExtOk(Ext(b, 1, x(b)))
    ensures var y := Lookup(FillRange(t, lo, hi, cap, x, blk), b); y == 0 || y == Lookup(t, b) || (lo <= b < hi && y == x(b))
    decreases hi - lo
  {
    hide Append, Lookup, ExtOk, Sound;
    if lo < hi {
      if Lookup(t, lo) != 0 {
        FillSources(t, lo + 1, hi, cap, x, blk, b);
      } else {
        AppendSound(t, Ext(lo, 1, x(lo)), blk(lo), cap);
        AppendSources(t, Ext(lo, 1, x(lo)), blk(lo), cap, b);
        FillSources(Append(t, Ext(lo, 1, x(lo)), blk(lo), cap), lo + 1, hi, cap, x, blk, b);
      }
    }
  }

  /** Filling a range with blocks that are nowhere in the map fills exactly its holes if and only if there is room. */
  lemma {:induction false} FillExact(t: Tree, lo: nat, hi: nat, cap: nat, x: nat -> nat, blk: nat -> nat)
    requires Sound(t) && Filled(t, cap) && cap >= 5 && forall b: nat :: lo <= b < hi ==> ExtOk(Ext(b, 1, x(b)))
    requires forall b: nat, c: nat :: lo <= b < hi ==> x(b) != Lookup(t, c)
    requires forall b: nat, c: nat :: lo <= b < hi && lo <= c < hi && b != c ==> x(b) != x(c)
    ensures AllFilled(t, FillRange(t, lo, hi, cap, x, blk), lo, hi, x) <==> RoomFor(t, lo, hi, cap)
    decreases hi - lo
  {
    hide Append, Lookup, Sound, RoomFor, Accepts, Filled, Updates, Hole;
    if lo >= hi {
      RoomEmpty(t, lo, hi, cap);
    } else if Lookup(t, lo) != 0 {
      RoomSkips(t, lo, hi, cap);
      FillExact(t, lo + 1, hi, cap, x, blk);
    } else {
      var e := Ext(lo, 1, x(lo));
      AppendSound(t, e, blk(lo), cap);
      HoleAt(t, lo, x(lo));
      AppendIsUpdate(t, e, blk(lo), cap);
      var t1 := Append(t, e, blk(lo), cap);
      if Accepts(t, e, cap) {
        RoomStep(t, lo, hi, cap, x(lo), blk(lo));
        Updated(t, t1, lo, x(lo));
        FillExact(t1, lo + 1, hi, cap, x, blk);
      } else {
        if RoomFor(t, lo, hi, cap) { RoomAccepts(t, lo, hi, cap, e); }
        var b := NotAccepted(t, e, blk(lo), cap);
        AppendSources(t, e, blk(lo), cap, b);
        FillSources(t1, lo + 1, hi, cap, x, blk, b);
      }
    }
  }

  lemma RoomEmpty(t: Tree, lo: nat, hi: nat, cap: nat)
    requires Sound(t) && Filled(t, cap) && cap >= 5 && lo >= hi
    ensures RoomFor(t, lo, hi, cap)
  {
  }

  /** Every hole of [lo, cur) is mapped now, and nothing else changed in the map. */
  ghost predicate Mapped(t: Tree, t1: Tree, lo: nat, cur: nat)
    requires Sound(t) && Sound(t1)
  {
    forall b: nat :: if Lookup(t, b) == 0 && lo <= b < cur then Lookup(t1, b) != 0 else Lookup(t1, b) == Lookup(t, b)
  }

  /** Block b is lost: a hole that was passed and is still one, or a mapped block that is no longer where it was. */
  ghost predicate Lost(t: Tree, t1: Tree, lo: nat, cur: nat, live: set<nat>, b: nat)
    requires Sound(t) && Sound(t1)
  {
    var y, z := Lookup(t, b), Lookup(t1, b);
    if y == 0 then lo <= b < cur && z == 0 else y in live && z != y && (z == 0 || z !in live)
  }

  /** Filling the range [lo, hi) has come to cur: either all went well and the room that is left decides, or there was no
      room and a block is lost. */
  ghost predicate Filling(t: Tree, t1: Tree, lo: nat, cur: nat, hi: nat, cap: nat, live: set<nat>, lost: int)
    requires Sound(t) && Sound(t1)
  {
    && Filled(t1, cap)
    && if lost < 0 then Mapped(t, t1, lo, cur) && (RoomFor(t, lo, hi, cap) <==> RoomFor(t1, cur, hi, cap))
       else !RoomFor(t, lo, hi, cap) && Lost(t, t1, lo, cur, live, lost)
  }

  lemma FillingStarts(t: Tree, lo: nat, hi: nat, cap: nat, live: set<nat>)
    requires Sound(t) && Filled(t, cap)
    ensures Filling(t, t, lo, lo, hi, cap, live, -1)
  {
    hide Lookup, RoomFor, Filled;
  }

  lemma FillingSkips(t: Tree, t1: Tree, lo: nat, cur: nat, hi: nat, cap: nat, live: set<nat>, lost: int)
    requires Sound(t) && Sound(t1) && lo <= cur < hi && Filling(t, t1, lo, cur, hi, cap, live, lost) && Lookup(t1, cur) != 0
    ensures Filling(t, t1, lo, cur + 1, hi, cap, live, lost)
  {
    RoomSkips(t1, cur, hi, cap);
    hide Lookup, RoomFor, Filled;
  }

  /** A hole is given a block x that was not in use. */
  lemma FillingStep(t: Tree, t1: Tree, lo: nat, cur: nat, hi: nat, cap: nat, live: set<nat>, lost: int, x: nat, blk: nat) returns (lost': int)
    requires Sound(t) && Sound(t1) && lo <= cur < hi && cap >= 5 && Filling(t, t1, lo, cur, hi, cap, live, lost) && Lookup(t1, cur) == 0
    requires ExtOk(Ext(cur, 1, x)) && x !in live && forall b: nat :: Lookup(t, b) != 0 ==> Lookup(t, b) in live
    ensures Sound(Append(t1, Ext(cur, 1, x), blk, cap))
    ensures Filling(t, Append(t1, Ext(cur, 1, x), blk, cap), lo, cur + 1, hi, cap, live, lost')
    ensures lost >= 0 || !Accepts(t1, Ext(cur, 1, x), cap) ==> lost' >= 0
    ensures lost < 0 && Accepts(t1, Ext(cur, 1, x), cap) ==> lost' < 0
  {
    var e := Ext(cur, 1, x);
    var t2 := Append(t1, e, blk, cap);
    AppendSound(t1, e, blk, cap);
    HoleAt(t1, cur, x);
    AppendIsUpdate(t1, e, blk, cap);
    FilledStays(t1, e, blk, cap);
    ExtIsUsed(e);
    lost' := lost;
    hide Append, RoomFor, Accepts, Filled, Updates, Hole, Lookup, Sound, Mapped, Lost, ExtOk;
    if lost >= 0 {
      AppendSources(t1, e, blk, cap, lost);
      LostStays(t, t1, t2, lo, cur, live, lost, x);
    } else if Accepts(t1, e, cap) {
      RoomStep(t1, cur, hi, cap, x, blk);
      Updated(t1, t2, cur, x);
      MappedMore(t, t1, t2, lo, cur, x);
    } else {
      if RoomFor(t1, cur, hi, cap) { RoomAccepts(t1, cur, hi, cap, e); }
      lost' := FirstLost(t, t1, e, blk, lo, cap, live);
    }
  }

  lemma LostStays(t: Tree, t1: Tree, t2: Tree, lo: nat, cur: nat, live: set<nat>, b: nat, x: nat)
    requires Sound(t) && Sound(t1) && Sound(t2) && Lost(t, t1, lo, cur, live, b) && lo <= cur && x !in live
    requires var y := Lookup(t2, b); y == 0 || y == Lookup(t1, b) || (Covers(Ext(cur, 1, x), b) && y == x + (b - cur))
    ensures Lost(t, t2, lo, cur + 1, live, b)
  {
    hide Lookup, Sound;
  }

  lemma MappedMore(t: Tree, t1: Tree, t2: Tree, lo: nat, cur: nat, x: nat)
    requires Sound(t) && Sound(t1) && Sound(t2) && Mapped(t, t1, lo, cur) && lo <= cur && Lookup(t1, cur) == 0 && x != 0
    requires forall b: nat :: Lookup(t2, b) == if b == cur then x else Lookup(t1, b)
    ensures Mapped(t, t2, lo, cur + 1)
  {
    hide Lookup, Sound;
  }

  lemma ExtIsUsed(e: Ext)
    requires ExtOk(e)
    ensures e.phys != 0
  {
  }

  /** The first append that is not accepted loses a block. */
  lemma FirstLost(t: Tree, t1: Tree, e: Ext, blk: nat, lo: nat, cap: nat, live: set<nat>) returns (b: nat)
    requires Sound(t) && Sound(t1) && ExtOk(e) && e.count == 1 && Hole(t1, e) && Sound(Append(t1, e, blk, cap)) && !Accepts(t1, e, cap)
    requires lo <= e.block && Mapped(t, t1, lo, e.block) && forall m: nat :: Lookup(t, m) != 0 ==> Lookup(t, m) in live
    ensures Lost(t, Append(t1, e, blk, cap), lo, e.block + 1, live, b)
  {
    b := NotAccepted(t1, e, blk, cap);
    AppendSources(t1, e, blk, cap, b);
    hide Append, Accepts, Lookup, Sound;
    assert b != e.block ==> Lookup(t, b) != 0 || lo <= b < e.block;
  }

  lemma FillingFilled(t: Tree, t1: Tree, lo: nat, cur: nat, hi: nat, cap: nat, live: set<nat>, lost: int)
    requires Sound(t) && Sound(t1) && Filling(t, t1, lo, cur, hi, cap, live, lost)
    ensures Filled(t1, cap)
  {
    hide Lookup, RoomFor, Filled;
  }

  lemma FilledStays(t: Tree, e: Ext, blk: nat, cap: nat)
    requires Sound(t) && Filled(t, cap) && cap >= 5 && Sound(Append(t, e, blk, cap))
    ensures Filled(Append(t, e, blk, cap), cap)
  {
    hide Lookup, ExtOk;
  }

  /** At the end the holes are mapped, and everything else as it was, exactly if there was room. */
  lemma FillingEnds(t: Tree, t1: Tree, lo: nat, hi: nat, cap: nat, live: set<nat>, lost: int)
    requires Sound(t) && Sound(t1) && cap >= 5 && Filling(t, t1, lo, hi, hi, cap, live, lost)
    ensures Mapped(t, t1, lo, hi) <==> RoomFor(t, lo, hi, cap)
    ensures RoomFor(t, lo, hi, cap) <==> lost < 0
  {
    RoomEmpty(t1, hi, hi, cap);
    hide Lookup, RoomFor, Filled;
  }
}
