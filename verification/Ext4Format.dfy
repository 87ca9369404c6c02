/** mkfs for ext4: the bitmaps of a layout, and the writer that emits it in one pass. */
module Ext4Format {
  import opened Wrappers
  import opened Bytes
  import opened Bitmap
  import opened Ext4Backups
  import opened Ext4Layout

  /** Sets `count` bits from `off` on. */
  method SetBits(bm: array<byte>, off: nat, count: nat)
    requires off + count <= 8 * bm.Length
    modifies bm
    ensures forall k :: 0 <= k < 8 * bm.Length ==> Bits(bm[..])[k] == (off <= k < off + count || old(Bits(bm[..]))[k])
  {
    hide BitOf;
    ghost var before := Bits(bm[..]);
    for i := 0 to count
      invariant forall k :: 0 <= k < 8 * bm.Length ==> Bits(bm[..])[k] == (off <= k < off + i || before[k])
    {
      SetBit(bm, off + i, true);
    }
  }

  method NoBits() returns (bm: array<byte>)
    ensures fresh(bm) && bm.Length == 4096 && forall k :: 0 <= k < 32768 ==> !Bits(bm[..])[k]
  {
    bm := new byte[4096](i => 0);
    forall k | 0 <= k < 32768 ensures !Bits(bm[..])[k] {
      NoBit(k % 8);
    }
  }

  lemma {:induction false} NoBit(i: nat)
    ensures !BitOf(0, i)
    decreases i
  {
    if i > 0 { NoBit(i - 1); }
  }

  /** Used are the blocks before `used` and those that do not exist, from `size` on. */
  ghost predicate UsedOutside(bits: seq<bool>, used: nat, size: nat) {
    |bits| == 32768 && forall k :: 0 <= k < 32768 ==> bits[k] == (k < used || k >= size)
  }

  lemma {:induction false} ClearBetween(bits: seq<bool>, used: nat, size: nat, n: nat)
    requires UsedOutside(bits, used, size) && used <= size && n <= 32768
    ensures Clear(bits, n) == if n <= used then 0 else if n <= size then n - used else size - used
  {
    if n > 0 { ClearBetween(bits, used, size, n - 1); }
  }

  /** Blocks before the data area of a group, as far as there are bits for them. */
  function UsedBlocks(grp: Grp): nat {
    if grp.dataStart <= grp.first then 0 else Min(grp.dataStart - grp.first, 32768)
  }

  /** The block bitmap of group g: everything before its data area, and the bits past its last block. */
  method BuildBlockBitmap(l: Layout, g: nat) returns (bm: array<byte>)
    requires IsLayout(l) && g < l.plan.groups && |l.grps| == l.plan.groups
    ensures bm.Length == 4096 && UsedOutside(Bits(bm[..]), UsedBlocks(l.grps[g]), GroupSize(l.plan, g))
  {
    hide *;
    GroupPlaces(l, g);
    var grp := l.grps[g];
    UsedIs(grp);
    bm := NoBits();
    var used := grp.dataStart - grp.first;
    if used > 32768 {
      used := 32768;
    }
    SetBits(bm, 0, used);
    ghost var mid := Bits(bm[..]);
    var groupBlocks := grp.last - grp.first + 1;
    if groupBlocks < 32768 {
      SetBits(bm, groupBlocks, 32768 - groupBlocks);
    }
    MakesUsed(Bits(bm[..]), used, groupBlocks);
  }

  lemma UsedIs(grp: Grp)
    ensures grp.dataStart >= grp.first ==>
      UsedBlocks(grp) == if grp.dataStart - grp.first > 32768 then 32768 else grp.dataStart - grp.first
  {
  }

  lemma MakesUsed(bits: seq<bool>, used: nat, size: nat)
    requires |bits| == 32768 && forall k :: 0 <= k < 32768 ==> bits[k] == (k < used || k >= size)
    ensures UsedOutside(bits, used, size)
  {
  }

  lemma {:induction false} ClearNone(bits: seq<bool>, used: nat, size: nat, n: nat)
    requires UsedOutside(bits, used, size) && used >= size && n <= 32768
    ensures Clear(bits, n) == 0
  {
    if n > 0 { ClearNone(bits, used, size, n - 1); }
  }

  /** The clear bits of a group's block bitmap are its recorded free blocks, also in a group that is too short; but not
      in a first group without room for the two directories, whose count has wrapped around. */
  lemma BlocksCounted(l: Layout, g: nat, bits: seq<bool>)
    requires IsLayout(l) && g < l.plan.groups && |l.grps| == l.plan.groups && PlanOk(l.plan)
    requires UsedOutside(bits, UsedBlocks(l.grps[g]), GroupSize(l.plan, g))
    ensures Clear(bits, 32768) == l.grps[g].freeBlocks <==> g > 0 || BaseGrp(l.plan, 0, true).freeBlocks >= 2
  {
    GroupPlaces(l, g);
    FreeIs(l, g);
    hide *;
    var grp, size := l.grps[g], GroupSize(l.plan, g);
    UsedIs(grp);
    if grp.dataStart - grp.first <= size {
      ClearBetween(bits, grp.dataStart - grp.first, size, 32768);
    } else {
      ClearNone(bits, UsedBlocks(grp), size, 32768);
    }
  }

  /** The recorded count, and when it is what is left of the group. */
  lemma FreeIs(l: Layout, g: nat)
    requires IsLayout(l) && g < l.plan.groups
    ensures var grp, size := l.grps[g], GroupSize(l.plan, g);
            var left := if grp.dataStart - grp.first <= size then size - (grp.dataStart - grp.first) else 0;
            grp.freeBlocks == left <==> g > 0 || BaseGrp(l.plan, 0, true).freeBlocks >= 2
  {
    hide IsBackup, JournalSize, Sub32;
    var p := l.plan;
    if g == 0 {
      var free := BaseGrp(p, 0, true).freeBlocks;
      var j := JournalSize(p.total, free);
      if free >= 2 { ThreeLess(free, j); } else { ThreeWrap(free); }
    }
  }

  lemma ThreeWrap(free: nat)
    requires free < 2
    ensures Sub32(Sub32(Sub32(free, 0), 1), 1) > 32768
  {
  }

  /** The inode bitmap of group g: the first eleven inodes of the filesystem, and the bits past the last inode. */
  method BuildInodeBitmap(l: Layout, g: nat) returns (bm: array<byte>)
    requires IsLayout(l) && g < l.plan.groups
    ensures bm.Length == 4096 && UsedOutside(Bits(bm[..]), if g == 0 then 11 else 0, l.plan.ipg)
  {
    hide *;
    bm := NoBits();
    if g == 0 {
      SetBits(bm, 0, 11);
    }
    if l.plan.ipg < 32768 {
      SetBits(bm, l.plan.ipg, 32768 - l.plan.ipg);
    }
    MakesUsed(Bits(bm[..]), if g == 0 then 11 else 0, l.plan.ipg);
  }

  lemma InodesCounted(l: Layout, g: nat, bits: seq<bool>)
    requires IsLayout(l) && g < l.plan.groups
    requires UsedOutside(bits, if g == 0 then 11 else 0, l.plan.ipg)
    ensures |l.grps| == l.plan.groups && Clear(bits, 32768) == l.grps[g].freeInodes
  {
    GroupPlaces(l, g);
    hide IsLayout, IsBackup, UsedOutside;
    ClearBetween(bits, if g == 0 then 11 else 0, l.plan.ipg, 32768);
  }

  /** Bytes at a place of the image. */
  datatype Piece = Piece(off: nat, bytes: seq<byte>)

  /** What the encoders produce. */
  datatype Content = Content(sb: seq<seq<byte>>, gdt: seq<byte>, blockBitmaps: seq<seq<byte>>, inodeBitmaps: seq<seq<byte>>,
                             table0: seq<byte>, journalSB: seq<byte>, root: seq<byte>, lostFound: seq<byte>)

  predicate Each(s: seq<seq<byte>>, count: nat, size: nat) {
    |s| == count && forall i :: 0 <= i < count ==> |s[i]| == size
  }

  predicate ContentOk(p: Plan, c: Content) {
    && Each(c.sb, p.groups, 1024) && |c.gdt| == p.gdt * 4096 && Each(c.blockBitmaps, p.groups, 4096)
    && Each(c.inodeBitmaps, p.groups, 4096) && |c.table0| == p.ipg * 256
    && |c.journalSB| == 4096 && |c.root| == 4096 && |c.lostFound| == 4096
  }

  ghost predicate PlacedIn(out: seq<byte>, pieces: seq<Piece>) {
    forall i :: 0 <= i < |pieces| ==> Has(out, pieces[i])
  }

  ghost predicate Has(out: seq<byte>, p: Piece) {
    p.off + |p.bytes| <= |out| && out[p.off..p.off + |p.bytes|] == p.bytes
  }

  lemma HasLonger(out: seq<byte>, more: seq<byte>, p: Piece)
    requires Has(out, p)
    ensures Has(out + more, p)
  {
    assert (out + more)[p.off..p.off + |p.bytes|] == out[p.off..p.off + |p.bytes|];
  }

  /** Zero bytes up to `target`; the writer cannot go back. */
  method Pad(out: seq<byte>, target: nat, ghost pieces: seq<Piece>) returns (ok: bool, r: seq<byte>)
    requires PlacedIn(out, pieces)
    ensures ok <==> |out| <= target
    ensures ok ==> |r| == target && PlacedIn(r, pieces)
  {
    hide Has;
    if |out| > target {
      return false, out;
    }
    ghost var zeros := Zeros(target - |out|);
    forall i | 0 <= i < |pieces| ensures Has(out + zeros, pieces[i]) {
      HasLonger(out, zeros, pieces[i]);
    }
    return true, out + Zeros(target - |out|);
  }

  /** Emits bytes at `target`. */
  method EmitAt(out: seq<byte>, target: nat, bytes: seq<byte>, ghost pieces: seq<Piece>) returns (ok: bool, r: seq<byte>)
    requires PlacedIn(out, pieces)
    ensures ok <==> |out| <= target
    ensures ok ==> |r| == target + |bytes| && PlacedIn(r, pieces + [Piece(target, bytes)])
  {
    ok, r := Pad(out, target, pieces);
    if ok {
      hide Has;
      forall i | 0 <= i < |pieces| ensures Has(r + bytes, pieces[i]) {
        HasLonger(r, bytes, pieces[i]);
      }
      r := r + bytes;
    }
  }

  lemma Appended(out: seq<byte>, bytes: seq<byte>)
    ensures Has(out + bytes, Piece(|out|, bytes))
  {
  }

  /** What has to be in the image for group g, and where. */
  ghost function GroupPieces(l: Layout, c: Content, g: nat): seq<Piece>
    requires g < |l.grps| == |c.sb| == |c.blockBitmaps| == |c.inodeBitmaps|
  {
    var grp := l.grps[g];
    if g == 0 then
      [Piece(1024, c.sb[0]), Piece(4096, c.gdt), Piece(grp.blockBitmap * 4096, c.blockBitmaps[0]),
       Piece(grp.inodeBitmap * 4096, c.inodeBitmaps[0]), Piece(grp.inodeTable * 4096, c.table0),
       Piece(l.journalBlock * 4096, Journal(l, c)), Piece(l.rootDirBlock * 4096, c.root), Piece(l.lfDirBlock * 4096, c.lostFound)]
    else
      (if grp.hasSB then [Piece(grp.first * 4096, c.sb[g]), Piece((grp.first + 1) * 4096, c.gdt)] else [])
      + [Piece(grp.blockBitmap * 4096, c.blockBitmaps[g]), Piece(grp.inodeBitmap * 4096, c.inodeBitmaps[g]),
         Piece(grp.inodeTable * 4096, Zeros(l.plan.itb * 4096))]
  }

  /** The journal superblock and zeroed journal blocks; the superblock is written in any case. */
  function Journal(l: Layout, c: Content): seq<byte> {
    c.journalSB + Zeros(if l.journalSize > 1 then (l.journalSize - 1) * 4096 else 0)
  }

  ghost function AllPieces(l: Layout, c: Content, n: nat): seq<Piece>
    requires n <= |l.grps| == |c.sb| == |c.blockBitmaps| == |c.inodeBitmaps|
  {
    if n == 0 then [] else AllPieces(l, c, n - 1) + GroupPieces(l, c, n - 1)
  }

  /** Every later group can hold its structures. */
  ghost predicate GroupsFit(p: Plan) {
    forall g :: 1 <= g < p.groups ==> Overhead(p, IsBackup(g)) <= GroupSize(p, g)
  }

  /** Numbers of group g the writer's cursor depends on. */
  lemma WriterFacts(l: Layout, c: Content, g: nat)
    requires IsLayout(l) && ContentOk(l.plan, c) && g < l.plan.groups
    ensures |l.grps| == l.plan.groups == |c.sb| == |c.blockBitmaps| == |c.inodeBitmaps|
    ensures |c.sb[g]| == 1024 && |c.blockBitmaps[g]| == 4096 && |c.inodeBitmaps[g]| == 4096 && |c.gdt| == l.plan.gdt * 4096
    ensures |c.table0| == l.plan.itb * 4096 && |c.journalSB| == 4096 && |c.root| == 4096 && |c.lostFound| == 4096 && l.plan.gdt >= 1
    ensures var p, grp := l.plan, l.grps[g];
            && grp.blockBitmap == grp.first + (if grp.hasSB then 1 + p.gdt + p.reserved else 0)
            && grp.inodeBitmap == grp.blockBitmap + 1 && grp.inodeTable == grp.blockBitmap + 2
            && (g == 0 ==> grp.first == 0 && grp.hasSB)
            && (g > 0 ==> grp.dataStart == grp.inodeTable + p.itb)
            && (g == 0 ==> l.journalBlock == grp.inodeTable + p.itb && l.rootDirBlock == l.journalBlock + l.journalSize)
            && (g == 0 ==> l.lfDirBlock == l.rootDirBlock + 1 && grp.dataStart == l.lfDirBlock + 1)
            && (g + 1 < p.groups ==> l.grps[g + 1].first == grp.last + 1)
            && (g + 1 == p.groups ==> grp.last + 1 == p.total)
            && (g > 0 ==> (grp.dataStart <= grp.last + 1 <==> Overhead(p, IsBackup(g)) <= GroupSize(p, g)))
            && (g == 0 && l.journalSize >= 1 ==> grp.dataStart <= grp.last + 1)
  {
    GroupPlaces(l, g);
    GroupsTile(l, g);
    hide IsBackup, BaseGrp, FirstGrp;
  }

  /** Group 0: fails exactly if there is no room for a journal block. */
  method WriteFirstGroup(l: Layout, c: Content) returns (ok: bool, out: seq<byte>)
    requires IsLayout(l) && ContentOk(l.plan, c) && |l.grps| == |c.sb| == |c.blockBitmaps| == |c.inodeBitmaps| > 0
    ensures ok <==> l.journalSize >= 1
    ensures ok ==> |out| == l.grps[0].dataStart * 4096 && PlacedIn(out, GroupPieces(l, c, 0))
  {
    hide *;
    HasGroups(l);
    WriterFacts(l, c, 0);
    var p, g0 := l.plan, l.grps[0];
    ghost var ps: seq<Piece> := [];
    NothingPlaced();
    ok, out := EmitAt([], 1024, c.sb[0], ps);
    ps := ps + [Piece(1024, c.sb[0])];
    ok, out := EmitAt(out, 4096, c.gdt, ps);
    ps := ps + [Piece(4096, c.gdt)];
    ok, out := Pad(out, (1 + p.gdt) * 4096, ps);
    ok, out := Pad(out, (1 + p.gdt + p.reserved) * 4096, ps);
    ok, out := EmitAt(out, g0.blockBitmap * 4096, c.blockBitmaps[0], ps);
    ps := ps + [Piece(g0.blockBitmap * 4096, c.blockBitmaps[0])];
    ok, out := EmitAt(out, g0.inodeBitmap * 4096, c.inodeBitmaps[0], ps);
    ps := ps + [Piece(g0.inodeBitmap * 4096, c.inodeBitmaps[0])];
    ok, out := EmitAt(out, g0.inodeTable * 4096, c.table0, ps);
    ps := ps + [Piece(g0.inodeTable * 4096, c.table0)];
    JournalLength(l, c);
    ok, out := EmitAt(out, l.journalBlock * 4096, Journal(l, c), ps);
    ps := ps + [Piece(l.journalBlock * 4096, Journal(l, c))];
    ok, out := EmitAt(out, l.rootDirBlock * 4096, c.root, ps);
    if !ok {
      return;
    }
    ps := ps + [Piece(l.rootDirBlock * 4096, c.root)];
    ok, out := EmitAt(out, l.lfDirBlock * 4096, c.lostFound, ps);
    ps := ps + [Piece(l.lfDirBlock * 4096, c.lostFound)];
    FirstPieces(l, c, ps);
  }

  lemma HasGroups(l: Layout)
    requires IsLayout(l)
    ensures l.plan.groups >= 1 && |l.grps| == l.plan.groups
  {
  }

  lemma NothingPlaced()
    ensures PlacedIn([], [])
  {
  }

  lemma JournalLength(l: Layout, c: Content)
    requires |c.journalSB| == 4096
    ensures |Journal(l, c)| == if l.journalSize >= 1 then l.journalSize * 4096 else 4096
  {
  }

  lemma FirstPieces(l: Layout, c: Content, ps: seq<Piece>)
    requires |l.grps| == |c.sb| == |c.blockBitmaps| == |c.inodeBitmaps| > 0
    requires ps == [] + [Piece(1024, c.sb[0])] + [Piece(4096, c.gdt)] + [Piece(l.grps[0].blockBitmap * 4096, c.blockBitmaps[0])]
      + [Piece(l.grps[0].inodeBitmap * 4096, c.inodeBitmaps[0])] + [Piece(l.grps[0].inodeTable * 4096, c.table0)]
      + [Piece(l.journalBlock * 4096, Journal(l, c))] + [Piece(l.rootDirBlock * 4096, c.root)] + [Piece(l.lfDirBlock * 4096, c.lostFound)]
    ensures ps == GroupPieces(l, c, 0)
  {
    hide Journal;
  }

  /** A later group, behind what is written already. */
  method WriteGroup(l: Layout, c: Content, g: nat, sofar: seq<byte>, ghost before: seq<Piece>) returns (ok: bool, out: seq<byte>)
    requires IsLayout(l) && ContentOk(l.plan, c) && 0 < g < l.plan.groups
    requires g < |l.grps| == |c.sb| == |c.blockBitmaps| == |c.inodeBitmaps|
    requires PlacedIn(sofar, before)
    ensures ok <==> |sofar| <= l.grps[g].first * 4096
    ensures ok ==> |out| == l.grps[g].dataStart * 4096 && PlacedIn(out, before + GroupPieces(l, c, g))
  {
    hide *;
    WriterFacts(l, c, g);
    var p, gl := l.plan, l.grps[g];
    ghost var ps := before;
    out := sofar;
    if gl.hasSB {
      ok, out := EmitAt(out, gl.first * 4096, c.sb[g], ps);
      if !ok {
        return;
      }
      ps := ps + [Piece(gl.first * 4096, c.sb[g])];
      ok, out := EmitAt(out, (gl.first + 1) * 4096, c.gdt, ps);
      ps := ps + [Piece((gl.first + 1) * 4096, c.gdt)];
      ok, out := Pad(out, (gl.first + 1 + p.gdt) * 4096, ps);
      ok, out := Pad(out, (gl.first + 1 + p.gdt + p.reserved) * 4096, ps);
    }
    ok, out := EmitAt(out, gl.blockBitmap * 4096, c.blockBitmaps[g], ps);
    if !ok {
      return;
    }
    ps := ps + [Piece(gl.blockBitmap * 4096, c.blockBitmaps[g])];
    ok, out := EmitAt(out, gl.inodeBitmap * 4096, c.inodeBitmaps[g], ps);
    ps := ps + [Piece(gl.inodeBitmap * 4096, c.inodeBitmaps[g])];
    ok, out := EmitAt(out, gl.inodeTable * 4096, Zeros(p.itb * 4096), ps);
    ps := ps + [Piece(gl.inodeTable * 4096, Zeros(p.itb * 4096))];
    LaterPieces(l, c, g, before, ps);
  }

  lemma LaterPieces(l: Layout, c: Content, g: nat, before: seq<Piece>, ps: seq<Piece>)
    requires 0 < g < |l.grps| == |c.sb| == |c.blockBitmaps| == |c.inodeBitmaps|
    requires var grp := l.grps[g];
             var head := if grp.hasSB then before + [Piece(grp.first * 4096, c.sb[g])] + [Piece((grp.first + 1) * 4096, c.gdt)] else before;
             ps == head + [Piece(grp.blockBitmap * 4096, c.blockBitmaps[g])] + [Piece(grp.inodeBitmap * 4096, c.inodeBitmaps[g])]
               + [Piece(grp.inodeTable * 4096, Zeros(l.plan.itb * 4096))]
    ensures ps == before + GroupPieces(l, c, g)
  {
    hide Zeros;
  }

  /** Emits the whole filesystem in one pass. The cursor would have to go back exactly if there is no room for a
      journal block or some later group is too short for its structures; otherwise the image has exactly the planned
      size, and every structure is where the layout says. */
  method Write(l: Layout, c: Content) returns (r: Option<seq<byte>>)
    requires IsLayout(l) && ContentOk(l.plan, c) && |l.grps| == |c.sb| == |c.blockBitmaps| == |c.inodeBitmaps|
    ensures r.Some? <==> l.journalSize >= 1 && GroupsFit(l.plan)
    ensures r.Some? ==> |r.value| == l.plan.total * 4096 && PlacedIn(r.value, AllPieces(l, c, |l.grps|))
  {
    hide *;
    HasGroups(l);
    var ok, out := WriteFirstGroup(l, c);
    if !ok {
      return None;
    }
    FirstOf(l, c);
    WriterFacts(l, c, 0);
    NoneYet(l.plan);
    for g := 1 to l.plan.groups
      invariant |out| == l.grps[g - 1].dataStart * 4096 && PlacedIn(out, AllPieces(l, c, g)) && FitUpTo(l.plan, g - 1)
      invariant g == 1 ==> l.grps[0].dataStart <= l.grps[0].last + 1
    {
      WriterFacts(l, c, g - 1);
      MorePieces(l, c, g);
      ok, out := WriteGroup(l, c, g, out, AllPieces(l, c, g));
      FitMore(l.plan, g - 1);
      if !ok {
        return None;
      }
    }
    var n := l.plan.groups - 1;
    WriterFacts(l, c, n);
    FitMore(l.plan, n);
    FitAll(l.plan);
    ok, out := Pad(out, l.plan.total * 4096, AllPieces(l, c, |l.grps|));
    if !ok {
      return None;
    }
    return Some(out);
  }

  /** Groups 1 to g - 1 hold their structures. */
  ghost predicate FitUpTo(p: Plan, g: nat) {
    forall k :: 1 <= k < g ==> Overhead(p, IsBackup(k)) <= GroupSize(p, k)
  }

  lemma NoneYet(p: Plan)
    ensures FitUpTo(p, 0)
  {
  }

  lemma FitMore(p: Plan, g: nat)
    requires FitUpTo(p, g)
    ensures FitUpTo(p, g + 1) <==> g == 0 || Overhead(p, IsBackup(g)) <= GroupSize(p, g)
    ensures g < p.groups && !FitUpTo(p, g + 1) ==> !GroupsFit(p)
  {
    hide IsBackup;
  }

  lemma FitAll(p: Plan)
    ensures FitUpTo(p, p.groups) <==> GroupsFit(p)
  {
    hide IsBackup;
  }

  lemma FirstOf(l: Layout, c: Content)
    requires 0 < |l.grps| == |c.sb| == |c.blockBitmaps| == |c.inodeBitmaps|
    ensures AllPieces(l, c, 1) == GroupPieces(l, c, 0)
  {
    assert AllPieces(l, c, 0) == [] && AllPieces(l, c, 1) == [] + GroupPieces(l, c, 0);
  }

  lemma MorePieces(l: Layout, c: Content, g: nat)
    requires g < |l.grps| == |c.sb| == |c.blockBitmaps| == |c.inodeBitmaps|
    ensures AllPieces(l, c, g + 1) == AllPieces(l, c, g) + GroupPieces(l, c, g)
  {
  }

  /** The size of 1998528 full groups, some 268 TB, at the default of one inode per 16384 bytes. */
  const HUGE: nat := 1998528 * 0x800_0000

  lemma HugePlan()
    ensures Sizes(HUGE, 16384) && PlanFor(HUGE, 16384) == Plan(1998528 * 32768, 1998528, 8192, 31227, 1024, 512)
  {
    assert HUGE / 4096 == 1998528 * 32768 && HUGE / 16384 == 1998528 * 8192;
    assert GroupCount(1998528 * 32768) == 1998528;
    assert InodesPerGroup(1998528 * 8192, 1998528) == 8192;
    assert DescriptorBlocks(1998528) == 31227;
    assert DescriptorBlocks(Min(1998528 * 1024, TWO32 - 1)) == 31976448;
  }

  /** A layout with no room for a journal block: every group holds its structures, but those of the first fill it up to
      two blocks, and the writer runs past its own cursor. */
  lemma NoRoomForJournal(l: Layout)
    requires IsLayout(l) && Sizes(HUGE, 16384) && l.plan == PlanFor(HUGE, 16384)
    ensures Roomy(l.plan) && l.journalSize == 0
  {
    HugePlan();
    hide Sizes, PlanFor, IsBackup;
    forall g | 0 <= g < l.plan.groups ensures Overhead(l.plan, IsBackup(g)) <= GroupSize(l.plan, g) {
    }
  }

  /** One block more than a group of 128 MiB: the last group is that block, too short for its structures. */
  lemma ShortLastGroup()
    ensures Sizes(0x800_1000, 16384) && !GroupsFit(PlanFor(0x800_1000, 16384))
  {
    var p := PlanFor(0x800_1000, 16384);
    assert 0x800_1000 / 4096 == 32769 && GroupCount(32769) == 2;
    hide IsBackup;
    assert GroupSize(p, 1) == 1;
    assert Overhead(p, IsBackup(1)) >= 2;
  }
}
