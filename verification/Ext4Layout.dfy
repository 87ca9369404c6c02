/** The layout mkfs gives an ext4 filesystem of 4096-byte blocks: groups, their structures, and their bitmaps. */
module Ext4Layout {
  import opened Bytes
  import opened Ext4Backups

  /** Sizes that all groups share. */
  datatype Plan = Plan(total: nat, groups: nat, ipg: nat, gdt: nat, reserved: nat, itb: nat)

  /** At least 16 MiB, and no more groups than have their backups numbered right. */
  predicate Sizes(size: nat, ratio: nat) {
    0x100_0000 <= size <= 1808548329 * 0x800_0000 && ratio >= 1
  }

  function Min(a: nat, b: nat): nat {
    if a <= b then a else b
  }

  /** Number of groups, in 32 bits. */
  function GroupCount(total: nat): nat {
    (total + 32767) / 32768 % TWO32
  }

  /** Inodes per group: at least one table block full, at most one bitmap block full. */
  function InodesPerGroup(raw: nat, groups: nat): (r: nat)
    requires groups > 0
    ensures 16 <= r <= 32768 && r % 16 == 0
  {
    var perGroup := (raw + groups - 1) / groups % TWO32;
    var aligned := (perGroup + 15) % TWO32 / 16 * 16;
    if aligned < 16 then 16 else if aligned > 32768 then 32768 else aligned
  }

  function DescriptorBlocks(groups: nat): nat {
    (groups * 64 + 4095) / 4096
  }

  /** Descriptor blocks kept free for growth, at most 1024. */
  function Reserved(groups: nat): (r: nat)
    ensures r <= 1024
  {
    var max := DescriptorBlocks(Min(groups * 1024, TWO32 - 1));
    if max > DescriptorBlocks(groups) then Min(max - DescriptorBlocks(groups), 1024) else 0
  }

  function PlanFor(size: nat, ratio: nat): Plan
    requires Sizes(size, ratio)
  {
    var total := size / 4096;
    var groups := GroupCount(total);
    var ipg := InodesPerGroup(size / ratio, groups);
    Plan(total, groups, ipg, DescriptorBlocks(groups), Reserved(groups), (ipg * 256 + 4095) / 4096)
  }

  lemma GroupsBound(total: nat)
    requires 4096 <= total <= 1808548329 * 32768
    ensures 1 <= GroupCount(total) <= 1808548329
    ensures 32768 * (GroupCount(total) - 1) < total <= 32768 * GroupCount(total)
  {
  }

  ghost predicate PlanOk(p: Plan) {
    && 1 <= p.groups <= 1808548329 && 4096 <= p.total && 32768 * (p.groups - 1) < p.total <= 32768 * p.groups
    && 16 <= p.ipg <= 32768 && p.itb * 16 == p.ipg && 1 <= p.gdt && p.groups * 64 <= p.gdt * 4096 && p.reserved <= 1024
    && p.gdt <= 0x200_0000
  }

  lemma PlanFacts(size: nat, ratio: nat)
    requires Sizes(size, ratio)
    ensures PlanOk(PlanFor(size, ratio))
  {
    hide InodesPerGroup, Reserved, GroupCount;
    GroupsBound(size / 4096);
    var p := PlanFor(size, ratio);
  }

  /** Inodes per group are the fewest, in steps of 16, with which all groups together have the inodes asked for; at most 32768. */
  ghost predicate InodesExact(p: Plan, wanted: nat) {
    (p.ipg == 32768 || p.ipg * p.groups >= wanted) && (p.ipg == 16 || (p.ipg - 16) * p.groups < wanted)
  }

  /** Descriptor blocks are the fewest that hold a descriptor of 64 bytes a group; with those kept free there are as many as 1024
      times the groups would need, or 1024 more. */
  ghost predicate DescriptorsExact(p: Plan) {
    var most := Min(p.groups * 1024, 0xFFFF_FFFF);
    && p.groups * 64 <= p.gdt * 4096 && (p.gdt - 1) * 4096 < p.groups * 64
    && (p.reserved == 1024 || most * 64 <= (p.gdt + p.reserved) * 4096)
    && (p.reserved == 0 || (p.gdt + p.reserved - 1) * 4096 < most * 64)
  }

  ghost predicate SizesExact(p: Plan, size: nat, ratio: nat)
    requires Sizes(size, ratio)
  {
    p.total == size / 4096 && InodesExact(p, size / ratio) && DescriptorsExact(p)
  }

  /** The sizes are exactly those, for every size and inode ratio. */
  lemma PlanExact(size: nat, ratio: nat)
    requires Sizes(size, ratio)
    ensures SizesExact(PlanFor(size, ratio), size, ratio)
  {
    var groups := GroupCount(size / 4096);
    GroupsBound(size / 4096);
    FewerInodes(size, ratio);
    FewestInodes(size / ratio, groups);
    DescriptorsFit(groups);
    hide InodesPerGroup, GroupCount, Reserved, DescriptorBlocks;
  }

  lemma FewerInodes(size: nat, ratio: nat)
    requires Sizes(size, ratio)
    ensures size / ratio <= GroupCount(size / 4096) * 0x800_0000 + 4096
  {
    GroupsBound(size / 4096);
    hide GroupCount;
    QuotientLess(size, ratio);
  }

  lemma QuotientLess(a: nat, b: nat)
    requires b >= 1
    ensures a / b <= a
  {
    hide *;
    var q := a / b;
    assert a == b * q + a % b;
    assert b * q == (b - 1) * q + q;
  }

  lemma FewestInodes(wanted: nat, groups: nat)
    requires 1 <= groups && wanted <= groups * 0x800_0000 + 4096
    ensures var r := InodesPerGroup(wanted, groups);
            && 16 <= r <= 32768 && (r == 32768 || r * groups >= wanted) && (r == 16 || (r - 16) * groups < wanted)
  {
    var c := (wanted + groups - 1) / groups;
    CeilingOf(wanted, groups, c);
    var r := InodesPerGroup(wanted, groups);
    StepsOf16(c, r);
    hide *;
    if r != 32768 { Larger(c, r, groups); }
    if r != 16 { Larger(r - 16, c - 1, groups); }
  }

  /** Rounding up to a multiple of 16 between 16 and 32768. */
  lemma StepsOf16(c: nat, r: nat)
    requires c <= 0x800_0000 + 4096
    requires var a := (c % TWO32 + 15) % TWO32 / 16 * 16; r == if a < 16 then 16 else if a > 32768 then 32768 else a
    ensures 16 <= r <= 32768 && (r != 32768 ==> c <= r) && (r != 16 ==> r - 16 < c)
  {
  }

  lemma CeilingOf(x: nat, d: nat, c: nat)
    requires d >= 1 && c == (x + d - 1) / d && x <= d * 0x800_0000 + 4096
    ensures x <= c * d && (c > 0 ==> (c - 1) * d < x) && c <= 0x800_0000 + 4096
  {
    hide *;
    assert x + d - 1 == d * c + (x + d - 1) % d;
    if c > 0x800_0000 + 4096 { Larger(0x800_0000 + 4097, c, d); }
  }

  lemma Larger(a: nat, b: nat, d: nat)
    requires a <= b
    ensures a * d <= b * d
  {
  }

  lemma DescriptorsFit(groups: nat)
    requires 1 <= groups <= 1808548329
    ensures var gdt, reserved, most := DescriptorBlocks(groups), Reserved(groups), Min(groups * 1024, 0xFFFF_FFFF);
            && groups * 64 <= gdt * 4096 && (gdt - 1) * 4096 < groups * 64
            && (reserved == 1024 || most * 64 <= (gdt + reserved) * 4096)
            && (reserved == 0 || (gdt + reserved - 1) * 4096 < most * 64)
  {
  }

  datatype Grp = Grp(first: nat, last: nat, hasSB: bool, blockBitmap: nat, inodeBitmap: nat, inodeTable: nat,
                     dataStart: nat, freeBlocks: nat, freeInodes: nat)

  datatype Layout = Layout(plan: Plan, grps: seq<Grp>, journalBlock: nat, journalSize: nat, rootDirBlock: nat, lfDirBlock: nat)

  /** Blocks in group g. */
  function GroupSize(p: Plan, g: nat): int {
    Min(32768, if p.total >= 32768 * g then p.total - 32768 * g else 0)
  }

  /** Blocks of a group's own structures. */
  function Overhead(p: Plan, sb: bool): nat {
    (if sb then 1 + p.gdt + p.reserved else 0) + 2 + p.itb
  }

  /** A group before anything is put into its data area. */
  function BaseGrp(p: Plan, g: nat, sb: bool): Grp
    requires PlanOk(p) && g < p.groups
  {
    var first := 32768 * g;
    var size := GroupSize(p, g);
    var bb := first + (if sb then 1 + p.gdt + p.reserved else 0);
    var used := Overhead(p, sb);
    Grp(first, first + size - 1, sb, bb, bb + 1, bb + 2, first + used, if size > used then size - used else 0, p.ipg)
  }

  function Sub32(a: nat, b: nat): nat {
    (a + TWO32 - b % TWO32) % TWO32
  }

  /** At most 32768 blocks, a quarter of the filesystem or 1024 if that is more, and two free blocks are left. */
  predicate JournalFits(total: nat, free: nat, j: nat) {
    j <= 32768 && (j <= 1024 || j <= total / 4) && j + 2 <= free
  }

  /** The largest journal that fits. */
  function JournalSize(total: nat, free: nat): (j: nat)
    ensures if free < 3 then j == 0 else JournalFits(total, free, j)
    ensures forall k: nat :: JournalFits(total, free, k) ==> k <= j
  {
    var want := if 32768 > total / 4 then total / 4 else 32768;
    var atLeast := if want < 1024 then 1024 else want;
    var max := if free > 2 then free - 2 else 0;
    if atLeast > max then max else atLeast
  }

  /** Group 0 with journal, root directory and lost+found at the start of its data area. */
  function FirstGrp(p: Plan): Grp
    requires PlanOk(p)
  {
    var b := BaseGrp(p, 0, true);
    var j := JournalSize(p.total, b.freeBlocks);
    b.(dataStart := b.dataStart + j + 2, freeBlocks := Sub32(Sub32(Sub32(b.freeBlocks, j), 1), 1), freeInodes := p.ipg - 11)
  }

  ghost predicate IsLayout(l: Layout) {
    var p := l.plan;
    && PlanOk(p) && |l.grps| == p.groups && l.grps[0] == FirstGrp(p)
    && (forall g :: 1 <= g < p.groups ==> l.grps[g] == BaseGrp(p, g, IsBackup(g)))
    && var b := BaseGrp(p, 0, true);
       && l.journalBlock == b.dataStart && l.journalSize == JournalSize(p.total, b.freeBlocks)
       && l.rootDirBlock == b.dataStart + l.journalSize && l.lfDirBlock == l.rootDirBlock + 1
  }

  /** Every group can hold its structures, and the first one two directory blocks besides. */
  ghost predicate Roomy(p: Plan) {
    && (forall g :: 0 <= g < p.groups ==> Overhead(p, IsBackup(g)) <= GroupSize(p, g))
    && Overhead(p, true) + 2 <= GroupSize(p, 0)
  }

  /** The journal is the largest one that fits behind the inode table of group 0, or there is none. */
  ghost predicate LargestJournal(l: Layout) {
    var free := if GroupSize(l.plan, 0) > Overhead(l.plan, true) then GroupSize(l.plan, 0) - Overhead(l.plan, true) else 0;
    && (if free < 3 then l.journalSize == 0 else JournalFits(l.plan.total, free, l.journalSize))
    && forall k: nat :: JournalFits(l.plan.total, free, k) ==> k <= l.journalSize
  }

  lemma JournalExact(l: Layout)
    requires IsLayout(l)
    ensures LargestJournal(l)
  {
    hide JournalFits, FirstGrp, IsBackup;
  }

  /** Computes the layout: the sizes that all groups share, the groups, and the files in group 0. */
  method ComputeLayout(size: nat, ratio: nat) returns (l: Layout)
    requires Sizes(size, ratio)
    ensures SizesExact(l.plan, size, ratio) && LargestJournal(l)
    ensures l.plan == PlanFor(size, ratio) && IsLayout(l)
  {
    hide *;
    PlanFacts(size, ratio);
    PlanExact(size, ratio);
    l := LayGroups(PlanFor(size, ratio));
    JournalExact(l);
  }

  /** One group after the other, then journal and directories. */
  method LayGroups(p: Plan) returns (l: Layout)
    requires PlanOk(p)
    ensures IsLayout(l) && l.plan == p
  {
    hide *;
    GroupRange(p);
    ZeroIsBackup();
    var grps: seq<Grp> := [];
    for g := 0 to p.groups
      invariant |grps| == g && forall i :: 0 <= i < g ==> grps[i] == BaseGrp(p, i, IsBackup(i))
    {
      var sb := HasSuperBackup(g);
      var grp := PlaceGroup(p, g, sb);
      grps := grps + [grp];
    }
    l := PlaceFiles(p, grps);
  }

  /** One group: a cursor moves over its structures. */
  method PlaceGroup(p: Plan, g: nat, sb: bool) returns (grp: Grp)
    requires PlanOk(p) && g < p.groups
    ensures grp == BaseGrp(p, g, sb)
  {
    var first := g * 32768;
    var last := first + 32768 - 1;
    if last >= p.total {
      last := p.total - 1;
    }
    var groupBlocks := last - first + 1;
    var cur := first;
    if sb {
      cur := cur + 1;
      cur := cur + p.gdt;
      cur := cur + p.reserved;
    }
    var blockBitmap := cur;
    cur := cur + 1;
    var inodeBitmap := cur;
    cur := cur + 1;
    var inodeTable := cur;
    cur := cur + p.itb;
    var used := cur - first;
    var free := 0;
    if groupBlocks > used {
      free := groupBlocks - used;
    }
    grp := Grp(first, last, sb, blockBitmap, inodeBitmap, inodeTable, cur, free, p.ipg);
  }

  /** Journal, root directory and lost+found go to group 0. */
  method PlaceFiles(p: Plan, grps: seq<Grp>) returns (l: Layout)
    requires PlanOk(p) && |grps| == p.groups && grps[0] == BaseGrp(p, 0, true)
    requires forall g :: 1 <= g < p.groups ==> grps[g] == BaseGrp(p, g, IsBackup(g))
    ensures IsLayout(l) && l.plan == p
  {
    hide BaseGrp, IsBackup, Sub32, JournalSize;
    var g0 := grps[0];
    var j := JournalSize(p.total, g0.freeBlocks);
    var journal := g0.dataStart;
    g0 := g0.(dataStart := g0.dataStart + j, freeBlocks := Sub32(g0.freeBlocks, j));
    var root := g0.dataStart;
    g0 := g0.(dataStart := g0.dataStart + 1, freeBlocks := Sub32(g0.freeBlocks, 1));
    var lf := g0.dataStart;
    g0 := g0.(dataStart := g0.dataStart + 1, freeBlocks := Sub32(g0.freeBlocks, 1));
    g0 := g0.(freeInodes := p.ipg - 11);
    l := Layout(p, grps[0 := g0], journal, j, root, lf);
  }

  lemma GroupRange(p: Plan)
    requires PlanOk(p)
    ensures 1 <= p.groups <= 1808548329
  {
  }

  lemma ZeroIsBackup()
    ensures IsBackup(0)
  {
  }

  /** A range of blocks. */
  datatype Seg = Seg(start: nat, len: nat)

  /** The structures of group g, from its first block on. */
  ghost function Structures(l: Layout, g: nat): seq<Seg>
    requires g < |l.grps|
  {
    var p, grp := l.plan, l.grps[g];
    HeadOf(p, grp) + OwnOf(p, grp) + (if g == 0 then FilesOf(l) else [])
  }

  /** Superblock copy, descriptors and reserved descriptor blocks. */
  function HeadOf(p: Plan, grp: Grp): seq<Seg> {
    if grp.hasSB then [Seg(grp.first, 1), Seg(grp.first + 1, p.gdt), Seg(grp.first + 1 + p.gdt, p.reserved)] else []
  }

  /** Bitmaps and inode table. */
  function OwnOf(p: Plan, grp: Grp): seq<Seg> {
    [Seg(grp.blockBitmap, 1), Seg(grp.inodeBitmap, 1), Seg(grp.inodeTable, p.itb)]
  }

  /** Journal, root directory and lost+found. */
  function FilesOf(l: Layout): seq<Seg> {
    [Seg(l.journalBlock, l.journalSize), Seg(l.rootDirBlock, 1), Seg(l.lfDirBlock, 1)]
  }

  /** The ranges follow each other without gap from `from` to `to`. */
  predicate Chain(segs: seq<Seg>, from: nat, to: nat) {
    if segs == [] then from == to
    else segs[0].start == from && Chain(segs[1..], from + segs[0].len, to)
  }

  lemma {:induction false} ChainAppend(a: seq<Seg>, b: seq<Seg>, from: nat, mid: nat, to: nat)
    requires Chain(a, from, mid) && Chain(b, mid, to)
    ensures Chain(a + b, from, to)
  {
    if a == [] {
      assert a + b == b;
    } else {
      assert (a + b)[0] == a[0] && (a + b)[1..] == a[1..] + b;
      ChainAppend(a[1..], b, from + a[0].len, mid, to);
    }
  }

  /** Ranges in a chain do not overlap and stay inside it. */
  lemma {:induction false} ChainDisjoint(segs: seq<Seg>, from: nat, to: nat, i: nat, j: nat)
    requires Chain(segs, from, to) && i < j < |segs|
    ensures from <= segs[i].start && segs[i].start + segs[i].len <= segs[j].start && segs[j].start + segs[j].len <= to
  {
    ChainInside(segs, from, to, i);
    ChainInside(segs, from, to, j);
    if i == 0 {
      ChainInside(segs[1..], from + segs[0].len, to, j - 1);
    } else {
      ChainDisjoint(segs[1..], from + segs[0].len, to, i - 1, j - 1);
    }
  }

  lemma {:induction false} ChainInside(segs: seq<Seg>, from: nat, to: nat, i: nat)
    requires Chain(segs, from, to) && i < |segs|
    ensures from <= segs[i].start && segs[i].start + segs[i].len <= to
  {
    ChainOrder(segs, from, to);
    if i > 0 {
      ChainInside(segs[1..], from + segs[0].len, to, i - 1);
    } else {
      ChainOrder(segs[1..], from + segs[0].len, to);
    }
  }

  lemma {:induction false} ChainOrder(segs: seq<Seg>, from: nat, to: nat)
    requires Chain(segs, from, to)
    ensures from <= to
  {
    if segs != [] { ChainOrder(segs[1..], from + segs[0].len, to); }
  }

  lemma ThreeChain(a: Seg, b: Seg, c: Seg)
    requires b.start == a.start + a.len && c.start == b.start + b.len
    ensures Chain([a, b, c], a.start, c.start + c.len)
  {
    assert [a, b, c][1..] == [b, c] && [b, c][1..] == [c] && [c][1..] == [];
    assert Chain([c], c.start, c.start + c.len);
    assert Chain([b, c], b.start, c.start + c.len);
  }

  /** The structures of a group lie one behind the other, inside the group, up to its data area. */
  lemma StructuresChain(l: Layout, g: nat)
    requires IsLayout(l) && Roomy(l.plan) && g < l.plan.groups
    ensures var grp := l.grps[g]; Chain(Structures(l, g), grp.first, grp.dataStart) && grp.dataStart <= grp.last + 1
  {
    GroupFacts(l, g);
    var p, grp := l.plan, l.grps[g];
    hide IsLayout, Roomy, Chain, HeadOf, OwnOf, FilesOf;
    var end := grp.inodeTable + p.itb;
    HeadChain(p, grp);
    OwnChain(p, grp);
    FilesChain(l);
    ChainAppend(HeadOf(p, grp), OwnOf(p, grp), grp.first, grp.blockBitmap, end);
    ChainAppend(HeadOf(p, grp) + OwnOf(p, grp), if g == 0 then FilesOf(l) else [], grp.first, end, grp.dataStart);
  }

  lemma HeadChain(p: Plan, grp: Grp)
    requires grp.blockBitmap == grp.first + (if grp.hasSB then 1 + p.gdt + p.reserved else 0)
    ensures Chain(HeadOf(p, grp), grp.first, grp.blockBitmap)
  {
    if grp.hasSB { ThreeChain(Seg(grp.first, 1), Seg(grp.first + 1, p.gdt), Seg(grp.first + 1 + p.gdt, p.reserved)); }
  }

  lemma OwnChain(p: Plan, grp: Grp)
    requires grp.inodeBitmap == grp.blockBitmap + 1 && grp.inodeTable == grp.blockBitmap + 2
    ensures Chain(OwnOf(p, grp), grp.blockBitmap, grp.inodeTable + p.itb)
  {
    ThreeChain(Seg(grp.blockBitmap, 1), Seg(grp.inodeBitmap, 1), Seg(grp.inodeTable, p.itb));
  }

  lemma FilesChain(l: Layout)
    ensures l.rootDirBlock == l.journalBlock + l.journalSize && l.lfDirBlock == l.rootDirBlock + 1 ==>
      Chain(FilesOf(l), l.journalBlock, l.lfDirBlock + 1)
  {
    if l.rootDirBlock == l.journalBlock + l.journalSize && l.lfDirBlock == l.rootDirBlock + 1 {
      ThreeChain(Seg(l.journalBlock, l.journalSize), Seg(l.rootDirBlock, 1), Seg(l.lfDirBlock, 1));
    }
  }

  /** Where things are in group g, whether they fit or not. */
  lemma GroupPlaces(l: Layout, g: nat)
    requires IsLayout(l) && g < l.plan.groups
    ensures var p, grp := l.plan, l.grps[g];
            && grp.first == 32768 * g && grp.last + 1 == grp.first + GroupSize(p, g) && grp.hasSB == IsBackup(g)
            && grp.blockBitmap == grp.first + (if grp.hasSB then 1 + p.gdt + p.reserved else 0)
            && grp.inodeBitmap == grp.blockBitmap + 1 && grp.inodeTable == grp.blockBitmap + 2
            && (g > 0 ==> grp.dataStart == grp.inodeTable + p.itb && grp.freeInodes == p.ipg)
            && (g == 0 ==> l.journalBlock == grp.inodeTable + p.itb && l.rootDirBlock == l.journalBlock + l.journalSize)
            && (g == 0 ==> l.lfDirBlock == l.rootDirBlock + 1 && grp.dataStart == l.lfDirBlock + 1 && grp.freeInodes == p.ipg - 11)
    ensures 1 <= GroupSize(l.plan, g) <= 32768
    ensures g > 0 ==> (l.grps[g].dataStart <= l.grps[g].last + 1 <==> Overhead(l.plan, IsBackup(g)) <= GroupSize(l.plan, g))
    ensures g == 0 && l.journalSize >= 1 ==> l.grps[0].dataStart <= l.grps[0].last + 1
  {
    hide IsBackup, JournalSize;
    ZeroIsBackup();
    if g == 0 { JournalLeavesTwo(l.plan.total, BaseGrp(l.plan, 0, true).freeBlocks); }
  }

  lemma JournalLeavesTwo(total: nat, free: nat)
    ensures JournalSize(total, free) >= 1 ==> JournalSize(total, free) + 2 <= free
  {
  }

  /** Where every group can hold its structures, its free blocks are what is left. */
  lemma GroupFacts(l: Layout, g: nat)
    requires IsLayout(l) && Roomy(l.plan) && g < l.plan.groups
    ensures var p, grp := l.plan, l.grps[g];
            && grp.first == 32768 * g && grp.last + 1 == grp.first + GroupSize(p, g) && grp.hasSB == IsBackup(g)
            && grp.blockBitmap == grp.first + (if grp.hasSB then 1 + p.gdt + p.reserved else 0)
            && grp.inodeBitmap == grp.blockBitmap + 1 && grp.inodeTable == grp.blockBitmap + 2
            && grp.dataStart <= grp.last + 1 && grp.freeBlocks == grp.last + 1 - grp.dataStart
            && (g > 0 ==> grp.dataStart == grp.inodeTable + p.itb && grp.freeInodes == p.ipg)
            && (g == 0 ==> l.journalBlock == grp.inodeTable + p.itb && l.rootDirBlock == l.journalBlock + l.journalSize)
            && (g == 0 ==> l.lfDirBlock == l.rootDirBlock + 1 && grp.dataStart == l.lfDirBlock + 1 && grp.freeInodes == p.ipg - 11)
  {
    GroupPlaces(l, g);
    hide IsBackup, JournalSize;
    var p := l.plan;
    assert Overhead(p, IsBackup(g)) <= GroupSize(p, g);
    if g == 0 {
      var b := BaseGrp(p, 0, true);
      ThreeLess(b.freeBlocks, JournalSize(p.total, b.freeBlocks));
    }
  }

  lemma ThreeLess(free: nat, j: nat)
    requires j + 2 <= free <= 32768
    ensures Sub32(Sub32(Sub32(free, j), 1), 1) == free - j - 2
  {
    OneSub(free, j);
  }

  lemma OneSub(a: nat, b: nat)
    requires b <= a <= 32768
    ensures Sub32(a, b) == a - b
  {
  }

  /** The groups themselves tile the filesystem. */
  lemma GroupsTile(l: Layout, g: nat)
    requires IsLayout(l) && g < l.plan.groups
    ensures l.grps[0].first == 0
    ensures g + 1 < l.plan.groups ==> l.grps[g + 1].first == l.grps[g].last + 1
    ensures g + 1 == l.plan.groups ==> l.grps[g].last + 1 == l.plan.total
  {
    GroupPlaces(l, 0);
    GroupPlaces(l, g);
    if g + 1 < l.plan.groups { GroupPlaces(l, g + 1); }
    hide BaseGrp, FirstGrp, IsBackup;
  }

  /** Structures of different groups do not meet either. */
  lemma GroupsApart(l: Layout, g: nat, h: nat, i: nat, j: nat)
    requires IsLayout(l) && Roomy(l.plan) && g < h < l.plan.groups && i < |Structures(l, g)| && j < |Structures(l, h)|
    ensures Structures(l, g)[i].start + Structures(l, g)[i].len <= Structures(l, h)[j].start
    ensures Structures(l, h)[j].start + Structures(l, h)[j].len <= l.plan.total
  {
    StructuresChain(l, g);
    StructuresChain(l, h);
    GroupFacts(l, g);
    GroupFacts(l, h);
    hide IsLayout, Structures, Roomy, Chain, IsBackup;
    ChainInside(Structures(l, g), l.grps[g].first, l.grps[g].dataStart, i);
    ChainInside(Structures(l, h), l.grps[h].first, l.grps[h].dataStart, j);
  }
}
