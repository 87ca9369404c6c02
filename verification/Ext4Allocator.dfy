/** The ext4 block allocator: group bitmaps, group counters and the superblock counter. */
module Ext4Allocator {
  import opened Wrappers
  import opened Bytes
  import opened Bitmap
  import opened Chunks

  /** A group descriptor's free count in two 16-bit halves, and the group's block bitmap. */
  datatype Group = Group(freeLo: nat, freeHi: nat, bitmap: seq<byte>)

  /** `start` is 1 on volumes with 1 KiB blocks, 0 otherwise; `free` is the superblock's low word. */
  datatype State = State(bpg: nat, start: nat, groups: seq<Group>, free: nat)

  function FreeCount(g: Group): nat {
    g.freeLo + 0x1_0000 * g.freeHi
  }

  function WithFree(g: Group, n: nat): Group {
    g.(freeLo := n % 0x1_0000, freeHi := n / 0x1_0000 % 0x1_0000)
  }

  ghost predicate GroupOk(g: Group, bpg: nat) {
    bpg <= 8 * |g.bitmap| && FreeCount(g) == Clear(Bits(g.bitmap), bpg)
  }

  ghost function Total(groups: seq<Group>): nat {
    if groups == [] then 0 else Total(groups[..|groups| - 1]) + FreeCount(groups[|groups| - 1])
  }

  lemma {:induction false} TotalUpdate(groups: seq<Group>, i: nat, g: Group)
    requires i < |groups|
    ensures Total(groups[i := g]) == Total(groups) - FreeCount(groups[i]) + FreeCount(g)
  {
    var k := |groups| - 1;
    if i < k {
      TotalUpdate(groups[..k], i, g);
      assert groups[i := g][..k] == groups[..k][i := g];
    } else {
      assert groups[i := g][..k] == groups[..k];
    }
  }

  lemma {:induction false} TotalHasNone(groups: seq<Group>)
    ensures Total(groups) == 0 <==> forall g :: 0 <= g < |groups| ==> FreeCount(groups[g]) == 0
  {
    if groups != [] {
      var k := |groups| - 1;
      TotalHasNone(groups[..k]);
      assert forall g :: 0 <= g < k ==> groups[..k][g] == groups[g];
    }
  }

  /** Every group counts the clear bits of its bitmap, and the superblock counts them all. */
  ghost predicate Inv(s: State) {
    && 0 < s.bpg < TWO32 && s.start <= 1 && 0 <= s.free < TWO32
    && (forall i :: 0 <= i < |s.groups| ==> GroupOk(s.groups[i], s.bpg))
    && s.free == Total(s.groups) % TWO32
  }

  function Number(s: State, g: nat, bit: nat): nat {
    Times(g, s.bpg) + s.start + bit
  }

  function GroupOf(s: State, b: nat): nat
    requires s.bpg > 0 && b >= s.start
  {
    (b - s.start) / s.bpg
  }

  function BitIn(s: State, b: nat): nat
    requires s.bpg > 0 && b >= s.start
  {
    (b - s.start) % s.bpg
  }

  /** Block numbers and (group, bit) pairs correspond. */
  lemma NumberInverse(s: State, g: nat, bit: nat)
    requires s.bpg > 0 && bit < s.bpg
    ensures GroupOf(s, Number(s, g, bit)) == g && BitIn(s, Number(s, g, bit)) == bit
  {
    TimesIsProduct(g, s.bpg);
    DivMod(g, bit, s.bpg);
  }

  lemma NumberOf(s: State, b: nat)
    requires s.bpg > 0 && b >= s.start
    ensures Number(s, GroupOf(s, b), BitIn(s, b)) == b && BitIn(s, b) < s.bpg
  {
    TimesIsProduct(GroupOf(s, b), s.bpg);
    var x: nat, q: nat := b - s.start, (b - s.start) / s.bpg;
    assert x == q * s.bpg + x % s.bpg;
  }

  /** Block b belongs to a group. */
  predicate InRange(s: State, b: nat) {
    s.bpg > 0 && b >= s.start && GroupOf(s, b) < |s.groups|
  }

  /** Block b is marked in use. */
  ghost predicate Used(s: State, b: nat) {
    InRange(s, b) && BitIn(s, b) < 8 * |s.groups[GroupOf(s, b)].bitmap| && Bits(s.groups[GroupOf(s, b)].bitmap)[BitIn(s, b)]
  }

  function WithBit(bm: seq<byte>, k: nat, on: bool): (r: seq<byte>)
    requires k < 8 * |bm|
    ensures |r| == |bm|
  {
    ByteBound(bm[k / 8], k % 8, on);
    bm[k / 8 := PutBit(bm[k / 8], k % 8, on)]
  }

  lemma WithBitBits(bm: seq<byte>, k: nat, on: bool)
    requires k < 8 * |bm|
    ensures Bits(WithBit(bm, k, on)) == Bits(bm)[k := on]
  {
    BitsUpdate(bm, k, on);
  }

  /** One bit set or cleared, with the counters following. */
  function Marked(s: State, g: nat, k: nat, on: bool): State
    requires g < |s.groups| && k < 8 * |s.groups[g].bitmap|
  {
    var gd := s.groups[g];
    var n := if on then FreeCount(gd) + TWO32 - 1 else FreeCount(gd) + 1;
    var free := if on then s.free + TWO32 - 1 else s.free + 1;
    s.(groups := s.groups[g := WithFree(gd.(bitmap := WithBit(gd.bitmap, k, on)), n % TWO32)], free := free % TWO32)
  }

  lemma CountFits(g: Group, n: nat)
    requires n < TWO32
    ensures FreeCount(WithFree(g, n)) == n
  {
  }

  lemma WordStep(total: nat, free: nat)
    requires free == total % TWO32
    ensures (free + 1) % TWO32 == (total + 1) % TWO32
    ensures total > 0 ==> (free + TWO32 - 1) % TWO32 == (total - 1) % TWO32
  {
    SameWord(total, free, 1);
    SameWord(total, free, TWO32 - 1);
    if total > 0 { SameWord(total + TWO32 - 1, total - 1, 0); }
  }

  lemma SameWord(a: nat, b: nat, d: nat)
    requires a % 0x1_0000_0000 == b % 0x1_0000_0000
    ensures (a + d) % 0x1_0000_0000 == (b + d) % 0x1_0000_0000
  {
    var k: int := a / 0x1_0000_0000 - b / 0x1_0000_0000;
    assert a + d == b + d + 0x1_0000_0000 * k;
  }

  /** The counters of one group follow its bitmap. */
  lemma MarkedGroup(g: Group, bpg: nat, k: nat, on: bool)
    requires GroupOk(g, bpg) && bpg < TWO32 && k < bpg && Bits(g.bitmap)[k] != on
    ensures var n := if on then FreeCount(g) + TWO32 - 1 else FreeCount(g) + 1;
            var g' := WithFree(g.(bitmap := WithBit(g.bitmap, k, on)), n % TWO32);
            GroupOk(g', bpg) && FreeCount(g') == if on then FreeCount(g) - 1 else FreeCount(g) + 1
    ensures on ==> FreeCount(g) > 0
  {
    var bits := Bits(g.bitmap);
    ClearUpdate(bits, bpg, k, on);
    ClearBound(bits, bpg);
    ClearBound(bits[k := on], bpg);
    WithBitBits(g.bitmap, k, on);
    hide Clear, WithBit, WithFree, FreeCount;
    var n := if on then FreeCount(g) + TWO32 - 1 else FreeCount(g) + 1;
    SmallCount(FreeCount(g), on);
    CountFits(g.(bitmap := WithBit(g.bitmap, k, on)), n % TWO32);
  }

  lemma SmallCount(c: nat, on: bool)
    requires c < TWO32 && (on ==> c > 0) && (!on ==> c + 1 < TWO32)
    ensures (if on then c + TWO32 - 1 else c + 1) % TWO32 == if on then c - 1 else c + 1
  {
  }

  /** Marking keeps the counters right. */
  lemma MarkedInv(s: State, g: nat, k: nat, on: bool)
    requires Inv(s) && g < |s.groups| && k < s.bpg && k < 8 * |s.groups[g].bitmap| && Bits(s.groups[g].bitmap)[k] != on
    ensures Inv(Marked(s, g, k, on))
  {
    hide *;
    var gd := s.groups[g];
    InvParts(s, g);
    MarkedGroup(gd, s.bpg, k, on);
    MarkedIs(s, g, k, on);
    var s' := Marked(s, g, k, on);
    TotalUpdate(s.groups, g, s'.groups[g]);
    TotalHas(s.groups, g);
    WordStep(Total(s.groups), s.free);
    StillInv(s, s', g);
  }

  lemma InvParts(s: State, g: nat)
    requires Inv(s) && g < |s.groups|
    ensures 0 < s.bpg < TWO32 && GroupOk(s.groups[g], s.bpg) && s.free == Total(s.groups) % TWO32 && s.bpg <= 8 * |s.groups[g].bitmap|
  {
  }

  lemma MarkedIs(s: State, g: nat, k: nat, on: bool)
    requires g < |s.groups| && k < 8 * |s.groups[g].bitmap|
    ensures var gd := s.groups[g];
            var n := if on then FreeCount(gd) + TWO32 - 1 else FreeCount(gd) + 1;
            var free := if on then s.free + TWO32 - 1 else s.free + 1;
            Marked(s, g, k, on)
            == State(s.bpg, s.start, s.groups[g := WithFree(gd.(bitmap := WithBit(gd.bitmap, k, on)), n % TWO32)], free % TWO32)
  {
    hide FreeCount, WithFree, WithBit;
  }

  lemma StillInv(s: State, s': State, g: nat)
    requires Inv(s) && g < |s.groups| && s'.bpg == s.bpg && s'.start == s.start && |s'.groups| == |s.groups|
    requires s'.groups == s.groups[g := s'.groups[g]] && GroupOk(s'.groups[g], s.bpg)
    requires s'.free == Total(s'.groups) % TWO32
    ensures Inv(s')
  {
    hide GroupOk, Total;
  }

  lemma {:induction false} TotalHas(groups: seq<Group>, i: nat)
    requires i < |groups|
    ensures FreeCount(groups[i]) <= Total(groups)
  {
    if i < |groups| - 1 { TotalHas(groups[..|groups| - 1], i); }
  }

  /** Marking changes the use of one block. */
  lemma MarkedUse(s: State, g: nat, k: nat, on: bool, b: nat)
    requires Inv(s) && g < |s.groups| && k < s.bpg && k < 8 * |s.groups[g].bitmap|
    ensures Used(Marked(s, g, k, on), b) <==> if b == Number(s, g, k) then on else Used(s, b)
  {
    hide Total, GroupOk, FreeCount, WithFree, WithBit, Number, GroupOf, BitIn;
    var s' := Marked(s, g, k, on);
    WithBitBits(s.groups[g].bitmap, k, on);
    NumberInverse(s, g, k);
    MarkedFrame(s, g, k, on);
    assert Number(s, g, k) >= s.start by { NumberLow(s, g, k); }
    if b >= s.start {
      NumberOf(s, b);
      SameNumbers(s, s', b);
    }
  }

  lemma NumberLow(s: State, g: nat, k: nat)
    ensures Number(s, g, k) >= s.start
  {
  }

  lemma SameNumbers(s: State, s': State, b: nat)
    requires s'.bpg == s.bpg > 0 && s'.start == s.start <= b
    ensures GroupOf(s', b) == GroupOf(s, b) && BitIn(s', b) == BitIn(s, b)
  {
  }

  lemma MarkedFrame(s: State, g: nat, k: nat, on: bool)
    requires g < |s.groups| && k < 8 * |s.groups[g].bitmap|
    ensures var s' := Marked(s, g, k, on);
            && s'.bpg == s.bpg && s'.start == s.start && |s'.groups| == |s.groups|
            && s'.groups[g].bitmap == WithBit(s.groups[g].bitmap, k, on)
            && forall i :: 0 <= i < |s.groups| && i != g ==> s'.groups[i] == s.groups[i]
  {
    hide WithBit;
  }

  /** What can happen to an allocator: a clear bit is taken, or a used block given back. */
  datatype Op = Took(group: nat, bit: nat) | Gave(block: nat)

  ghost predicate Enabled(s: State, op: Op) {
    match op
    case Took(g, k) => g < |s.groups| && k < s.bpg && k < 8 * |s.groups[g].bitmap| && !Bits(s.groups[g].bitmap)[k]
    case Gave(b) => Used(s, b)
  }

  ghost function Apply(s: State, op: Op): State
    requires Enabled(s, op)
  {
    match op
    case Took(g, k) => Marked(s, g, k, true)
    case Gave(b) => Marked(s, GroupOf(s, b), BitIn(s, b), false)
  }

  ghost function BlockOf(s: State, op: Op): nat {
    match op
    case Took(g, k) => Number(s, g, k)
    case Gave(b) => b
  }

  /** A step keeps every counter right and changes the use of its own block only: a block taken was not in use. */
  lemma StepKeepsInv(s: State, op: Op)
    requires Inv(s) && Enabled(s, op)
    ensures Inv(Apply(s, op))
    ensures Used(s, BlockOf(s, op)) <==> op.Gave?
    ensures forall b: nat :: Used(Apply(s, op), b) <==> if b == BlockOf(s, op) then op.Took? else Used(s, b)
  {
    hide Inv, Marked, Number, GroupOf, BitIn;
    match op {
      case Took(g, k) =>
        MarkedInv(s, g, k, true);
        TakenFree(s, g, k);
        forall b: nat { MarkedUse(s, g, k, true, b); }
      case Gave(b) =>
        NumberOf(s, b);
        MarkedInv(s, GroupOf(s, b), BitIn(s, b), false);
        forall c: nat { MarkedUse(s, GroupOf(s, b), BitIn(s, b), false, c); }
    }
  }

  lemma TakenFree(s: State, g: nat, k: nat)
    requires Inv(s) && Enabled(s, Took(g, k))
    ensures !Used(s, Number(s, g, k))
  {
    NumberInverse(s, g, k);
  }

  ghost predicate IsRun(states: seq<State>, ops: seq<Op>) {
    && |states| == |ops| + 1 && Inv(states[0])
    && forall i :: 0 <= i < |ops| ==> Enabled(states[i], ops[i]) && states[i + 1] == Apply(states[i], ops[i])
  }

  /** In every state of every run the counters agree with the bitmaps. */
  lemma {:induction false} RunKeepsInv(states: seq<State>, ops: seq<Op>, i: nat)
    requires IsRun(states, ops) && i < |states|
    ensures Inv(states[i])
    decreases i
  {
    if i > 0 {
      RunKeepsInv(states, ops, i - 1);
      StepKeepsInv(states[i - 1], ops[i - 1]);
    }
  }

  /** A block stays in use until it is given back. */
  lemma {:induction false} UsedUntilGiven(states: seq<State>, ops: seq<Op>, i: nat, j: nat, b: nat)
    requires IsRun(states, ops) && i <= j < |states| && Used(states[i], b)
    requires forall k :: i <= k < j ==> ops[k] != Gave(b)
    ensures Used(states[j], b)
    decreases j
  {
    hide Inv, Enabled, Apply, Used;
    if i < j {
      UsedUntilGiven(states, ops, i, j - 1, b);
      RunKeepsInv(states, ops, j - 1);
      StepKeepsInv(states[j - 1], ops[j - 1]);
    }
  }

  /** No live block is handed out twice: between two hand-outs of a block it was given back. */
  lemma HandedOutOnce(states: seq<State>, ops: seq<Op>, i: nat, j: nat)
    requires IsRun(states, ops) && i < j < |ops| && ops[i].Took? && ops[j].Took?
    requires BlockOf(states[i], ops[i]) == BlockOf(states[j], ops[j])
    ensures exists k :: i < k < j && ops[k] == Gave(BlockOf(states[i], ops[i]))
  {
    hide Inv, Enabled, Apply, Used, BlockOf;
    var b := BlockOf(states[i], ops[i]);
    RunKeepsInv(states, ops, i);
    StepKeepsInv(states[i], ops[i]);
    RunKeepsInv(states, ops, j);
    StepKeepsInv(states[j], ops[j]);
    if forall k :: i < k < j ==> ops[k] != Gave(b) {
      UsedUntilGiven(states, ops, i + 1, j, b);
    }
  }

  class Allocator {
    const bpg: nat
    const firstDataBlock: nat
    var groups: seq<Group>
    var sbFree: nat

    constructor (bpg: nat, firstDataBlock: nat, groups: seq<Group>, sbFree: nat)
      ensures this.bpg == bpg && this.firstDataBlock == firstDataBlock && this.groups == groups && this.sbFree == sbFree
    {
      this.bpg, this.firstDataBlock, this.groups, this.sbFree := bpg, firstDataBlock, groups, sbFree;
    }

    ghost function View(): State
      reads this
    {
      State(bpg, if firstDataBlock == 1 then 1 else 0, groups, sbFree)
    }

    /** Takes the lowest clear bit of a group. */
    method AllocBlockInGroup(g: nat) returns (r: Option<nat>, ghost bit: nat)
      requires Inv(View()) && g < |groups|
      modifies this
      ensures r.None? ==> View() == old(View()) && Clear(Bits(groups[g].bitmap), bpg) == 0
      ensures r.Some? ==> Enabled(old(View()), Took(g, bit)) && View() == Apply(old(View()), Took(g, bit))
      ensures r.Some? ==> r.value == Number(old(View()), g, bit)
      ensures r.Some? ==> forall k :: 0 <= k < bit ==> Bits(old(groups[g].bitmap))[k]
    {
      hide *;
      ghost var s := View();
      ViewIs();
      InvParts(s, g);
      var gd := groups[g];
      r, bit := None, 0;
      ClearBound(Bits(gd.bitmap), bpg);
      var free := FreeCount(gd);
      if free == 0 {
        return;
      }
      var k := FindFreeBit(gd.bitmap, bpg);
      if k < 0 {
        return;
      }
      bit := k;
      ProductIs(g, bpg, s, k);
      MarkedIs(s, g, k, true);
      ApplyTook(s, g, k);
      groups := groups[g := WithFree(gd.(bitmap := WithBit(gd.bitmap, k, true)), (free + TWO32 - 1) % TWO32)];
      sbFree := (sbFree + TWO32 - 1) % TWO32;
      var startBlock := g * bpg;
      if firstDataBlock == 1 {
        startBlock := startBlock + 1;
      }
      ViewIs();
      return Some(startBlock + k), k;
    }

    /** Takes a block of the preferred group, or of the next one that has any: fails only if no group has. */
    method AllocBlock(prefer: nat) returns (r: Option<nat>, ghost op: Op)
      requires Inv(View()) && prefer < |groups| && 2 * |groups| <= TWO32
      modifies this
      ensures r.None? ==> View() == old(View()) && Exhausted(View())
      ensures r.Some? ==> op.Took? && Enabled(old(View()), op) && View() == Apply(old(View()), op) && r.value == BlockOf(old(View()), op)
      ensures r.Some? ==> FirstRoom(old(View()), prefer, op)
      ensures r.Some? <==> Total(old(View().groups)) > 0
      ensures Total(View().groups) == Total(old(View().groups)) - if r.Some? then 1 else 0
      ensures Inv(View())
    {
      hide *;
      ghost var s := View();
      ViewIs();
      op := Took(0, 0);
      InvGroups(s);
      NoneMeansFull(s);
      for i := 0 to |groups|
        invariant View() == s && groups == s.groups
        invariant forall k :: 0 <= k < i ==> Full(s, Nth(prefer, k, |groups|))
      {
        var g := Nth((prefer + i) % TWO32, 0, |groups|);
        WordSmall(prefer, i, |groups|);
        ghost var bit;
        r, bit := AllocBlockInGroup(g);
        if r.Some? {
          op := Took(g, bit);
          StepKeepsInv(s, op);
          TookTotal(s, op);
          RoomAt(s, prefer, i, op);
          TookBlock(s, g, bit);
          return;
        }
        ViewIs();
        FullHere(s, g);
      }
      forall g | 0 <= g < |groups| ensures s.bpg <= 8 * |s.groups[g].bitmap| && Clear(Bits(s.groups[g].bitmap), s.bpg) == 0 {
        CycleHits(prefer, |groups|, g);
        FullIs(s, g);
      }
      NoneLeft(s);
      r := None;
    }

    lemma ViewIs()
      ensures View() == State(bpg, if firstDataBlock == 1 then 1 else 0, groups, sbFree)
    {
    }

    /** Gives a block back that is in use. */
    method FreeBlock(b: nat)
      requires Inv(View()) && Used(View(), b)
      modifies this
      ensures View() == Apply(old(View()), Gave(b)) && Inv(View())
    {
      hide *;
      ghost var s := View();
      ViewIs();
      UsedParts(s, b);
      StepKeepsInv(s, Gave(b));
      ApplyGave(s, b);
      var start := if firstDataBlock == 1 then 1 else 0;
      var g, k := (b - start) / bpg, (b - start) % bpg;
      MarkedIs(s, g, k, false);
      var gd := groups[g];
      groups := groups[g := WithFree(gd.(bitmap := WithBit(gd.bitmap, k, false)), (FreeCount(gd) + 1) % TWO32)];
      sbFree := (sbFree + 1) % TWO32;
      ViewIs();
    }
  }

  lemma UsedParts(s: State, b: nat)
    requires Used(s, b)
    ensures s.bpg > 0 && b >= s.start && GroupOf(s, b) < |s.groups| && BitIn(s, b) < 8 * |s.groups[GroupOf(s, b)].bitmap| && TWO32 > 0
    ensures GroupOf(s, b) == (b - s.start) / s.bpg && BitIn(s, b) == (b - s.start) % s.bpg && Enabled(s, Gave(b))
  {
  }

  lemma ApplyGave(s: State, b: nat)
    requires Enabled(s, Gave(b)) && s.bpg > 0 && b >= s.start && GroupOf(s, b) < |s.groups| && BitIn(s, b) < 8 * |s.groups[GroupOf(s, b)].bitmap|
    ensures Apply(s, Gave(b)) == Marked(s, GroupOf(s, b), BitIn(s, b), false)
  {
  }

  lemma ApplyTook(s: State, g: nat, k: nat)
    requires g < |s.groups| && k < s.bpg && k < 8 * |s.groups[g].bitmap| && !Bits(s.groups[g].bitmap)[k]
    ensures Enabled(s, Took(g, k)) && Apply(s, Took(g, k)) == Marked(s, g, k, true)
  {
  }

  lemma GroupCount(g: Group, bpg: nat)
    requires GroupOk(g, bpg)
    ensures bpg <= 8 * |g.bitmap| && FreeCount(g) == Clear(Bits(g.bitmap), bpg)
  {
  }

  function Nth(prefer: nat, k: nat, n: nat): (r: nat)
    requires n > 0
    ensures r < n
  {
    (prefer + k) % n
  }

  /** The block is the lowest free one of its group, and the groups from the preferred one up to it have none. */
  ghost predicate FirstRoom(s: State, prefer: nat, op: Op)
    requires op.Took? && |s.groups| > 0
  {
    && op.group < |s.groups| && op.bit < 8 * |s.groups[op.group].bitmap|
    && (forall k :: 0 <= k < op.bit ==> Bits(s.groups[op.group].bitmap)[k])
    && exists i: nat :: i < |s.groups| && LandsAt(s, prefer, i, op.group)
  }

  ghost predicate LandsAt(s: State, prefer: nat, i: nat, g: nat)
    requires |s.groups| > 0
  {
    Nth(prefer, i, |s.groups|) == g && forall k :: 0 <= k < i ==> Full(s, Nth(prefer, k, |s.groups|))
  }

  lemma RoomAt(s: State, prefer: nat, i: nat, op: Op)
    requires op.Took? && i < |s.groups| && Nth(prefer, i, |s.groups|) == op.group && forall k :: 0 <= k < i ==> Full(s, Nth(prefer, k, |s.groups|))
    requires op.group < |s.groups| && op.bit < 8 * |s.groups[op.group].bitmap| && forall k :: 0 <= k < op.bit ==> Bits(s.groups[op.group].bitmap)[k]
    ensures FirstRoom(s, prefer, op)
  {
    hide Bits, Full, Nth;
    assert LandsAt(s, prefer, i, op.group);
  }

  /** Nothing is free exactly if every bitmap is full. */
  lemma NoneMeansFull(s: State)
    requires Inv(s)
    ensures Exhausted(s) <==> Total(s.groups) == 0
  {
    TotalHasNone(s.groups);
    forall g | 0 <= g < |s.groups| ensures s.bpg <= 8 * |s.groups[g].bitmap| && FreeCount(s.groups[g]) == Clear(Bits(s.groups[g].bitmap), s.bpg) {
      assert GroupOk(s.groups[g], s.bpg);
    }
    hide Clear, Bits, FreeCount, Total;
  }

  lemma TookTotal(s: State, op: Op)
    requires Inv(s) && Enabled(s, op) && op.Took?
    ensures Total(s.groups) > 0 && Total(Apply(s, op).groups) == Total(s.groups) - 1
    ensures op.group < |s.groups| && op.bit < 8 * |s.groups[op.group].bitmap| == |Bits(s.groups[op.group].bitmap)|
  {
    var g, gd := op.group, s.groups[op.group];
    InvParts(s, g);
    MarkedGroup(gd, s.bpg, op.bit, true);
    MarkedIs(s, g, op.bit, true);
    hide Clear, WithFree, WithBit, FreeCount, Bits, Total;
    TotalUpdate(s.groups, g, Apply(s, op).groups[g]);
    TotalHas(s.groups, g);
  }

  /** No group has a clear bit. */
  ghost predicate Exhausted(s: State) {
    forall g :: 0 <= g < |s.groups| ==> s.bpg <= 8 * |s.groups[g].bitmap| && Clear(Bits(s.groups[g].bitmap), s.bpg) == 0
  }

  /** First block number behind the last group. */
  function Limit(s: State): nat {
    Times(|s.groups|, s.bpg) + s.start
  }

  lemma UsedBelow(s: State, b: nat)
    requires Used(s, b)
    ensures b < Limit(s)
  {
    NumberOf(s, b);
    TimesMonotone(GroupOf(s, b), |s.groups|, s.bpg);
  }

  lemma NumberBelow(s: State, g: nat, bit: nat)
    requires g < |s.groups| && bit < s.bpg
    ensures Number(s, g, bit) < Limit(s)
  {
    TimesMonotone(g, |s.groups|, s.bpg);
  }

  /** The blocks marked in use. */
  ghost function LiveSet(s: State): (r: set<nat>)
    ensures forall b: nat :: b in r <==> Used(s, b)
  {
    forall b: nat | Used(s, b) ensures b < Limit(s) {
      UsedBelow(s, b);
    }
    set b: nat | b < Limit(s) && Used(s, b)
  }

  /** A block taken joins the blocks in use. */
  lemma TookLive(s: State, op: Op)
    requires Inv(s) && Enabled(s, op) && op.Took?
    ensures LiveSet(Apply(s, op)) == LiveSet(s) + {BlockOf(s, op)} && BlockOf(s, op) !in LiveSet(s)
    ensures BlockOf(s, op) < Limit(s) && BlockOf(s, op) >= s.start
    ensures Apply(s, op).bpg == s.bpg && Apply(s, op).start == s.start && |Apply(s, op).groups| == |s.groups|
  {
    StepKeepsInv(s, op);
    NumberBelow(s, op.group, op.bit);
    hide Used, Inv, Limit;
  }

  ghost predicate Full(s: State, g: nat) {
    g < |s.groups| && s.bpg <= 8 * |s.groups[g].bitmap| && Clear(Bits(s.groups[g].bitmap), s.bpg) == 0
  }

  lemma FullHere(s: State, g: nat)
    requires g < |s.groups| && s.bpg <= 8 * |s.groups[g].bitmap| && Clear(Bits(s.groups[g].bitmap), s.bpg) == 0
    ensures Full(s, g)
  {
  }

  lemma NoneLeft(s: State)
    requires forall g :: 0 <= g < |s.groups| ==> s.bpg <= 8 * |s.groups[g].bitmap| && Clear(Bits(s.groups[g].bitmap), s.bpg) == 0
    ensures Exhausted(s)
  {
  }

  lemma FullIs(s: State, g: nat)
    requires Full(s, g)
    ensures g < |s.groups| && s.bpg <= 8 * |s.groups[g].bitmap| && Clear(Bits(s.groups[g].bitmap), s.bpg) == 0
  {
  }

  lemma InvGroups(s: State)
    requires Inv(s)
    ensures forall g :: 0 <= g < |s.groups| ==> s.bpg <= 8 * |s.groups[g].bitmap|
  {
    forall g | 0 <= g < |s.groups| ensures s.bpg <= 8 * |s.groups[g].bitmap| {
      assert GroupOk(s.groups[g], s.bpg);
    }
  }

  lemma WordSmall(prefer: nat, i: nat, n: nat)
    requires prefer + i < TWO32 && n > 0
    ensures Nth((prefer + i) % TWO32, 0, n) == Nth(prefer, i, n)
  {
  }

  lemma TookBlock(s: State, g: nat, bit: nat)
    ensures BlockOf(s, Took(g, bit)) == Number(s, g, bit)
  {
  }

  /** Counting n steps from anywhere goes through every group. */
  lemma CycleHits(prefer: nat, n: nat, g: nat)
    requires prefer < n && g < n
    ensures var k := if g >= prefer then g - prefer else g + n - prefer; 0 <= k < n && Nth(prefer, k, n) == g
  {
    var k := if g >= prefer then g - prefer else g + n - prefer;
    if g >= prefer {
      Modulo(0, g, n);
      assert prefer + k == 0 * n + g;
    } else {
      Modulo(1, g, n);
      assert prefer + k == 1 * n + g;
    }
  }

  lemma Modulo(q: nat, g: nat, n: nat)
    requires g < n
    ensures (q * n + g) % n == g
  {
    DivMod(q, g, n);
  }

  lemma ProductIs(g: nat, bpg: nat, s: State, k: nat)
    requires s.bpg == bpg
    ensures Number(s, g, k) == g * bpg + s.start + k
  {
    TimesIsProduct(g, bpg);
  }

  /** The lowest clear bit below the limit, or -1. */
  method FindFreeBit(bitmap: seq<byte>, limit: nat) returns (r: int)
    requires limit <= 8 * |bitmap|
    ensures r < 0 ==> forall k :: 0 <= k < limit ==> Bits(bitmap)[k]
    ensures r >= 0 ==> r < limit && !Bits(bitmap)[r] && forall k :: 0 <= k < r ==> Bits(bitmap)[k]
  {
    hide BitOf;
    for i := 0 to limit
      invariant forall k :: 0 <= k < i ==> Bits(bitmap)[k]
    {
      if !BitOf(bitmap[i / 8], i % 8) {
        return i;
      }
    }
    return -1;
  }
}
