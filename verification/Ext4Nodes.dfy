/** Extent tree nodes as bytes: a 12-byte header and 12-byte entries. */
module Ext4Nodes {
  import opened Bytes
  import opened Ext4Extents

  function EntryOff(i: nat): nat {
    12 + 12 * i
  }

  function Entry(raw: seq<byte>, i: nat): (d: seq<byte>)
    requires EntryOff(i) + 12 <= |raw|
    ensures |d| == 12
  {
    raw[EntryOff(i)..EntryOff(i) + 12]
  }

  /** A leaf entry; the top bit of its length only says whether the blocks are initialised. */
  function ExtOf(d: seq<byte>): Ext
    requires |d| == 12
  {
    Ext(Le32(d, 0), Le16(d, 4) % 0x8000, Le32(d, 8) + 0x1_0000_0000 * Le16(d, 6))
  }

  function FirstOf(d: seq<byte>): nat
    requires |d| == 12
  {
    Le32(d, 0)
  }

  function ChildOf(d: seq<byte>): nat
    requires |d| == 12
  {
    Le32(d, 4) + 0x1_0000_0000 * Le16(d, 8)
  }

  /** magic, number of entries, capacity, depth, generation */
  function Header(entries: nat, max: nat, depth: nat): (h: seq<byte>)
    ensures |h| == 12
  {
    Put16(0xF30A) + Put16(entries) + Put16(max) + Put16(depth) + Put32(0)
  }

  ghost predicate HeaderIs(raw: seq<byte>, entries: nat, depth: nat) {
    |raw| >= 12 && Le16(raw, 0) == 0xF30A && Le16(raw, 2) == entries && Le16(raw, 6) == depth
  }

  ghost predicate LeafBytes(raw: seq<byte>, exts: seq<Ext>) {
    && HeaderIs(raw, |exts|, 0) && EntryOff(|exts|) <= |raw|
    && forall i :: 0 <= i < |exts| ==> ExtOf(Entry(raw, i)) == exts[i]
  }

  ghost predicate IndexBytes(raw: seq<byte>, firsts: seq<nat>, at: seq<nat>) {
    && |at| == |firsts| && HeaderIs(raw, |firsts|, 1) && EntryOff(|firsts|) <= |raw|
    && (forall i :: 0 <= i < |firsts| ==> FirstOf(Entry(raw, i)) == firsts[i])
    && (forall i :: 0 <= i < |firsts| ==> ChildOf(Entry(raw, i)) == at[i])
  }

  /** A new node says how many entries it has room for, and is of generation 0. */
  predicate EntriesMax(raw: seq<byte>, max: nat) {
    |raw| >= 12 && Le16(raw, 4) == max % 0x1_0000 && Le32(raw, 8) == 0
  }

  lemma HeaderMax(raw: seq<byte>, entries: nat, max: nat, depth: nat)
    requires |raw| >= 12 && raw[..12] == Header(entries, max, depth)
    ensures EntriesMax(raw, max)
  {
    hide Put32, Put16, Le32, Le16;
    var h := Header(entries, max, depth);
    assert h[4..6] == Put16(max) && h[8..12] == Put32(0) && raw[0..12] == h;
    SubSlice(raw, 0, 12, 4, 6);
    SubSlice(raw, 0, 12, 8, 12);
    HalfAt(raw, 4, Put16(max));
    WordAt(raw, 8, Put32(0));
  }

  lemma HeaderReads(raw: seq<byte>, entries: nat, max: nat, depth: nat)
    requires |raw| >= 12 && raw[..12] == Header(entries, max, depth) && entries < 0x1_0000 && depth < 0x1_0000
    ensures HeaderIs(raw, entries, depth) && EntriesMax(raw, max)
  {
    HeaderMax(raw, entries, max, depth);
    hide Put32, EntriesMax;
    var h := Header(entries, max, depth);
    assert h[0..2] == Put16(0xF30A) && h[2..4] == Put16(entries) && h[6..8] == Put16(depth);
    Two(raw, 0, Put16(0xF30A));
    Two(raw, 2, Put16(entries));
    Two(raw, 6, Put16(depth));
  }

  lemma Two(raw: seq<byte>, i: nat, t: seq<byte>)
    requires |t| == 2 && i + 2 <= |raw| <= |raw| && i + 2 <= 12 <= |raw| && raw[..12][i..i + 2] == t
    ensures Le16(raw, i) == Le16(t, 0)
  {
    var u := raw[..12][i..i + 2];
    assert u[0] == t[0] && u[1] == t[1];
  }

  /** The bytes of a leaf entry. */
  function NewExt(e: Ext): (d: seq<byte>)
    ensures |d| == 12
  {
    Put32(e.block) + Put16(e.count) + Put16(e.phys / 0x1_0000_0000) + Put32(e.phys)
  }

  /** A 48-bit block number is kept as a low word and a high half word. */
  lemma TwoParts(p: nat)
    requires p < 0x1_0000_0000_0000
    ensures p / 0x1_0000_0000 < 0x1_0000 && p / 0x1_0000_0000 % 0x1_0000 == p / 0x1_0000_0000
    ensures p == p % 0x1_0000_0000 + 0x1_0000_0000 * (p / 0x1_0000_0000)
  {
  }

  lemma NewExtReads(e: Ext)
    requires ExtOk(e)
    ensures ExtOf(NewExt(e)) == e
  {
    hide Put32, Put16, Le32, Le16;
    var a, b, c, d := Put32(e.block), Put16(e.count), Put16(e.phys / 0x1_0000_0000), Put32(e.phys);
    TwoParts(e.phys);
    assert NewExt(e) == a + b + c + d;
    hide NewExt;
    FieldsOf(a, b, c, d);
  }

  lemma FieldsOf(a: seq<byte>, b: seq<byte>, c: seq<byte>, d: seq<byte>)
    requires |a| == 4 && |b| == 2 && |c| == 2 && |d| == 4
    ensures ExtOf(a + b + c + d) == Ext(Le32(a, 0), Le16(b, 0) % 0x8000, Le32(d, 0) + 0x1_0000_0000 * Le16(c, 0))
  {
    hide Le32, Le16;
    var n := a + b + c + d;
    WordAt(n, 0, a);
    HalfAt(n, 4, b);
    HalfAt(n, 6, c);
    WordAt(n, 8, d);
  }

  /** The bytes written for an index entry; the last two of its twelve are left alone. */
  function NewIdx(first: nat, blk: nat): (d: seq<byte>)
    ensures |d| == 10
  {
    Put32(first) + Put32(blk) + Put16(blk / 0x1_0000_0000)
  }

  lemma NewIdxReads(first: nat, blk: nat, rest: seq<byte>)
    requires first < 0x1_0000_0000 && blk < 0x1_0000_0000_0000 && |rest| == 2
    ensures FirstOf(NewIdx(first, blk) + rest) == first && ChildOf(NewIdx(first, blk) + rest) == blk
  {
    var a, b, c := Put32(first), Put32(blk), Put16(blk / 0x1_0000_0000);
    TwoParts(blk);
    hide Put32, Put16, Le32, Le16;
    var n := NewIdx(first, blk) + rest;
    WordAt(n, 0, a);
    WordAt(n, 4, b);
    HalfAt(n, 8, c);
  }

  /** A node with entry n written and counted. */
  function Grown(raw: seq<byte>, n: nat, d: seq<byte>): (r: seq<byte>)
    requires EntryOff(n) + |d| <= |raw|
    ensures |r| == |raw|
  {
    Splice(Splice(raw, EntryOff(n), d), 2, Put16(n + 1))
  }

  lemma GrownParts(raw: seq<byte>, n: nat, d: seq<byte>, depth: nat)
    requires HeaderIs(raw, n, depth) && EntryOff(n) + 12 <= |raw| && |d| <= 12 && n < 0xFFFF
    ensures var r := Grown(raw, n, d);
            && HeaderIs(r, n + 1, depth)
            && (forall i :: 0 <= i < n ==> Entry(r, i) == Entry(raw, i))
            && Entry(r, n) == d + Entry(raw, n)[|d|..]
  {
    hide Put16;
    var m := Splice(raw, EntryOff(n), d);
    var r := Grown(raw, n, d);
    assert r[0] == raw[0] && r[1] == raw[1] && r[6] == raw[6] && r[7] == raw[7];
    forall i | 0 <= i < n ensures Entry(r, i) == Entry(raw, i) {
      assert Entry(r, i) == Entry(m, i) == Entry(raw, i);
    }
  }

  lemma LeafGrown(raw: seq<byte>, exts: seq<Ext>, e: Ext)
    requires LeafBytes(raw, exts) && EntryOff(|exts|) + 12 <= |raw| && |exts| < 0xFFFF && ExtOk(e)
    ensures LeafBytes(Grown(raw, |exts|, NewExt(e)), exts + [e])
  {
    hide ExtOf, NewExt, Grown, Entry, HeaderIs;
    GrownParts(raw, |exts|, NewExt(e), 0);
    NewExtReads(e);
    assert NewExt(e) + Entry(raw, |exts|)[12..] == NewExt(e);
  }

  lemma IndexGrown(raw: seq<byte>, firsts: seq<nat>, at: seq<nat>, first: nat, blk: nat)
    requires IndexBytes(raw, firsts, at) && EntryOff(|firsts|) + 12 <= |raw| && |firsts| < 0xFFFF
    requires first < 0x1_0000_0000 && blk < 0x1_0000_0000_0000
    ensures IndexBytes(Grown(raw, |firsts|, NewIdx(first, blk)), firsts + [first], at + [blk])
  {
    hide FirstOf, ChildOf, NewIdx, Grown, Entry, HeaderIs;
    GrownParts(raw, |firsts|, NewIdx(first, blk), 1);
    NewIdxReads(first, blk, Entry(raw, |firsts|)[10..]);
  }

  /** A leaf block with the extents of an inode copied into it. */
  function Copied(raw: seq<byte>, n: nat, bs: nat): (r: seq<byte>)
    requires EntryOff(n) <= |raw| && EntryOff(n) <= bs && 12 <= bs
    ensures |r| == bs
  {
    Splice(Splice(Zeros(bs), 0, Header(n, (bs - 12) / 12, 0)), 12, raw[12..EntryOff(n)])
  }

  lemma CopiedLeaf(raw: seq<byte>, exts: seq<Ext>, bs: nat)
    requires LeafBytes(raw, exts) && EntryOff(|exts|) <= bs && |exts| < 0x1_0000
    ensures LeafBytes(Copied(raw, |exts|, bs), exts) && EntriesMax(Copied(raw, |exts|, bs), (bs - 12) / 12)
  {
    hide ExtOf, Header;
    var n := |exts|;
    var r := Copied(raw, n, bs);
    assert r[..12] == Header(n, (bs - 12) / 12, 0);
    HeaderReads(r, n, (bs - 12) / 12, 0);
    forall i | 0 <= i < n ensures Entry(r, i) == Entry(raw, i) {
      CopiedEntry(raw, n, bs, i);
    }
  }

  lemma CopiedEntry(raw: seq<byte>, n: nat, bs: nat, i: nat)
    requires EntryOff(n) <= |raw| && EntryOff(n) <= bs && i < n
    ensures Entry(Copied(raw, n, bs), i) == Entry(raw, i)
  {
    hide Header;
    var r := Copied(raw, n, bs);
    assert forall p :: 12 <= p < EntryOff(n) ==> r[p] == raw[12..EntryOff(n)][p - 12] == raw[p];
  }

  /** The inode's node once its extents have moved to block `blk`. */
  function Promoted(blk: nat): (r: seq<byte>)
    ensures |r| == 60
  {
    Splice(Splice(Zeros(60), 0, Header(1, 4, 1)), 12, NewIdx(0, blk))
  }

  lemma PromotedIndex(blk: nat)
    requires blk < 0x1_0000_0000_0000
    ensures IndexBytes(Promoted(blk), [0], [blk]) && EntriesMax(Promoted(blk), 4)
  {
    hide Header, NewIdx, FirstOf, ChildOf;
    var r := Promoted(blk);
    assert r[..12] == Header(1, 4, 1);
    HeaderReads(r, 1, 4, 1);
    assert Entry(r, 0) == NewIdx(0, blk) + Zeros(2);
    NewIdxReads(0, blk, Zeros(2));
  }

  /** A fresh leaf block with one extent. */
  function SingleLeaf(e: Ext, bs: nat): (r: seq<byte>)
    requires bs >= 24
    ensures |r| == bs
  {
    Splice(Splice(Zeros(bs), 0, Header(1, (bs - 12) / 12, 0)), 12, NewExt(e))
  }

  lemma SingleLeafReads(e: Ext, bs: nat)
    requires bs >= 24 && ExtOk(e)
    ensures LeafBytes(SingleLeaf(e, bs), [e]) && EntriesMax(SingleLeaf(e, bs), (bs - 12) / 12)
  {
    hide Header, NewExt, ExtOf;
    var r := SingleLeaf(e, bs);
    assert r[..12] == Header(1, (bs - 12) / 12, 0);
    HeaderReads(r, 1, (bs - 12) / 12, 0);
    assert Entry(r, 0) == NewExt(e);
    NewExtReads(e);
  }

  /** The empty tree an inode is given. */
  function Initialised(raw: seq<byte>): (r: seq<byte>)
    requires |raw| >= 12
    ensures |r| == |raw|
  {
    Splice(raw, 0, Header(0, 4, 0))
  }

  lemma InitialisedLeaf(raw: seq<byte>)
    requires |raw| >= 12
    ensures LeafBytes(Initialised(raw), []) && EntriesMax(Initialised(raw), 4)
  {
    hide Header;
    assert Initialised(raw)[..12] == Header(0, 4, 0);
    HeaderReads(Initialised(raw), 0, 4, 0);
  }

  /** The scan of a leaf node, in 32-bit arithmetic. */
  method SearchLeaf(raw: seq<byte>, b: nat, ghost exts: seq<Ext>) returns (r: nat)
    requires LeafBytes(raw, exts) && AllOk(exts) && b < 0x1_0000_0000
    ensures r == Look(exts, b)
  {
    assert exts[0..] == exts;
    hide ExtOf, Look, Entry;
    for i := 0 to Le16(raw, 2)
      invariant Look(exts, b) == Look(exts[i..], b)
    {
      var e := ExtOf(Entry(raw, i));
      LookStep(exts, i, b);
      LastBlock(e);
      var last := (e.block + e.count - 1 + 0x1_0000_0000) % 0x1_0000_0000;
      if e.block <= b <= last {
        return e.phys + (b - e.block);
      }
    }
    LookStep(exts, |exts|, b);
    return 0;
  }

  lemma LookStep(exts: seq<Ext>, i: nat, b: nat)
    requires i <= |exts| && AllOk(exts)
    ensures i == |exts| ==> Look(exts[i..], b) == 0
    ensures i < |exts| ==> ExtOk(exts[i])
    ensures i < |exts| ==> Look(exts[i..], b) == if Covers(exts[i], b) then exts[i].phys + (b - exts[i].block) else Look(exts[i + 1..], b)
  {
    if i < |exts| { assert exts[i..][0] == exts[i] && exts[i..][1..] == exts[i + 1..]; }
  }

  lemma LastBlock(e: Ext)
    requires ExtOk(e)
    ensures (e.block + e.count - 1 + 0x1_0000_0000) % 0x1_0000_0000 == e.block + e.count - 1
  {
  }

  /** The scan of an index node. */
  method SearchIndex(raw: seq<byte>, b: nat, ghost firsts: seq<nat>, ghost at: seq<nat>) returns (found: bool, child: nat)
    requires IndexBytes(raw, firsts, at)
    ensures found <==> Route(firsts, b) >= 0
    ensures found ==> child == at[Route(firsts, b)]
  {
    found, child := false, 0;
    hide FirstOf, ChildOf;
    assert firsts[0..] == firsts;
    var i := 0;
    while i < Le16(raw, 2)
      invariant 0 <= i <= |firsts| && found == (i > 0) && (found ==> child == at[i - 1])
      invariant Route(firsts, b) == i + Route(firsts[i..], b)
    {
      assert firsts[i..][0] == firsts[i] && firsts[i..][1..] == firsts[i + 1..];
      if FirstOf(Entry(raw, i)) <= b {
        child, found := ChildOf(Entry(raw, i)), true;
      } else {
        break;
      }
      i := i + 1;
    }
  }
}
