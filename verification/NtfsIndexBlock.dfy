/** One INDX block: built, read back through the fixup, and grown in place. */
module NtfsIndexBlock {
  import opened Bytes
  import opened Chunks
  import opened NtfsFixup
  import opened NtfsIndex

  const INDX: seq<byte> := [0x49, 0x4E, 0x44, 0x58]

  predicate SizeOk(bs: nat) {
    bs % 512 == 0 && 512 <= bs <= 0x1_0000
  }

  /** Offset of the first entry: behind the update sequence array, aligned to eight. */
  function EntriesStart(bs: nat): (r: nat)
    ensures r % 8 == 0
    ensures SizeOk(bs) ==> 0x28 + 2 * (bs / 512 + 1) <= r <= 0x28 + 2 * (bs / 512 + 1) + 7 < 510
  {
    (0x28 + (bs / 512 + 1) * 2 + 7) / 8 * 8
  }

  /** Room for entries in one block, the sentinel not counted. */
  function Usable(bs: nat): int {
    bs - EntriesStart(bs) - 16
  }

  function HeadBytes(vcn: nat, used: nat, bs: nat): (r: seq<byte>)
    requires SizeOk(bs) && vcn < 0x1_0000_0000_0000_0000
    ensures |r| == 0x28
  {
    var eo := EntriesStart(bs) - 0x18;
    INDX + Put16(0x28) + Put16(bs / 512 + 1) + Zeros(8) + Put64(vcn)
    + Put32(eo) + Put32(eo + used + 16) + Put32(bs - 0x18) + Zeros(4)
  }

  function SentinelBytes(): (r: seq<byte>)
    ensures IsSentinel(r)
  {
    var r := Zeros(8) + Put16(16) + Zeros(2) + Put32(2);
    r
  }

  /** The end entry refers to no file, has no key, and its only flag is that it is the last one. */
  lemma EndEntry()
    ensures var s := SentinelBytes(); |s| == 16 && s[..8] == Zeros(8) && Le16(s, 8) == 16 && Le16(s, 10) == 0 && Le32(s, 12) == 2
  {
  }

  /** The block before its sector ends are stamped. */
  function Unstamped(vcn: nat, raw: seq<byte>, bs: nat): (r: seq<byte>)
    requires SizeOk(bs) && |raw| <= Usable(bs) && vcn < 0x1_0000_0000_0000_0000
    ensures |r| == bs
  {
    HeadBytes(vcn, |raw|, bs) + (Put16(1) + Zeros(EntriesStart(bs) - 0x2A)) + raw + SentinelBytes()
    + Zeros(Usable(bs) - |raw|)
  }

  /** A block in its readable form, holding exactly `es`. */
  ghost predicate WellBlock(b: seq<byte>, es: seq<Entry>, bs: nat) {
    && SizeOk(bs) && |b| == bs && b[..4] == INDX
    && UsaOff(b) == 0x28 && UsaCnt(b) == bs / 512 + 1
    && Le32(b, 0x18) == EntriesStart(bs) - 0x18 && Le32(b, 0x20) == bs - 0x18
    && Header(b[0x18..], es)
  }

  lemma HeadFields(b: seq<byte>, vcn: nat, used: nat, bs: nat)
    requires SizeOk(bs) && vcn < 0x1_0000_0000_0000_0000 && |b| >= 0x28 && b[..0x28] == HeadBytes(vcn, used, bs)
    requires used < 0x1_0000
    ensures b[..4] == INDX && Le16(b, 4) == 0x28 && Le16(b, 6) == bs / 512 + 1
    ensures Le32(b, 0x18) == EntriesStart(bs) - 0x18 && Le32(b, 0x1C) == EntriesStart(bs) - 0x18 + used + 16
    ensures Le32(b, 0x20) == bs - 0x18
  {
    hide Le32, Put32, Put64, EntriesStart;
    var h := HeadBytes(vcn, used, bs);
    assert forall i :: 0 <= i < 0x28 ==> b[i] == b[..0x28][i] == h[i];
    assert b[..4] == h[..4] == INDX;
    var eo := EntriesStart(bs) - 0x18;
    SameLe32(b, 0x18, Put32(eo), 0);
    SameLe32(b, 0x1C, Put32(eo + used + 16), 0);
    SameLe32(b, 0x20, Put32(bs - 0x18), 0);
  }

  /** A fresh block holds the entries it was built from. */
  lemma UnstampedIsWell(vcn: nat, es: seq<Entry>, bs: nat)
    requires SizeOk(bs) && AllEntries(es) && |Concat(es)| <= Usable(bs) && vcn < 0x1_0000_0000_0000_0000
    ensures WellBlock(Unstamped(vcn, Concat(es), bs), es, bs)
  {
    hide HeadBytes, SentinelBytes, Put16, Le32, IsSentinel, Concat, EntriesStart, AllEntries;
    var raw := Concat(es);
    var b := Unstamped(vcn, raw, bs);
    var start := EntriesStart(bs);
    HeadFields(b, vcn, |raw|, bs);
    var h := b[0x18..];
    SameLe32(h, 0, b, 0x18);
    SameLe32(h, 4, b, 0x1C);
    SubSlice(b, 0x18, |b|, start - 0x18, start - 0x18 + |raw|);
    SubSlice(b, 0x18, |b|, start - 0x18 + |raw|, start - 0x18 + |raw| + 16);
    assert b[0x18..|b|] == h;
  }

  lemma WellIsInside(b: seq<byte>, es: seq<Entry>, bs: nat)
    requires WellBlock(b, es, bs)
    ensures UsaInside(b) && UsaOff(b) == 0x28
  {
  }

  /** A block's meaning does not depend on its update sequence array. */
  lemma WellOutsideUsa(a: seq<byte>, b: seq<byte>, es: seq<Entry>, bs: nat)
    requires WellBlock(a, es, bs) && SameOutsideUsa(a, b)
    ensures WellBlock(b, es, bs)
  {
    hide Le32, IsSentinel, Concat, AllEntries;
    assert b[..4] == a[..4];
    SameLe16(b, 6, a, 6);
    SameLe32(b, 0x18, a, 0x18);
    SameLe32(b, 0x20, a, 0x20);
    var h, h' := a[0x18..], b[0x18..];
    SameLe32(h, 0, a, 0x18);
    SameLe32(h', 0, b, 0x18);
    SameLe32(h', 4, h, 4);
    var eo, il := Le32(h, 0), Le32(h, 4);
    assert forall p :: eo <= p < |h| ==> h'[p] == b[0x18 + p] == a[0x18 + p] == h[p];
    assert h'[eo..eo + |Concat(es)|] == h[eo..eo + |Concat(es)|];
    assert h'[il - 16..il] == h[il - 16..il];
  }

  /** A stamped block on disk that reads as `es`. */
  ghost predicate DiskBlock(raw: seq<byte>, es: seq<Entry>, bs: nat) {
    |raw| == bs && UsaInside(raw) && raw[..4] == INDX && WellBlock(Applied(raw, Guarded(raw)), es, bs)
  }

  lemma FirstFour(b: seq<byte>)
    requires UsaInside(b)
    ensures Stamped(b, Guarded(b))[..4] == b[..4]
  {
    hide UsaCnt, Guarded;
  }

  lemma StampedIsDiskBlock(b: seq<byte>, es: seq<Entry>, bs: nat)
    requires WellBlock(b, es, bs)
    ensures UsaInside(b) && DiskBlock(Stamped(b, Guarded(b)), es, bs)
  {
    WellIsInside(b, es, bs);
    var r := Stamped(b, Guarded(b));
    StampThenApply(b);
    WellOutsideUsa(b, Applied(r, Guarded(r)), es, bs);
    hide WellBlock, Stamped, StampedByte, Guarded, Applied, UsaOff, UsaCnt;
    FirstFour(b);
  }

  /** The raw entries of one block of the device, whatever it holds. */
  ghost function BlockEntries(raw: seq<byte>): seq<Entry>
    requires |raw| >= 0x18
  {
    if raw[..4] != INDX then [] else Entries(Fixed(raw)[0x18..])
  }

  lemma DiskBlockReads(raw: seq<byte>, es: seq<Entry>, bs: nat)
    requires DiskBlock(raw, es, bs)
    ensures |raw| >= 0x18 && BlockEntries(raw) == es
  {
    FixedIs(raw);
    EntriesOfHeader(Applied(raw, Guarded(raw))[0x18..], es);
  }

  /** The block number survives the stamping, which is the first one. */
  lemma VcnStays(vcn: nat, raw: seq<byte>, bs: nat)
    requires SizeOk(bs) && |raw| <= Usable(bs) && vcn < 0x1_0000_0000_0000_0000 && UsaInside(Unstamped(vcn, raw, bs))
    requires UsaOff(Unstamped(vcn, raw, bs)) == 0x28
    ensures var u := Unstamped(vcn, raw, bs); |u| == bs && Le64(Stamped(u, Guarded(u)), 0x10) == vcn && Le16(Stamped(u, Guarded(u)), 0x28) == 2
  {
    FirstNumber(vcn, raw, bs);
    hide Put16, Put32, Put64, Le16, Le32, EntriesStart, UsaOff, UsaCnt, Guarded;
    var u := Unstamped(vcn, raw, bs);
    var s := Stamped(u, Guarded(u));
    hide Stamped, StampedByte;
    assert u[0x10..0x18] == Put64(vcn);
    forall p | 0x10 <= p < 0x18 ensures s[p] == u[p] {
      HeadStays(u, p);
    }
    assert s[0x10..0x18] == u[0x10..0x18];
    QuadAt(s, 0x10, Put64(vcn));
  }

  lemma FirstNumber(vcn: nat, raw: seq<byte>, bs: nat)
    requires SizeOk(bs) && |raw| <= Usable(bs) && vcn < 0x1_0000_0000_0000_0000 && UsaInside(Unstamped(vcn, raw, bs))
    requires UsaOff(Unstamped(vcn, raw, bs)) == 0x28
    ensures var u := Unstamped(vcn, raw, bs); Le16(Stamped(u, Guarded(u)), 0x28) == 2
  {
    hide HeadBytes, EntriesStart, UsaOff, UsaCnt, Guarded, SentinelBytes, Put16, Le16;
    var u := Unstamped(vcn, raw, bs);
    assert u[0x28..0x2A] == Put16(1);
    HalfAt(u, 0x28, Put16(1));
    SeqStep(u);
    var s := Stamped(u, Guarded(u));
    var t := Put16(NextSeq(u));
    hide NextSeq;
    assert s[0x28] == t[0] && s[0x29] == t[1];
    SameLe16(s, 0x28, t, 0);
  }

  lemma HeadStays(u: seq<byte>, p: nat)
    requires UsaInside(u) && UsaOff(u) == 0x28 && p < 0x28
    ensures Stamped(u, Guarded(u))[p] == u[p]
  {
  }

  /** Builds a stamped block from packed entries. */
  method BuildINDXBlock(vcn: nat, raw: seq<byte>, bs: nat, ghost es: seq<Entry>) returns (block: seq<byte>)
    requires SizeOk(bs) && AllEntries(es) && raw == Concat(es) && |raw| <= Usable(bs) && vcn < 0x1_0000_0000_0000_0000
    ensures DiskBlock(block, es, bs) && Le64(block, 0x10) == vcn && Le16(block, 0x28) == 2
  {
    hide *;
    var u := Unstamped(vcn, raw, bs);
    UnstampedIsWell(vcn, es, bs);
    StampedIsDiskBlock(u, es, bs);
    var buf := new byte[bs](i requires 0 <= i < |u| => u[i]);
    assert buf[..] == u;
    RoomForNumber(u);
    StampUsa(buf, bs / 512);
    RestampedIs(u);
    WellIsInside(u, es, bs);
    VcnStays(vcn, raw, bs);
    block := buf[..];
  }

  /** The block with its sentinel moved up and `e` in its place. */
  function Added(b: seq<byte>, at: nat, e: Entry, il: nat): (r: seq<byte>)
    requires at + 16 + |e| <= |b| && 0x20 <= |b|
    ensures |r| == |b|
  {
    Splice(Splice(Splice(b, at + |e|, b[at..at + 16]), at, e), 0x1C, Put32(il + |e|))
  }

  lemma AddedBytes(b: seq<byte>, at: nat, e: Entry, il: nat)
    requires at + 16 + |e| <= |b| && 0x28 <= at && il + |e| < 0x1_0000_0000
    ensures var r := Added(b, at, e, il);
            && Le32(r, 0x1C) == il + |e|
            && (forall p :: 0 <= p < at && !(0x1C <= p < 0x20) ==> r[p] == b[p])
            && r[at..at + |e|] == e && r[at + |e|..at + |e| + 16] == b[at..at + 16]
  {
    var m := Splice(Splice(b, at + |e|, b[at..at + 16]), at, e);
    SplicedLe32(m, 0x1C, Put32(il + |e|));
    hide Put32;
    var r := Added(b, at, e, il);
    assert forall p :: at <= p < |b| ==> r[p] == m[p];
    assert m[at..at + |e|] == e;
    assert m[at + |e|..at + |e| + 16] == b[at..at + 16];
    assert r[at..at + |e|] == m[at..at + |e|] && r[at + |e|..at + |e| + 16] == m[at + |e|..at + |e| + 16];
  }

  /** Where the pieces of a well-formed block are. */
  lemma WellParts(b: seq<byte>, es: seq<Entry>, bs: nat)
    requires WellBlock(b, es, bs)
    ensures var at := EntriesStart(bs) + |Concat(es)|;
            && Le32(b, 0x18) == EntriesStart(bs) - 0x18 && Le32(b, 0x1C) == at + 16 - 0x18 && Le32(b, 0x20) == bs - 0x18
            && at + 16 <= bs && b[EntriesStart(bs)..at] == Concat(es) && IsSentinel(b[at..at + 16]) && b[..4] == INDX
            && FindSentinel(b[EntriesStart(bs)..at + 16], 0) == |Concat(es)|
  {
    hide Le32, Concat, FindSentinel, IsSentinel, EntriesStart, Entries, RawEntries, AllEntries, UsaOff, UsaCnt;
    var h, n := b[0x18..], |Concat(es)|;
    EntriesOfHeader(h, es);
    SameLe32(h, 0, b, 0x18);
    SameLe32(h, 4, b, 0x1C);
    var eo := Le32(h, 0);
    assert b[0x18..|b|] == h;
    SubSlice(b, 0x18, |b|, eo, eo + n);
    SubSlice(b, 0x18, |b|, eo + n, eo + n + 16);
    SubSlice(b, 0x18, |b|, eo, eo + n + 16);
  }

  lemma WellFromParts(b: seq<byte>, es: seq<Entry>, bs: nat)
    requires SizeOk(bs) && |b| == bs && b[..4] == INDX && UsaOff(b) == 0x28 && UsaCnt(b) == bs / 512 + 1
    requires Le32(b, 0x18) == EntriesStart(bs) - 0x18 && Le32(b, 0x20) == bs - 0x18 && AllEntries(es)
    requires var at := EntriesStart(bs) + |Concat(es)|;
             at + 16 <= bs && Le32(b, 0x1C) == at + 16 - 0x18 && b[EntriesStart(bs)..at] == Concat(es) && IsSentinel(b[at..at + 16])
    ensures WellBlock(b, es, bs)
  {
    hide Le32, Concat, IsSentinel, AllEntries;
    var h, eo, n := b[0x18..], EntriesStart(bs) - 0x18, |Concat(es)|;
    SameLe32(h, 0, b, 0x18);
    SameLe32(h, 4, b, 0x1C);
    assert b[0x18..|b|] == h;
    SubSlice(b, 0x18, |b|, eo, eo + n);
    SubSlice(b, 0x18, |b|, eo + n, eo + n + 16);
  }

  lemma AddedIsWell(b: seq<byte>, es: seq<Entry>, e: Entry, bs: nat)
    requires WellBlock(b, es, bs) && IsEntry(e) && |Concat(es)| + |e| <= Usable(bs)
    ensures WellBlock(Added(b, EntriesStart(bs) + |Concat(es)|, e, Le32(b, 0x1C)), es + [e], bs)
  {
    hide Added, Le32, Concat, IsSentinel, EntriesStart, IsEntry;
    var at := EntriesStart(bs) + |Concat(es)|;
    WellParts(b, es, bs);
    var r := Added(b, at, e, Le32(b, 0x1C));
    AddedBytes(b, at, e, Le32(b, 0x1C));
    SameLe16(r, 6, b, 6);
    SameLe32(r, 0x18, b, 0x18);
    SameLe32(r, 0x20, b, 0x20);
    AppendOne(es, e);
    assert r[..4] == b[..4];
    assert r[EntriesStart(bs)..at + |e|] == b[EntriesStart(bs)..at] + r[at..at + |e|];
    WellFromParts(r, es + [e], bs);
  }

  /** Puts one more entry in front of the sentinel of a readable block, or reports that there is no room. */
  method AddEntryToINDXBlock(block: array<byte>, e: Entry, bs: nat, ghost es: seq<Entry>) returns (ok: bool)
    requires WellBlock(block[..], es, bs) && IsEntry(e)
    modifies block
    ensures ok <==> |Concat(es)| + |e| <= Usable(bs)
    ensures ok ==> WellBlock(block[..], es + [e], bs)
    ensures !ok ==> block[..] == old(block[..])
  {
    hide *;
    ghost var b := block[..];
    WellParts(b, es, bs);
    WellSize(b, es, bs, e);
    if block.Length < 0x28 || block[..4] != INDX {
      return false;
    }
    var eo, il, alloc := Le32(block[..], 0x18), Le32(block[..], 0x1C), Le32(block[..], 0x20);
    if alloc - il < |e| {
      return false;
    }
    var start := 0x18 + eo;
    if start + (il - eo) > block.Length {
      return false;
    }
    var rel := LocateSentinel(block[start..start + (il - eo)]);
    if rel < 0 {
      return false;
    }
    var at := start + rel;
    if at + 16 + |e| > block.Length {
      return false;
    }
    AddedIsWell(b, es, e, bs);
    AddedIs(b, at, e, il);
    StoreBytes(block, at + |e|, block[at..at + 16]);
    StoreBytes(block, at, e);
    StoreBytes(block, 0x1C, Put32(il + |e|));
    return true;
  }

  lemma AddedIs(b: seq<byte>, at: nat, e: Entry, il: nat)
    requires at + 16 + |e| <= |b| && 0x20 <= |b|
    ensures Added(b, at, e, il) == Splice(Splice(Splice(b, at + |e|, b[at..at + 16]), at, e), 0x1C, Put32(il + |e|))
  {
  }

  lemma WellSize(b: seq<byte>, es: seq<Entry>, bs: nat, e: Entry)
    requires WellBlock(b, es, bs)
    ensures |b| == bs >= 512 && EntriesStart(bs) >= 0x18 && Usable(bs) == bs - EntriesStart(bs) - 16
  {
  }
}
