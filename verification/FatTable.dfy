/** The packed file allocation table: twelve-, sixteen- and 32-bit entries in one byte buffer. */
module FatTable {
  import opened Bytes
  import opened Chunks

  datatype FatType = FAT12 | FAT16 | FAT32

  /** One more than the largest value an entry can hold. */
  function Modulus(ft: FatType): (m: nat)
    ensures m >= 0x1000
  {
    match ft
    case FAT12 => 0x1000
    case FAT16 => 0x1_0000
    case FAT32 => 0x1000_0000
  }

  predicate IsEoc(ft: FatType, val: nat) {
    match ft
    case FAT12 => val >= 0xFF8
    case FAT16 => val >= 0xFFF8
    case FAT32 => val >= 0x0FFF_FFF8
  }

  function EocValue(ft: FatType): (v: nat)
    ensures v < Modulus(ft)
  {
    match ft
    case FAT12 => 0xFFF
    case FAT16 => 0xFFFF
    case FAT32 => 0x0FFF_FFFF
  }

  function EntryOffset(ft: FatType, n: nat): nat {
    match ft
    case FAT12 => n + n / 2
    case FAT16 => n * 2
    case FAT32 => n * 4
  }

  function EntryWidth(ft: FatType): nat {
    if ft.FAT32? then 4 else 2
  }

  predicate Holds(ft: FatType, fat: seq<byte>, n: nat) {
    EntryOffset(ft, n) + EntryWidth(ft) <= |fat|
  }

  function Entry(ft: FatType, fat: seq<byte>, n: nat): nat
    requires Holds(ft, fat, n)
  {
    var off := EntryOffset(ft, n);
    match ft
    case FAT12 => if n % 2 == 0 then Le16(fat, off) % 0x1000 else Le16(fat, off) / 0x10
    case FAT16 => Le16(fat, off)
    case FAT32 => Le32(fat, off) % 0x1000_0000
  }

  /** The bytes that hold entry `n` once `val` is stored: a FAT12 neighbour keeps its nibble,
      a FAT32 entry its four reserved bits. */
  function EntryBytes(ft: FatType, fat: seq<byte>, n: nat, val: nat): (r: seq<byte>)
    requires Holds(ft, fat, n)
    ensures |r| == EntryWidth(ft)
  {
    var off := EntryOffset(ft, n);
    match ft
    case FAT12 =>
      var w := Le16(fat, off);
      Put16(if n % 2 == 0 then w / 0x1000 * 0x1000 + val % 0x1000 else w % 0x10 + val % 0x1000 * 0x10)
    case FAT16 => Put16(val)
    case FAT32 => Put32(Le32(fat, off) / 0x1000_0000 * 0x1000_0000 + val % 0x1000_0000)
  }

  function SetEntry(ft: FatType, fat: seq<byte>, n: nat, val: nat): (r: seq<byte>)
    requires Holds(ft, fat, n)
    ensures |r| == |fat|
  {
    Splice(fat, EntryOffset(ft, n), EntryBytes(ft, fat, n, val))
  }

  /** Storing one entry is visible there, modulo the entry width. */
  lemma SetEntrySame(ft: FatType, fat: seq<byte>, n: nat, val: nat)
    requires Holds(ft, fat, n)
    ensures Entry(ft, SetEntry(ft, fat, n, val), n) == val % Modulus(ft)
  {
    match ft
    case FAT12 => SetEntrySame12(fat, n, val);
    case FAT16 => SplicedLe16(fat, n * 2, Put16(val));
    case FAT32 => SetEntrySame32(fat, n, val);
  }

  lemma SetEntrySame12(fat: seq<byte>, n: nat, val: nat)
    requires Holds(FAT12, fat, n)
    ensures Entry(FAT12, SetEntry(FAT12, fat, n, val), n) == val % 0x1000
  {
    hide Le16, Put16, Splice;
    var off := EntryOffset(FAT12, n);
    SplicedLe16(fat, off, EntryBytes(FAT12, fat, n, val));
    PackedWord(Le16(fat, off), val);
  }

  lemma SetEntrySame32(fat: seq<byte>, n: nat, val: nat)
    requires Holds(FAT32, fat, n)
    ensures Entry(FAT32, SetEntry(FAT32, fat, n, val), n) == val % 0x1000_0000
  {
    hide Le32, Put32, Splice;
    SplicedLe32(fat, n * 4, EntryBytes(FAT32, fat, n, val));
    PackedDword(Le32(fat, n * 4), val);
  }

  lemma PackedWord(w: nat, val: nat)
    requires w < 0x1_0000
    ensures w / 0x1000 * 0x1000 + val % 0x1000 < 0x1_0000 && w % 0x10 + val % 0x1000 * 0x10 < 0x1_0000
    ensures (w / 0x1000 * 0x1000 + val % 0x1000) % 0x1000 == val % 0x1000
    ensures (w % 0x10 + val % 0x1000 * 0x10) / 0x10 == val % 0x1000
  {
  }

  lemma PackedDword(w: nat, val: nat)
    requires w < 0x1_0000_0000
    ensures var v := w / 0x1000_0000 * 0x1000_0000 + val % 0x1000_0000;
            v < 0x1_0000_0000 && v % 0x1000_0000 == val % 0x1000_0000 && v / 0x1000_0000 == w / 0x1000_0000
  {
  }

  /** A store to an even FAT12 entry keeps the high nibble of the byte it shares with its successor. */
  lemma EvenStoreKeepsNibble(lo: byte, hi: byte, val: nat)
    ensures Put16((lo as int + 0x100 * hi as int) / 0x1000 * 0x1000 + val % 0x1000)[1] / 0x10 == hi / 0x10
  {
    var h, v := hi as int / 0x10, val % 0x1000;
    HighNibble(lo as int, hi as int);
    ThreeNibbles(h, v / 0x100, v % 0x100);
    assert (h * 0x10 + v / 0x100) % 0x100 == h * 0x10 + v / 0x100;
  }

  lemma HighNibble(lo: int, hi: int)
    requires 0 <= lo < 0x100 && 0 <= hi < 0x100
    ensures (lo + 0x100 * hi) / 0x1000 == hi / 0x10
  {
  }

  lemma ThreeNibbles(h: nat, m: nat, l: nat)
    requires h < 0x10 && m < 0x10 && l < 0x100
    ensures (h * 0x1000 + (0x100 * m + l)) / 0x100 == h * 0x10 + m
  {
  }

  /** A store to an odd one keeps the low nibble of the byte it shares with its predecessor. */
  lemma OddStoreKeepsNibble(lo: byte, hi: byte, val: nat)
    ensures Put16((lo as int + 0x100 * hi as int) % 0x10 + val % 0x1000 * 0x10)[0] % 0x10 == lo % 0x10
  {
    assert (lo as int + 0x100 * hi as int) % 0x10 == lo as int % 0x10;
    LowNibble(lo as int % 0x10, val % 0x1000);
  }

  lemma LowNibble(l: nat, v: nat)
    requires l < 0x10
    ensures (l + v * 0x10) % 0x100 % 0x10 == l
  {
  }

  /** ... and nowhere else, although odd and even FAT12 neighbours share a byte. */
  lemma SetEntryOther(ft: FatType, fat: seq<byte>, n: nat, val: nat, m: nat)
    requires Holds(ft, fat, n) && Holds(ft, fat, m) && n != m
    ensures Entry(ft, SetEntry(ft, fat, n, val), m) == Entry(ft, fat, m)
  {
    hide EntryBytes, Entry;
    if ft == FAT12 && m == n + 1 && n % 2 == 0 {
      SetEvenKeepsOdd(fat, n, val);
    } else if ft == FAT12 && n == m + 1 && m % 2 == 0 {
      SetOddKeepsEven(fat, n, val);
    } else {
      DisjointWindows(ft, n, m);
      EntryFrame(ft, fat, SetEntry(ft, fat, n, val), m);
    }
  }

  /** An entry depends on the bytes of its own window only. */
  lemma EntryFrame(ft: FatType, fat: seq<byte>, fat': seq<byte>, m: nat)
    requires Holds(ft, fat, m) && |fat'| == |fat|
    requires forall i :: EntryOffset(ft, m) <= i < EntryOffset(ft, m) + EntryWidth(ft) ==> fat'[i] == fat[i]
    ensures Entry(ft, fat', m) == Entry(ft, fat, m)
  {
    var o := EntryOffset(ft, m);
    assert fat'[o] == fat[o] && fat'[o + 1] == fat[o + 1];
    if ft == FAT32 { assert fat'[o + 2] == fat[o + 2] && fat'[o + 3] == fat[o + 3]; }
  }

  lemma DisjointWindows(ft: FatType, n: nat, m: nat)
    requires n != m
    requires ft == FAT12 ==> !(m == n + 1 && n % 2 == 0) && !(n == m + 1 && m % 2 == 0)
    ensures var a, b, w := EntryOffset(ft, n), EntryOffset(ft, m), EntryWidth(ft); a + w <= b || b + w <= a
  {
  }

  lemma SetEvenKeepsOdd(fat: seq<byte>, n: nat, val: nat)
    requires n % 2 == 0 && Holds(FAT12, fat, n + 1)
    ensures Entry(FAT12, SetEntry(FAT12, fat, n, val), n + 1) == Entry(FAT12, fat, n + 1)
  {
    var off := EntryOffset(FAT12, n);
    assert EntryOffset(FAT12, n + 1) == off + 1;
    EvenStoreKeepsNibble(fat[off], fat[off + 1], val);
    var r := SetEntry(FAT12, fat, n, val);
    assert r[off + 2] == fat[off + 2];
    OddValue(r[off + 1], fat[off + 1], r[off + 2]);
  }

  lemma OddValue(lo: byte, lo': byte, hi: byte)
    requires lo / 0x10 == lo' / 0x10
    ensures (lo as int + 0x100 * hi as int) / 0x10 == (lo' as int + 0x100 * hi as int) / 0x10
  {
    assert (lo as int + 0x100 * hi as int) / 0x10 == lo as int / 0x10 + 0x10 * hi as int;
  }

  lemma SetOddKeepsEven(fat: seq<byte>, n: nat, val: nat)
    requires n % 2 == 1 && Holds(FAT12, fat, n)
    ensures Entry(FAT12, SetEntry(FAT12, fat, n, val), n - 1) == Entry(FAT12, fat, n - 1)
  {
    var off := EntryOffset(FAT12, n);
    assert EntryOffset(FAT12, n - 1) == off - 1;
    OddStoreKeepsNibble(fat[off], fat[off + 1], val);
    var r := SetEntry(FAT12, fat, n, val);
    assert r[off - 1] == fat[off - 1];
    EvenValue(fat[off - 1], r[off], fat[off]);
  }

  lemma EvenValue(lo: byte, hi: byte, hi': byte)
    requires hi % 0x10 == hi' % 0x10
    ensures (lo as int + 0x100 * hi as int) % 0x1000 == (lo as int + 0x100 * hi' as int) % 0x1000
  {
  }

  /** A FAT32 store leaves the four reserved high bits of its entry alone. */
  lemma ReservedBitsKept(fat: seq<byte>, n: nat, val: nat)
    requires Holds(FAT32, fat, n)
    ensures Le32(SetEntry(FAT32, fat, n, val), 4 * n) / 0x1000_0000 == Le32(fat, 4 * n) / 0x1000_0000
  {
    var w := Le32(fat, 4 * n);
    PackedDword(w, val);
    hide Le32, Put32;
    SplicedLe32(fat, 4 * n, EntryBytes(FAT32, fat, n, val));
    assert EntryBytes(FAT32, fat, n, val) == Put32(w / 0x1000_0000 * 0x1000_0000 + val % 0x1000_0000);
    SmallWord(w / 0x1000_0000 * 0x1000_0000 + val % 0x1000_0000);
  }

  lemma SmallWord(v: nat)
    requires v < 0x1_0000_0000
    ensures Le32(Put32(v), 0) == v
  {
    hide Le32, Put32;
  }

  /** Every entry below `count` is stored inside the buffer. */
  ghost predicate HoldsAll(ft: FatType, fat: seq<byte>, count: nat) {
    forall n: nat :: n < count ==> Holds(ft, fat, n)
  }

  /** The table as the driver sees it: entries 0 .. count-1. */
  ghost function View(ft: FatType, fat: seq<byte>, count: nat): (t: seq<nat>)
    requires HoldsAll(ft, fat, count)
    ensures |t| == count
    ensures forall n: nat :: n < count ==> t[n] == Entry(ft, fat, n)
  {
    seq(count, n requires 0 <= n < count && HoldsAll(ft, fat, count) => Entry(ft, fat, n))
  }

  /** A buffer long enough for the last entry holds them all. */
  lemma LastHeld(ft: FatType, fat: seq<byte>, count: nat)
    requires count > 0 && Holds(ft, fat, count - 1)
    ensures HoldsAll(ft, fat, count)
  {
    forall n: nat | n < count ensures Holds(ft, fat, n) {
      assert EntryOffset(ft, n) <= EntryOffset(ft, count - 1);
    }
  }

  /** On the view, a store of a representable value is a one-point update. */
  lemma ViewOfSetEntry(ft: FatType, fat: seq<byte>, count: nat, n: nat, val: nat)
    requires n < count && HoldsAll(ft, fat, count) && val < Modulus(ft)
    ensures HoldsAll(ft, SetEntry(ft, fat, n, val), count)
    ensures View(ft, SetEntry(ft, fat, n, val), count) == View(ft, fat, count)[n := val]
  {
    hide Entry, SetEntry;
    var r := SetEntry(ft, fat, n, val);
    forall m: nat | m < count
      ensures Holds(ft, r, m) && Entry(ft, r, m) == View(ft, fat, count)[n := val][m]
    {
      if m == n { SetEntrySame(ft, fat, n, val); } else { SetEntryOther(ft, fat, n, val, m); }
    }
  }

  /** End marks are the eight highest values an entry can hold; the one the driver writes is the highest. */
  lemma EndMarks(ft: FatType, v: nat)
    requires v < Modulus(ft)
    ensures IsEoc(ft, v) <==> Modulus(ft) - 8 <= v
    ensures EocValue(ft) == Modulus(ft) - 1
  {
  }

  predicate AllFit(ft: FatType, vs: seq<nat>) {
    forall i :: 0 <= i < |vs| ==> vs[i] < Modulus(ft)
  }

  /** A table written out entry by entry: two bytes for a FAT16 entry, four for a FAT32 entry. */
  function Packed(ft: FatType, vs: seq<nat>): (r: seq<seq<byte>>)
    requires AllFit(ft, vs)
    ensures |r| == |vs| && forall i :: 0 <= i < |r| ==> |r[i]| == EntryWidth(ft) && r[i] == if ft.FAT32? then Put32(vs[i]) else Put16(vs[i])
  {
    seq(|vs|, i requires 0 <= i < |vs| => if ft.FAT32? then Put32(vs[i]) else Put16(vs[i]))
  }

  /** Three bytes for two FAT12 entries. */
  function Packed12(vs: seq<nat>): (r: seq<seq<byte>>)
    requires AllFit(FAT12, vs) && |vs| % 2 == 0
    ensures |r| == |vs| / 2 && forall i :: 0 <= i < |r| ==> |r[i]| == 3 && r[i] == Triple(vs[2 * i], vs[2 * i + 1])
  {
    seq(|vs| / 2, i requires 0 <= i < |vs| / 2 => Triple(vs[2 * i], vs[2 * i + 1]))
  }

  /** Two entries of twelve bits, the first one in the low bits. */
  function Triple(a: nat, b: nat): (r: seq<byte>)
    ensures |r| == 3
  {
    [a % 0x100, a / 0x100 % 0x10 + b % 0x10 * 0x10, b / 0x10 % 0x100]
  }

  lemma TripleReads(a: nat, b: nat)
    requires a < 0x1000 && b < 0x1000
    ensures Le16(Triple(a, b), 0) % 0x1000 == a && Le16(Triple(a, b), 1) / 0x10 == b
  {
  }

  /** Every entry of such a table reads back. */
  lemma PackedReads(ft: FatType, vs: seq<nat>, n: nat)
    requires !ft.FAT12? && AllFit(ft, vs) && n < |vs|
    ensures var fat := Concat(Packed(ft, vs)); Holds(ft, fat, n) && Entry(ft, fat, n) == vs[n]
  {
    hide Concat, Put32, Put16, Le16, Le32, Packed;
    var p := Packed(ft, vs);
    PieceAt(p, EntryWidth(ft), n);
    if ft.FAT32? { WordAt(Concat(p), n * 4, Put32(vs[n])); } else { HalfAt(Concat(p), n * 2, Put16(vs[n])); }
  }

  lemma PackedReads12(vs: seq<nat>, n: nat)
    requires AllFit(FAT12, vs) && |vs| % 2 == 0 && n < |vs|
    ensures var fat := Concat(Packed12(vs)); Holds(FAT12, fat, n) && Entry(FAT12, fat, n) == vs[n]
  {
    var p, i := Packed12(vs), n / 2;
    assert vs[2 * i] < Modulus(FAT12) && vs[2 * i + 1] < Modulus(FAT12);
    hide *;
    PieceAt(p, 3, i);
    EntryOfTriple(Concat(p), n, i, vs[2 * i], vs[2 * i + 1]);
  }

  lemma EntryOfTriple(fat: seq<byte>, n: nat, i: nat, a: nat, b: nat)
    requires i == n / 2 && a < 0x1000 && b < 0x1000 && i * 3 + 3 <= |fat| && fat[i * 3..i * 3 + 3] == Triple(a, b)
    ensures Holds(FAT12, fat, n) && Entry(FAT12, fat, n) == if n % 2 == 0 then a else b
  {
    hide Triple, Le16;
    TripleReads(a, b);
    PieceReads(fat, i * 3, Triple(a, b));
  }

  lemma PieceReads(fat: seq<byte>, off: nat, t: seq<byte>)
    requires |t| == 3 && off + 3 <= |fat| && fat[off..off + 3] == t
    ensures Le16(fat, off) == Le16(t, 0) && Le16(fat, off + 1) == Le16(t, 1)
  {
    var u := fat[off..off + 3];
    assert u[0] == t[0] && u[1] == t[1] && u[2] == t[2];
  }
}
