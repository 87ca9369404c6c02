/** Building a GUID partition table and parsing it back. */
module Gpt {
  import opened Bytes
  import opened Chunks

  /** A partition to build: start and size in bytes, the name as its 72-byte UTF-16 field. */
  datatype Part = Part(typeGUID: seq<byte>, uniqueGUID: seq<byte>, start: int, size: int, name: seq<byte>)

  predicate PartOk(p: Part) {
    |p.typeGUID| == 16 && p.typeGUID != Zeros(16) && |p.uniqueGUID| == 16 && |p.name| == 72 && 0 <= p.size < 0x4000_0000_0000_0000
  }

  ghost predicate AllOk(parts: seq<Part>) {
    |parts| <= 128 && forall i :: 0 <= i < |parts| ==> PartOk(parts[i])
  }

  /** Sectors a partition takes at `cursor`: rounded up, or all that is left for a size of 0. */
  function Sectors(p: Part, cursor: int, last: int): int {
    if p.size == 0 then last - cursor + 1 else (p.size + 511) / 512
  }

  /** First free sector after the first i partitions. */
  function Cursor(parts: seq<Part>, i: nat, last: int): int
    requires i <= |parts|
  {
    if i == 0 then 34 else Cursor(parts, i - 1, last) + Sectors(parts[i - 1], Cursor(parts, i - 1, last), last)
  }

  /** The first i partitions all end at or before the last usable sector. */
  ghost predicate Fit(parts: seq<Part>, i: nat, last: int) {
    i <= |parts| && forall k :: 1 <= k <= i ==> Cursor(parts, k, last) - 1 <= last
  }

  function Assigned(parts: seq<Part>, i: nat, last: int): Part
    requires i < |parts|
  {
    var c := Cursor(parts, i, last);
    parts[i].(start := c * 512, size := Sectors(parts[i], c, last) * 512)
  }

  lemma {:induction false} CursorInside(parts: seq<Part>, i: nat, last: int)
    requires AllOk(parts) && Fit(parts, i, last) && last >= 33
    ensures 34 <= Cursor(parts, i, last) <= last + 1
    ensures i < |parts| ==> Sectors(parts[i], Cursor(parts, i, last), last) >= 0
    ensures i > 0 ==> Cursor(parts, i - 1, last) <= Cursor(parts, i, last)
  {
    assert i < |parts| ==> PartOk(parts[i]);
    if i > 0 {
      CursorInside(parts, i - 1, last);
      assert Cursor(parts, i, last) - 1 <= last;
    }
  }

  lemma {:induction false} CursorGrows(parts: seq<Part>, i: nat, j: nat, last: int)
    requires AllOk(parts) && Fit(parts, j, last) && last >= 33 && i <= j
    ensures Cursor(parts, i, last) <= Cursor(parts, j, last)
    decreases j
  {
    if i < j {
      CursorInside(parts, j, last);
      CursorGrows(parts, i, j - 1, last);
    }
  }

  /** Assigned partitions lie in the usable range, do not overlap, and hold at least what was asked for. */
  lemma AssignedApart(parts: seq<Part>, i: nat, j: nat, last: int)
    requires AllOk(parts) && Fit(parts, |parts|, last) && last >= 33 && i < |parts| && j < |parts|
    ensures var a := Assigned(parts, i, last);
            && 34 * 512 <= a.start && a.start + a.size <= (last + 1) * 512
            && (parts[i].size > 0 ==> parts[i].size <= a.size < parts[i].size + 512) && a.size >= 0
    ensures i < j ==> Assigned(parts, i, last).start + Assigned(parts, i, last).size <= Assigned(parts, j, last).start
  {
    CursorInside(parts, i, last);
    assert Cursor(parts, i + 1, last) - 1 <= last;
    assert PartOk(parts[i]);
    if i < j {
      CursorGrows(parts, i + 1, j, last);
    }
  }

  /** Partitions that start together are empty: the usable range was used up before them. */
  lemma EmptyAtEnd(parts: seq<Part>, i: nat, j: nat, last: int)
    requires AllOk(parts) && Fit(parts, |parts|, last) && last >= 33 && i < j < |parts|
    ensures var a, b := Assigned(parts, i, last), Assigned(parts, j, last);
            a.start == b.start ==> a.size == 0 && b.size == 0
  {
    CursorInside(parts, i, last);
    CursorInside(parts, j, last);
    CursorGrows(parts, i + 1, j, last);
    assert PartOk(parts[i]) && PartOk(parts[j]);
    assert Cursor(parts, i + 1, last) == Cursor(parts, i, last) + Sectors(parts[i], Cursor(parts, i, last), last);
    assert Cursor(parts, j + 1, last) - 1 <= last;
    hide Cursor, Fit;
  }

  /** Places the partitions one behind the other; fails exactly if one does not fit. That one and those before it have
      been given their place by then. */
  method AssignExtents(parts: seq<Part>, last: int) returns (ok: bool, out: seq<Part>, ghost at: nat)
    requires AllOk(parts) && last >= 33
    ensures |out| == |parts| && at <= |parts| && Fit(parts, at, last) && (ok <==> at == |parts|)
    ensures !ok ==> !Fit(parts, at + 1, last)
    ensures forall i :: 0 <= i < |parts| ==> out[i] == if ok || i <= at then Assigned(parts, i, last) else parts[i]
  {
    hide *;
    out := parts;
    var cursor := 34;
    LaidNone(parts, last);
    for i := 0 to |parts|
      invariant Fit(parts, i, last) && cursor == Cursor(parts, i, last) && |out| == |parts| && Laid(parts, out, i, last)
    {
      PlaceNext(parts, out, i, last);
      var p := out[i].(start := cursor * 512);
      if p.size == 0 {
        p := p.(size := (last - cursor + 1) * 512);
      }
      var sectors := (p.size + 511) / 512;
      p := p.(size := sectors * 512);
      out := out[i := p];
      if cursor + sectors - 1 > last {
        LaidIs(parts, out, i + 1, last);
        return false, out, i;
      }
      cursor := cursor + sectors;
    }
    LaidIs(parts, out, |parts|, last);
    ok, at := true, |parts|;
  }

  /** The first i partitions have their place, the others are as they were. */
  ghost predicate Laid(parts: seq<Part>, out: seq<Part>, i: nat, last: int) {
    |out| == |parts| && forall k :: 0 <= k < |parts| ==> out[k] == if k < i then Assigned(parts, k, last) else parts[k]
  }

  lemma LaidNone(parts: seq<Part>, last: int)
    ensures Laid(parts, parts, 0, last) && Fit(parts, 0, last) && Cursor(parts, 0, last) == 34
  {
  }

  lemma LaidIs(parts: seq<Part>, out: seq<Part>, i: nat, last: int)
    requires Laid(parts, out, i, last)
    ensures |out| == |parts| && forall k :: 0 <= k < |parts| ==> out[k] == if k < i then Assigned(parts, k, last) else parts[k]
  {
  }

  lemma IsLaid(parts: seq<Part>, out: seq<Part>, i: nat, last: int)
    requires |out| == |parts| && forall k :: 0 <= k < |parts| ==> out[k] == if k < i then Assigned(parts, k, last) else parts[k]
    ensures Laid(parts, out, i, last)
  {
  }

  /** Placing the next partition. */
  lemma PlaceNext(parts: seq<Part>, out: seq<Part>, i: nat, last: int)
    requires AllOk(parts) && Fit(parts, i, last) && last >= 33 && i < |parts| && Laid(parts, out, i, last)
    ensures |out| == |parts| && out[i] == parts[i] && Laid(parts, out[i := Assigned(parts, i, last)], i + 1, last)
    ensures var c := Cursor(parts, i, last);
            var sectors := Sectors(parts[i], c, last);
            && c <= last + 1 && parts[i].size >= 0 && sectors == (if parts[i].size == 0 then last - c + 1 else (parts[i].size + 511) / 512)
            && Assigned(parts, i, last) == parts[i].(start := c * 512, size := sectors * 512)
            && Cursor(parts, i + 1, last) == c + sectors && (Fit(parts, i + 1, last) <==> c + sectors - 1 <= last)
  {
    CursorInside(parts, i, last);
    assert PartOk(parts[i]);
    var c := Cursor(parts, i, last);
    var sectors := Sectors(parts[i], c, last);
    assert Cursor(parts, i + 1, last) == c + sectors;
    assert Assigned(parts, i, last) == parts[i].(start := c * 512, size := sectors * 512);
    hide Cursor, Sectors, Assigned;
  }

  lemma WholeSectors(n: int)
    ensures (n * 512 + 511) / 512 == n
  {
  }

  /** The 128 bytes of a partition entry. */
  function Entry(p: Part): (e: seq<byte>)
    requires |p.typeGUID| == 16 && |p.uniqueGUID| == 16 && |p.name| == 72 && 34 * 512 <= p.start < TWO63 && 0 <= p.size < TWO63
    ensures |e| == 128
  {
    Join(p.typeGUID, p.uniqueGUID, Put64(p.start / 512), Put64(p.start / 512 + p.size / 512 - 1), p.name)
  }

  function Join(t: seq<byte>, u: seq<byte>, first: seq<byte>, end: seq<byte>, name: seq<byte>): (e: seq<byte>)
    ensures |e| == |t| + |u| + |first| + |end| + 8 + |name|
  {
    t + u + first + end + Zeros(8) + name
  }

  /** What the parser reports. */
  datatype Found = Found(index: nat, start: int, size: int, typeGUID: seq<byte>, name: seq<byte>)

  function Decode(e: seq<byte>, index: nat): Found
    requires |e| >= 128
  {
    var first, end := Le64(e, 32), Le64(e, 40);
    Found(index, StartOf(first), SizeOf(first, end), e[0..16], e[56..128])
  }

  ghost predicate Placed(p: Part) {
    PartOk(p) && 34 * 512 <= p.start && p.start % 512 == 0 && p.size % 512 == 0 && p.start + p.size < TWO63
  }

  ghost predicate AllPlaced(parts: seq<Part>) {
    |parts| <= 128 && forall i :: 0 <= i < |parts| ==> Placed(parts[i])
  }

  lemma PlacedAt(parts: seq<Part>, i: nat)
    requires AllPlaced(parts) && i < |parts|
    ensures Placed(parts[i]) && |parts| <= 128
  {
  }

  /** Decoding an entry gives back what was encoded. */
  lemma DecodeEntry(p: Part, index: nat)
    requires Placed(p)
    ensures Decode(Entry(p), index) == Found(index, p.start, p.size, p.typeGUID, p.name) && Entry(p)[0..16] == p.typeGUID
  {
    hide *;
    EntryAs(p);
    DecodeParts(p.typeGUID, p.uniqueGUID, Put64(Lba(p.start)), Put64(EndLba(p)), p.name, index);
  }

  /** Sector numbers of a partition. */
  function Lba(x: int): int {
    x / 512
  }

  function EndLba(p: Part): int {
    Lba(p.start) + Lba(p.size) - 1
  }

  /** An entry, field by field, and what its numbers mean. */
  lemma EntryAs(p: Part)
    requires Placed(p)
    ensures |p.typeGUID| == 16 && |p.uniqueGUID| == 16 && |p.name| == 72
    ensures 0 <= Lba(p.start) < 0x1_0000_0000_0000_0000 && 0 <= EndLba(p) < 0x1_0000_0000_0000_0000
    ensures 34 * 512 <= p.start < TWO63 && 0 <= p.size < TWO63
    ensures Entry(p) == Join(p.typeGUID, p.uniqueGUID, Put64(Lba(p.start)), Put64(EndLba(p)), p.name)
    ensures StartOf(Lba(p.start)) == p.start && SizeOf(Lba(p.start), EndLba(p)) == p.size
  {
    hide Put64, Join, StartOf, SizeOf;
    Numbers(p.start, p.size);
  }

  /** Start and size as computed from first and last sector. */
  function StartOf(first: nat): int {
    AsInt64(AsInt64(first) * 512)
  }

  function SizeOf(first: nat, end: nat): int {
    AsInt64(AsInt64((end - first + 1) % TWO64) * 512)
  }

  lemma DecodeParts(a: seq<byte>, b: seq<byte>, c: seq<byte>, d: seq<byte>, n: seq<byte>, index: nat)
    requires |a| == 16 && |b| == 16 && |c| == 8 && |d| == 8 && |n| == 72
    ensures var e := Join(a, b, c, d, n);
            e[0..16] == a && Decode(e, index) == Found(index, StartOf(Le64(c, 0)), SizeOf(Le64(c, 0), Le64(d, 0)), a, n)
  {
    hide Le64, StartOf, SizeOf;
    var e := Join(a, b, c, d, n);
    QuadAt(e, 32, c);
    QuadAt(e, 40, d);
  }

  /** Sector numbers make the round trip through 64-bit arithmetic. */
  lemma Numbers(start: int, size: int)
    requires 34 * 512 <= start && 0 <= size && start % 512 == 0 && size % 512 == 0 && start + size < TWO63
    ensures var first, sectors := start / 512, size / 512;
            0 <= first + sectors - 1 < TWO63 && StartOf(first) == start && SizeOf(first, first + sectors - 1) == size
  {
    var first, sectors := start / 512, size / 512;
    assert first * 512 == start && sectors * 512 == size;
    hide AsInt64;
    assert (first + sectors - 1 - first + 1) % TWO64 == sectors;
  }

  /** Entries of the first i partitions, and nothing behind them. */
  ghost function Table(parts: seq<Part>, i: nat): (t: seq<byte>)
    requires AllPlaced(parts) && i <= |parts|
    ensures |t| == 16384
  {
    if i == 0 then Zeros(16384) else Splice(Table(parts, i - 1), (i - 1) * 128, Entry(parts[i - 1]))
  }

  lemma {:induction false} TableSlots(parts: seq<Part>, i: nat, k: nat)
    requires AllPlaced(parts) && i <= |parts| && k < 128
    ensures k < i ==> Placed(parts[k])
    ensures Table(parts, i)[k * 128..k * 128 + 128] == if k < i then Entry(parts[k]) else Zeros(128)
    decreases i
  {
    hide *;
    if i == 0 {
      TableEmpty(parts, k);
    } else {
      TableSlots(parts, i - 1, k);
      PlacedAt(parts, i - 1);
      EntryAs(parts[i - 1]);
      TableNext(parts, i - 1);
      SlotSpliced(Table(parts, i - 1), i - 1, Entry(parts[i - 1]), k);
    }
  }

  lemma TableEmpty(parts: seq<Part>, k: nat)
    requires AllPlaced(parts) && k < 128
    ensures Table(parts, 0)[k * 128..k * 128 + 128] == Zeros(128)
  {
  }

  lemma SlotSpliced(b: seq<byte>, i: nat, e: seq<byte>, k: nat)
    requires |b| == 16384 && |e| == 128 && i < 128 && k < 128
    ensures Splice(b, i * 128, e)[k * 128..k * 128 + 128] == if k == i then e else b[k * 128..k * 128 + 128]
  {
    var r := Splice(b, i * 128, e);
    if k == i {
      assert r[k * 128..k * 128 + 128] == e;
    } else {
      assert r[k * 128..k * 128 + 128] == b[k * 128..k * 128 + 128];
    }
  }

  lemma TableNext(parts: seq<Part>, i: nat)
    requires AllPlaced(parts) && i < |parts| && Placed(parts[i])
    ensures Table(parts, i + 1) == Splice(Table(parts, i), i * 128, Entry(parts[i]))
  {
  }

  /** Fills the entry array, field by field. */
  method FillEntries(parts: seq<Part>) returns (buf: array<byte>)
    requires AllPlaced(parts)
    ensures buf[..] == Table(parts, |parts|)
  {
    buf := new byte[16384](i => 0);
    assert buf[..] == Zeros(16384) == Table(parts, 0);
    hide *;
    for i := 0 to |parts|
      invariant buf.Length == 16384 && buf[..] == Table(parts, i)
    {
      BlankSlot(parts, i);
      StoreEntry(buf, i * 128, parts[i]);
    }
  }

  method StoreEntry(buf: array<byte>, off: nat, p: Part)
    requires off + 128 <= buf.Length && Placed(p) && Blank(buf[..], off)
    modifies buf
    ensures buf[..] == Splice(old(buf[..]), off, Entry(p))
  {
    hide *;
    EntryAs(p);
    BlankIs(buf[..], off);
    FieldByField(buf[..], off, p.typeGUID, p.uniqueGUID, Put64(Lba(p.start)), Put64(EndLba(p)), p.name);
    StoreBytes(buf, off, p.typeGUID);
    StoreBytes(buf, off + 16, p.uniqueGUID);
    StoreBytes(buf, off + 32, Put64(Lba(p.start)));
    StoreBytes(buf, off + 40, Put64(EndLba(p)));
    StoreBytes(buf, off + 56, p.name);
  }

  /** An entry slot that holds nothing yet. */
  ghost predicate Blank(b: seq<byte>, off: nat) {
    off + 128 <= |b| && b[off..off + 128] == Zeros(128)
  }

  lemma BlankIs(b: seq<byte>, off: nat)
    requires Blank(b, off)
    ensures off + 128 <= |b| && b[off..off + 128] == Zeros(128)
  {
  }

  lemma BlankSlot(parts: seq<Part>, i: nat)
    requires AllPlaced(parts) && i < |parts|
    ensures Blank(Table(parts, i), i * 128) && i * 128 + 128 <= 16384
  {
    TableSlots(parts, i, i);
  }

  lemma FieldByField(b: seq<byte>, off: nat, t: seq<byte>, u: seq<byte>, c: seq<byte>, d: seq<byte>, n: seq<byte>)
    requires |t| == 16 && |u| == 16 && |c| == 8 && |d| == 8 && |n| == 72 && off + 128 <= |b| && b[off..off + 128] == Zeros(128)
    ensures Splice(Splice(Splice(Splice(Splice(b, off, t), off + 16, u), off + 32, c), off + 40, d), off + 56, n)
            == Splice(b, off, Join(t, u, c, d, n))
  {
    var e := Join(t, u, c, d, n);
    var l := Splice(Splice(Splice(Splice(Splice(b, off, t), off + 16, u), off + 32, c), off + 40, d), off + 56, n);
    var r := Splice(b, off, e);
    forall k | 0 <= k < |b| ensures l[k] == r[k] {
      if off + 48 <= k < off + 56 {
        assert b[k] == b[off..off + 128][k - off] == 0;
      }
    }
    assert l == r;
  }

  const SIGNATURE: seq<byte> := [0x45, 0x46, 0x49, 0x20, 0x50, 0x41, 0x52, 0x54]

  /** The 92 bytes of a header, its own checksum left at zero: header sector, sector of the other header, last usable
      sector, disk GUID, first sector of the entries, checksum of the entries. */
  function RawHeader(my: nat, alt: nat, last: nat, guid: seq<byte>, entries: nat, tableSum: nat): (h: seq<byte>)
    requires |guid| == 16 && my < TWO64 && alt < TWO64 && last < TWO64 && entries < TWO64
    ensures |h| == 92
  {
    Head() + Sectors4(my, alt, last) + guid + Tail(entries, tableSum)
  }

  /** Signature, revision, header size, no checksum yet. */
  function Head(): (h: seq<byte>)
    ensures |h| == 24
  {
    SIGNATURE + Put32(0x1_0000) + Put32(92) + Zeros(8)
  }

  function Sectors4(my: nat, alt: nat, last: nat): (h: seq<byte>)
    requires my < TWO64 && alt < TWO64 && last < TWO64
    ensures |h| == 32
  {
    Put64(my) + Put64(alt) + Put64(34) + Put64(last)
  }

  function Tail(entries: nat, tableSum: nat): (h: seq<byte>)
    requires entries < TWO64
    ensures |h| == 20
  {
    Put64(entries) + Put32(128) + Put32(128) + Put32(tableSum)
  }

  /** A header, checksum included, in a sector of its own. */
  function HeaderSector(raw: seq<byte>, sum: nat): (h: seq<byte>)
    requires |raw| == 92
    ensures |h| == 512
  {
    Splice(raw, 16, Put32(sum)) + Zeros(420)
  }

  /** The header in the sector at byte `at`; `crc` is the checksum function. */
  ghost predicate HeaderAt(disk: seq<byte>, at: nat, crc: seq<byte> -> nat, my: nat, alt: nat, last: nat, guid: seq<byte>, entries: nat, tableSum: nat) {
    && at + 512 <= |disk| && disk[at..at + 8] == SIGNATURE && Le32(disk, at + 8) == 0x1_0000 && Le32(disk, at + 12) == 92
    && Le32(disk, at + 16) == crc(Splice(disk[at..at + 92], 16, Zeros(4))) % TWO32
    && Le64(disk, at + 24) == my && Le64(disk, at + 32) == alt && Le64(disk, at + 40) == 34 && Le64(disk, at + 48) == last
    && disk[at + 56..at + 72] == guid && Le64(disk, at + 72) == entries
    && Le32(disk, at + 80) == 128 && Le32(disk, at + 84) == 128 && Le32(disk, at + 88) == tableSum % TWO32
  }

  /** Both headers say where they and each other are, and have the same GUID and checksum of the table. */
  ghost predicate Headers(disk: seq<byte>, crc: seq<byte> -> nat, guid: seq<byte>, table: seq<byte>) {
    var n := |disk| / 512;
    && n >= 68
    && HeaderAt(disk, 512, crc, 1, n - 1, n - 35, guid, 2, crc(table))
    && HeaderAt(disk, (n - 1) * 512, crc, n - 1, 1, n - 35, guid, n - 33, crc(table))
  }

  /** The protective MBR: one entry of type 0xEE from sector 1 on. */
  function ProtectiveMbr(count: nat): (m: seq<byte>)
    ensures |m| == 512
  {
    Zeros(0x1BE) + [0, 0, 2, 0, 0xEE, 0xFF, 0xFF, 0xFF] + Put32(1) + Put32(count) + Zeros(48) + [0x55, 0xAA]
  }

  /** Sectors behind the MBR, as far as 32 bits can say. */
  function Behind(sectors: nat): (r: nat)
    requires sectors >= 1
    ensures r < sectors && r <= 0xFFFF_FFFF && (r == sectors - 1 || r == 0xFFFF_FFFF)
  {
    if sectors - 1 < TWO32 then sectors - 1 else TWO32 - 1
  }

  ghost predicate MbrAt(disk: seq<byte>) {
    && |disk| >= 512 && disk[0x1C2] == 0xEE && Le32(disk, 0x1C6) == 1 && Le32(disk, 0x1CA) == Behind(|disk| / 512)
    && disk[0x1CE..0x1FE] == Zeros(48) && disk[510] == 0x55 && disk[511] == 0xAA
    && disk[..0x1C2] == Zeros(0x1BE) + [0, 0, 2, 0] && disk[0x1C3..0x1C6] == [0xFF, 0xFF, 0xFF]
  }

  /** Boot sector, primary header and primary entries as written. */
  ghost predicate Primary(disk: seq<byte>, table: seq<byte>) {
    && |disk| >= 34 * 512 && |table| == 16384 && disk[0x1C2] == 0xEE
    && disk[512..520] == SIGNATURE && Le64(disk, 584) == 2 && Le32(disk, 592) == 128 && Le32(disk, 596) == 128
    && disk[1024..1024 + 16384] == table
  }

  /** Everything between the two copies is as before. */
  ghost predicate Between(disk: seq<byte>, disk': seq<byte>) {
    && |disk'| == |disk|
    && forall k :: 34 * 512 <= k < |disk| && !((|disk| / 512 - 33) * 512 <= k < |disk| / 512 * 512) ==> disk'[k] == disk[k]
  }

  datatype Outcome = NotGpt | Bad | Parsed(parts: seq<Found>)

  function Slot(table: seq<byte>, i: nat, size: nat): (e: seq<byte>)
    requires Times(i, size) + size <= |table|
    ensures |e| == size
  {
    table[Times(i, size)..Times(i, size) + size]
  }

  /** The non-empty entries from number i on. */
  function Collect(table: seq<byte>, i: nat, num: nat, size: nat): seq<Found>
    requires i <= num && Times(num, size) <= |table|
    decreases num - i
  {
    if i == num then []
    else
      TimesMonotone(i, num, size);
      Take(Slot(table, i, size), i + 1) + Collect(table, i + 1, num, size)
  }

  /** What one entry contributes. */
  function Take(e: seq<byte>, index: nat): seq<Found> {
    if |e| < 128 || e[0..16] == Zeros(16) then [] else [Decode(e, index)]
  }

  function TypeAt(disk: seq<byte>, i: nat): byte
    requires i < 4 && |disk| >= 512
  {
    disk[0x1BE + i * 16 + 4]
  }

  /** One of the four MBR entries is of type 0xEE. */
  ghost predicate Protective(disk: seq<byte>)
    requires |disk| >= 512
  {
    exists i: nat :: i < 4 && TypeAt(disk, i) == 0xEE
  }

  /** Where the entries start: 64-bit arithmetic, so a wild sector number wraps. */
  function AreaStart(disk: seq<byte>): int
    requires |disk| >= 1024
  {
    AsInt64(AsInt64(Le64(disk, 584)) * 512)
  }

  function AreaSize(disk: seq<byte>): nat
    requires |disk| >= 1024
  {
    Times(Le32(disk, 592), Le32(disk, 596))
  }

  /** There is a header, and the entries it names are on the disk; no bytes can be read anywhere. */
  ghost predicate Readable(disk: seq<byte>) {
    && |disk| >= 1024 && Protective(disk) && disk[512..520] == SIGNATURE
    && AreaStart(disk) >= 0 && (AreaSize(disk) > 0 ==> AreaStart(disk) + AreaSize(disk) <= |disk|)
  }

  function Area(disk: seq<byte>): (a: seq<byte>)
    requires |disk| >= 1024 && AreaStart(disk) >= 0 && (AreaSize(disk) > 0 ==> AreaStart(disk) + AreaSize(disk) <= |disk|)
    ensures |a| == AreaSize(disk)
  {
    if AreaSize(disk) == 0 then [] else disk[AreaStart(disk)..AreaStart(disk) + AreaSize(disk)]
  }

  /** What a parser makes of a disk: not a GPT, no readable GPT, or the non-empty entries in order. */
  method Parse(disk: seq<byte>) returns (r: Outcome)
    ensures r.NotGpt? <==> |disk| >= 512 && !Protective(disk)
    ensures r.Parsed? <==> Readable(disk)
    ensures r.Parsed? ==> r.parts == Collect(Area(disk), 0, Le32(disk, 592), Le32(disk, 596))
  {
    hide Protective, Le64, Le32, AsInt64, Collect, Times;
    if |disk| < 512 {
      return Bad;
    }
    var found := FindProtective(disk);
    if !found {
      return NotGpt;
    }
    if |disk| < 1024 || disk[512..520] != SIGNATURE {
      return Bad;
    }
    var lba, num, size := Le64(disk, 584), Le32(disk, 592), Le32(disk, 596);
    var start, length := AsInt64(AsInt64(lba) * 512), Times(num, size);
    if start < 0 || (length > 0 && start + length > |disk|) {
      return Bad;
    }
    var area := if length == 0 then [] else disk[start..start + length];
    var parts := CollectEntries(area, num, size);
    r := Parsed(parts);
  }

  /** A committed disk is readable, and its entries are the table. */
  lemma PrimaryReadable(disk: seq<byte>, t: seq<byte>)
    requires Primary(disk, t)
    ensures Readable(disk) && Area(disk) == t && Le32(disk, 592) == 128 && Le32(disk, 596) == 128 && |t| == Times(128, 128)
  {
    TimesIsProduct(128, 128);
    FirstSlot(disk);
    hide Le64, Le32, Times, Protective;
  }

  method FindProtective(disk: seq<byte>) returns (found: bool)
    requires |disk| >= 512
    ensures found <==> Protective(disk)
  {
    hide TypeAt;
    var i := 0;
    while i < 4
      invariant 0 <= i <= 4 && forall k: nat :: k < i ==> TypeAt(disk, k) != 0xEE
    {
      if TypeAt(disk, i) == 0xEE {
        return true;
      }
      i := i + 1;
    }
    return false;
  }

  lemma FirstSlot(disk: seq<byte>)
    requires |disk| >= 512
    ensures disk[0x1C2] == 0xEE ==> Protective(disk)
  {
    assert TypeAt(disk, 0) == disk[0x1C2];
  }

  method CollectEntries(area: seq<byte>, num: nat, size: nat) returns (out: seq<Found>)
    requires Times(num, size) == |area|
    ensures out == Collect(area, 0, num, size)
  {
    hide *;
    out := [];
    var i := 0;
    CollectStep(area, num, num, size);
    while i < num
      invariant 0 <= i <= num && Collect(area, 0, num, size) == out + Collect(area, i, num, size)
    {
      CollectStep(area, i, num, size);
      out := out + Take(Slot(area, i, size), i + 1);
      i := i + 1;
    }
  }

  lemma CollectStep(area: seq<byte>, i: nat, num: nat, size: nat)
    requires i <= num && Times(num, size) == |area|
    ensures i < num ==> Times(i, size) + size <= |area|
    ensures Collect(area, i, num, size) == if i == num then [] else Take(Slot(area, i, size), i + 1) + Collect(area, i + 1, num, size)
  {
    if i < num { TimesMonotone(i, num, size); }
  }

  /** The partitions as the parser reports them. */
  ghost function Reported(parts: seq<Part>, i: nat): seq<Found>
    requires i <= |parts|
    decreases |parts| - i
  {
    if i == |parts| then []
    else [Found(i + 1, parts[i].start, parts[i].size, parts[i].typeGUID, parts[i].name)] + Reported(parts, i + 1)
  }

  lemma {:induction false} CollectTable(parts: seq<Part>, t: seq<byte>, i: nat)
    requires AllPlaced(parts) && i <= 128 && t == Table(parts, |parts|)
    ensures Times(128, 128) == 16384 && Collect(t, i, 128, 128) == if i < |parts| then Reported(parts, i) else []
    decreases 128 - i
  {
    hide *;
    TimesIsProduct(128, 128);
    CollectStep(t, i, 128, 128);
    NoneLeft(parts);
    PartsCount(parts);
    if i < 128 {
      CollectTable(parts, t, i + 1);
      TableSlots(parts, |parts|, i);
      TimesIsProduct(i, 128);
      SlotIs(t, i);
      if i < |parts| {
        TakeEntry(parts[i], i + 1);
        ReportStep(parts, i);
      } else {
        TakeNothing(i + 1);
      }
    }
  }

  lemma PartsCount(parts: seq<Part>)
    requires AllPlaced(parts)
    ensures |parts| <= 128
  {
  }

  lemma SlotIs(t: seq<byte>, i: nat)
    requires Times(i, 128) + 128 <= |t| && Times(i, 128) == i * 128
    ensures Slot(t, i, 128) == t[i * 128..i * 128 + 128]
  {
  }

  lemma TakeEntry(p: Part, index: nat)
    requires Placed(p)
    ensures Take(Entry(p), index) == [Found(index, p.start, p.size, p.typeGUID, p.name)]
  {
    DecodeEntry(p, index);
    hide Decode, Entry, Zeros;
  }

  lemma TakeNothing(index: nat)
    ensures Take(Zeros(128), index) == []
  {
    assert Zeros(128)[0..16] == Zeros(16);
  }

  lemma ReportStep(parts: seq<Part>, i: nat)
    requires i < |parts|
    ensures Reported(parts, i) == [Found(i + 1, parts[i].start, parts[i].size, parts[i].typeGUID, parts[i].name)] + Reported(parts, i + 1)
  {
  }

  lemma TypeOf(p: Part)
    requires Placed(p)
    ensures p.typeGUID != Zeros(16)
  {
  }

  lemma NoneLeft(parts: seq<Part>)
    ensures Reported(parts, |parts|) == []
  {
  }

  /** Parsing what was written for the assigned partitions reports exactly them. */
  lemma ParseBack(disk: seq<byte>, parts: seq<Part>)
    requires AllPlaced(parts) && Primary(disk, Table(parts, |parts|))
    ensures Readable(disk) && Collect(Area(disk), 0, Le32(disk, 592), Le32(disk, 596)) == Reported(parts, 0)
  {
    PrimaryReadable(disk, Table(parts, |parts|));
    CollectTable(parts, Table(parts, |parts|), 0);
  }

  lemma HeadReads()
    ensures var h := Head(); h[0..8] == SIGNATURE && Le32(h, 8) == 0x1_0000 && Le32(h, 12) == 92 && h[16..24] == Zeros(8)
  {
    hide Put32, Le32;
    var h := Head();
    assert h[0..8] == SIGNATURE && h[8..12] == Put32(0x1_0000) && h[12..16] == Put32(92) && h[16..24] == Zeros(8);
    WordAt(h, 8, Put32(0x1_0000));
    WordAt(h, 12, Put32(92));
  }

  lemma SectorsRead(my: nat, alt: nat, last: nat)
    requires my < TWO64 && alt < TWO64 && last < TWO64
    ensures var h := Sectors4(my, alt, last); Le64(h, 0) == my && Le64(h, 8) == alt && Le64(h, 16) == 34 && Le64(h, 24) == last
  {
    hide Put64, Le64;
    var h := Sectors4(my, alt, last);
    assert h[0..8] == Put64(my) && h[8..16] == Put64(alt) && h[16..24] == Put64(34) && h[24..32] == Put64(last);
    QuadAt(h, 0, Put64(my));
    QuadAt(h, 8, Put64(alt));
    QuadAt(h, 16, Put64(34));
    QuadAt(h, 24, Put64(last));
  }

  lemma TailReads(entries: nat, tableSum: nat)
    requires entries < TWO64
    ensures var h := Tail(entries, tableSum); Le64(h, 0) == entries && Le32(h, 8) == 128 && Le32(h, 12) == 128 && Le32(h, 16) == tableSum % TWO32
  {
    hide Put64, Put32, Le64, Le32;
    var h := Tail(entries, tableSum);
    assert h[0..8] == Put64(entries) && h[8..12] == Put32(128) && h[12..16] == Put32(128) && h[16..20] == Put32(tableSum);
    QuadAt(h, 0, Put64(entries));
    WordAt(h, 8, Put32(128));
    WordAt(h, 12, Put32(128));
    WordAt(h, 16, Put32(tableSum));
  }

  /** A word inside a part of the disk. */
  lemma WordInside(disk: seq<byte>, at: nat, part: seq<byte>, i: nat)
    requires at + |part| <= |disk| && disk[at..at + |part|] == part && i + 4 <= |part|
    ensures Le32(disk, at + i) == Le32(part, i)
  {
    var u := disk[at..at + |part|];
    assert u[i] == disk[at + i] && u[i + 1] == disk[at + i + 1] && u[i + 2] == disk[at + i + 2] && u[i + 3] == disk[at + i + 3];
  }

  lemma QuadInside(disk: seq<byte>, at: nat, part: seq<byte>, i: nat)
    requires at + |part| <= |disk| && disk[at..at + |part|] == part && i + 8 <= |part|
    ensures Le64(disk, at + i) == Le64(part, i)
  {
    hide Le32;
    WordInside(disk, at, part, i);
    WordInside(disk, at, part, i + 4);
  }

  /** The parts of a header sector on the disk. */
  lemma HeaderParts(disk: seq<byte>, at: nat, mid: seq<byte>, guid: seq<byte>, tail: seq<byte>, sum: nat)
    requires |mid| == 32 && |guid| == 16 && |tail| == 20 && at + 512 <= |disk|
    requires disk[at..at + 512] == HeaderSector(Head() + mid + guid + tail, sum)
    ensures disk[at..at + 16] == Head()[0..16] && disk[at + 16..at + 20] == Put32(sum)
    ensures disk[at + 24..at + 56] == mid && disk[at + 56..at + 72] == guid && disk[at + 72..at + 92] == tail
    ensures Splice(disk[at..at + 92], 16, Zeros(4)) == Head() + mid + guid + tail
  {
    HeadReads();
    hide Head, Put32, Le32;
    var raw := Head() + mid + guid + tail;
    var h := HeaderSector(raw, sum);
    SubSlice(disk, at, at + 512, 0, 16);
    SubSlice(disk, at, at + 512, 16, 20);
    SubSlice(disk, at, at + 512, 24, 56);
    SubSlice(disk, at, at + 512, 56, 72);
    SubSlice(disk, at, at + 512, 72, 92);
    SubSlice(disk, at, at + 512, 0, 92);
    assert h[0..16] == Head()[0..16] && h[16..20] == Put32(sum) && h[24..56] == mid && h[56..72] == guid && h[72..92] == tail;
    assert forall k :: 16 <= k < 20 ==> raw[k] == Head()[16..24][k - 16] == 0;
    assert Splice(h[0..92], 16, Zeros(4)) == raw;
  }

  /** Signature, revision and size, where the first 16 bytes are those of a header. */
  lemma HeadInside(disk: seq<byte>, at: nat)
    requires at + 16 <= |disk| && disk[at..at + 16] == Head()[0..16]
    ensures disk[at..at + 8] == SIGNATURE && Le32(disk, at + 8) == 0x1_0000 && Le32(disk, at + 12) == 92
  {
    hide *;
    HeadReads();
    var h := Head();
    SubSlice(disk, at, at + 16, 0, 8);
    SubSlice(h, 0, 16, 0, 8);
    WordInside(disk, at, h[0..16], 8);
    WordInside(disk, at, h[0..16], 12);
    WordInside(h, 0, h[0..16], 8);
    WordInside(h, 0, h[0..16], 12);
  }

  lemma SectorsInside(disk: seq<byte>, at: nat, my: nat, alt: nat, last: nat)
    requires my < TWO64 && alt < TWO64 && last < TWO64 && at + 32 <= |disk| && disk[at..at + 32] == Sectors4(my, alt, last)
    ensures Le64(disk, at) == my && Le64(disk, at + 8) == alt && Le64(disk, at + 16) == 34 && Le64(disk, at + 24) == last
  {
    hide *;
    SectorsRead(my, alt, last);
    QuadInside(disk, at, Sectors4(my, alt, last), 0);
    QuadInside(disk, at, Sectors4(my, alt, last), 8);
    QuadInside(disk, at, Sectors4(my, alt, last), 16);
    QuadInside(disk, at, Sectors4(my, alt, last), 24);
  }

  lemma TailInside(disk: seq<byte>, at: nat, entries: nat, tableSum: nat)
    requires entries < TWO64 && at + 20 <= |disk| && disk[at..at + 20] == Tail(entries, tableSum)
    ensures Le64(disk, at) == entries && Le32(disk, at + 8) == 128 && Le32(disk, at + 12) == 128 && Le32(disk, at + 16) == tableSum % TWO32
  {
    hide *;
    TailReads(entries, tableSum);
    QuadInside(disk, at, Tail(entries, tableSum), 0);
    WordInside(disk, at, Tail(entries, tableSum), 8);
    WordInside(disk, at, Tail(entries, tableSum), 12);
    WordInside(disk, at, Tail(entries, tableSum), 16);
  }

  /** A header that was written reads back, and its checksum is right. */
  lemma HeaderReads(disk: seq<byte>, at: nat, crc: seq<byte> -> nat, my: nat, alt: nat, last: nat, guid: seq<byte>, entries: nat, tableSum: nat)
    requires |guid| == 16 && my < TWO64 && alt < TWO64 && last < TWO64 && entries < TWO64 && at + 512 <= |disk|
    requires var raw := RawHeader(my, alt, last, guid, entries, tableSum); disk[at..at + 512] == HeaderSector(raw, crc(raw))
    ensures HeaderAt(disk, at, crc, my, alt, last, guid, entries, tableSum)
  {
    hide *;
    var raw := RawHeader(my, alt, last, guid, entries, tableSum);
    var mid, tail := Sectors4(my, alt, last), Tail(entries, tableSum);
    RawIs(my, alt, last, guid, entries, tableSum);
    HeaderParts(disk, at, mid, guid, tail, crc(raw));
    HeadInside(disk, at);
    WordAt(disk, at + 16, Put32(crc(raw)));
    SectorsInside(disk, at + 24, my, alt, last);
    TailInside(disk, at + 72, entries, tableSum);
    HeaderIs(disk, at, crc, my, alt, last, guid, entries, tableSum);
  }

  lemma RawIs(my: nat, alt: nat, last: nat, guid: seq<byte>, entries: nat, tableSum: nat)
    requires |guid| == 16 && my < TWO64 && alt < TWO64 && last < TWO64 && entries < TWO64
    ensures RawHeader(my, alt, last, guid, entries, tableSum) == Head() + Sectors4(my, alt, last) + guid + Tail(entries, tableSum)
  {
  }

  lemma HeaderIs(disk: seq<byte>, at: nat, crc: seq<byte> -> nat, my: nat, alt: nat, last: nat, guid: seq<byte>, entries: nat, tableSum: nat)
    requires at + 512 <= |disk| && disk[at..at + 8] == SIGNATURE && Le32(disk, at + 8) == 0x1_0000 && Le32(disk, at + 12) == 92
    requires Le32(disk, at + 16) == crc(Splice(disk[at..at + 92], 16, Zeros(4))) % 0x1_0000_0000
    requires Le64(disk, at + 24) == my && Le64(disk, at + 24 + 8) == alt && Le64(disk, at + 24 + 16) == 34 && Le64(disk, at + 24 + 24) == last
    requires disk[at + 56..at + 72] == guid && Le64(disk, at + 72) == entries
    requires Le32(disk, at + 72 + 8) == 128 && Le32(disk, at + 72 + 12) == 128 && Le32(disk, at + 72 + 16) == tableSum % TWO32
    ensures HeaderAt(disk, at, crc, my, alt, last, guid, entries, tableSum)
  {
    hide Le32, Le64, Splice;
  }

  /** The five writes of a commit. */
  function Committed(disk: seq<byte>, mbr: seq<byte>, hdr: seq<byte>, table: seq<byte>, hdr2: seq<byte>): (r: seq<byte>)
    requires |mbr| == 512 && |hdr| == 512 && |hdr2| == 512 && |table| == 16384 && |disk| >= 68 * 512
    ensures |r| == |disk|
  {
    var n := |disk| / 512;
    Splice(Splice(Splice(Splice(Splice(disk, 0, mbr), 512, hdr), 1024, table), (n - 33) * 512, table), (n - 1) * 512, hdr2)
  }

  lemma CommittedBytes(disk: seq<byte>, mbr: seq<byte>, hdr: seq<byte>, table: seq<byte>, hdr2: seq<byte>)
    requires |mbr| == 512 && |hdr| == 512 && |hdr2| == 512 && |table| == 16384 && |disk| >= 68 * 512
    ensures var r, n := Committed(disk, mbr, hdr, table, hdr2), |disk| / 512;
            && r[0..512] == mbr && r[512..1024] == hdr && r[1024..1024 + 16384] == table
            && r[(n - 33) * 512..(n - 1) * 512] == table && r[(n - 1) * 512..n * 512] == hdr2
            && Between(disk, r)
  {
  }

  /** What the writes of a commit leave on the disk. */
  lemma MbrReads(disk: seq<byte>)
    requires |disk| >= 512 && disk[0..512] == ProtectiveMbr(Behind(|disk| / 512))
    ensures MbrAt(disk)
  {
    var count := Behind(|disk| / 512);
    var m := ProtectiveMbr(count);
    hide Put32, Le32;
    assert m[0x1C6..0x1CA] == Put32(1) && m[0x1CA..0x1CE] == Put32(count) && m[0x1CE..0x1FE] == Zeros(48);
    assert m[0..0x1C2] == Zeros(0x1BE) + [0, 0, 2, 0] && m[0x1C3..0x1C6] == [0xFF, 0xFF, 0xFF];
    SubSlice(disk, 0, 512, 0, 0x1C2);
    SubSlice(disk, 0, 512, 0x1C3, 0x1C6);
    assert disk[0x1C2] == m[0x1C2] && disk[510] == m[510] && disk[511] == m[511];
    SubSlice(disk, 0, 512, 0x1C6, 0x1CA);
    SubSlice(disk, 0, 512, 0x1CA, 0x1CE);
    SubSlice(disk, 0, 512, 0x1CE, 0x1FE);
    WordAt(disk, 0x1C6, Put32(1));
    WordAt(disk, 0x1CA, Put32(count));
  }

  lemma IsPrimary(disk: seq<byte>, table: seq<byte>, crc: seq<byte> -> nat, guid: seq<byte>)
    requires |disk| >= 34 * 512 && |table| == 16384 && MbrAt(disk) && Headers(disk, crc, guid, table)
    requires disk[1024..1024 + 16384] == table
    ensures Primary(disk, table)
  {
    hide Le32, Le64, Splice;
  }

  /** The last sector a partition may use. */
  function LastUsable(size: nat): int {
    size / 512 - 34 - 1
  }

  /** A random UUID of version 4. */
  predicate IsGuid(g: seq<byte>) {
    |g| == 16 && g[6] / 16 == 4 && g[8] / 64 == 2
  }

  method NewGuid() returns (g: seq<byte>)
    ensures IsGuid(g)
  {
    g := AnyBytes(16);
    g := g[6 := g[6] % 16 + 0x40];
    g := g[8 := g[8] % 64 + 0x80];
  }

  /** Each partition is given a GUID of its own. */
  method DrawGuids(parts: seq<Part>) returns (out: seq<Part>)
    ensures Redrawn(parts, out)
  {
    hide IsGuid;
    out := [];
    for i := 0 to |parts|
      invariant Redrawn(parts[..i], out)
    {
      var g := NewGuid();
      out := out + [parts[i].(uniqueGUID := g)];
    }
    assert parts[..|parts|] == parts;
  }

  /** Only the GUIDs are new. */
  ghost predicate Redrawn(parts: seq<Part>, out: seq<Part>) {
    |out| == |parts| && forall i :: 0 <= i < |parts| ==> IsGuid(out[i].uniqueGUID) && out[i] == parts[i].(uniqueGUID := out[i].uniqueGUID)
  }

  /** Every partition has its extent and a GUID. */
  ghost predicate AssignedWith(parts: seq<Part>, out: seq<Part>, last: int) {
    && |out| == |parts|
    && forall i :: 0 <= i < |parts| ==> IsGuid(out[i].uniqueGUID) && out[i] == Assigned(parts, i, last).(uniqueGUID := out[i].uniqueGUID)
  }

  lemma WithGuids(parts: seq<Part>, last: int, laid: seq<Part>, out: seq<Part>)
    requires |laid| == |parts| && (forall i :: 0 <= i < |parts| ==> laid[i] == Assigned(parts, i, last)) && Redrawn(laid, out)
    ensures AssignedWith(parts, out, last) && |out| == |parts|
  {
    hide Assigned, IsGuid;
  }

  class Builder {
    /** The checksum of a sequence of bytes. */
    const crc: seq<byte> -> nat
    var parts: seq<Part>
    var disk: seq<byte>

    constructor (crc: seq<byte> -> nat, disk: seq<byte>)
      ensures this.crc == crc && this.disk == disk && parts == []
    {
      this.crc, parts, this.disk := crc, [], disk;
    }

    method AddPartition(p: Part)
      modifies `parts
      ensures parts == old(parts) + [p]
    {
      parts := parts + [p];
    }

    /** Assigns the extents and writes both copies of the table; nothing is written if a partition does not fit. */
    method Commit() returns (ok: bool, ghost guid: seq<byte>, ghost at: nat)
      requires AllOk(parts) && 68 * 512 <= |disk| < 0x4000_0000_0000_0000
      modifies this
      ensures |disk| == |old(disk)| && |parts| == |old(parts)|
      ensures ok <==> Fit(old(parts), |parts|, LastUsable(|disk|))
      ensures ok ==> IsGuid(guid) && AssignedWith(old(parts), parts, LastUsable(|disk|))
      ensures ok ==> AllPlaced(parts) && Primary(disk, Table(parts, |parts|)) && Between(old(disk), disk)
      ensures ok ==> MbrAt(disk) && Headers(disk, crc, guid, Table(parts, |parts|)) && BackupEntries(disk, Table(parts, |parts|))
      ensures !ok ==> disk == old(disk) && Fit(old(parts), at, LastUsable(|disk|)) && Laid(old(parts), parts, at + 1, LastUsable(|disk|))
    {
      hide *;
      ghost var was := parts;
      var last := LastUsable(|disk|);
      EnoughRoom(|disk|);
      var laid;
      guid := [];
      ok, laid, at := AssignExtents(parts, last);
      if !ok {
        NoFit(was, at, last);
        IsLaid(was, laid, at + 1, last);
      }
      parts := laid;
      if !ok {
        return;
      }
      var n := |disk| / 512;
      var mbr := ProtectiveMbr(Behind(n));
      var diskGuid := NewGuid();
      guid := diskGuid;
      parts := DrawGuids(laid);
      WithGuids(was, last, laid, parts);
      Places(was, last, parts, |disk|);
      var entries := FillEntries(parts);
      var table := entries[..];
      var sum := crc(table);
      var raw := RawHeader(1, n - 1, last, diskGuid, 2, sum);
      var raw2 := RawHeader(n - 1, 1, last, diskGuid, n - 33, sum);
      var hdr, hdr2 := HeaderSector(raw, crc(raw)), HeaderSector(raw2, crc(raw2));
      CommittedBytes(disk, mbr, hdr, table, hdr2);
      disk := Committed(disk, mbr, hdr, table, hdr2);
      MbrReads(disk);
      HeaderReads(disk, 512, crc, 1, n - 1, last, diskGuid, 2, sum);
      HeaderReads(disk, (n - 1) * 512, crc, n - 1, 1, last, diskGuid, n - 33, sum);
      BothHeaders(disk, crc, diskGuid, table);
      IsPrimary(disk, table, crc, diskGuid);
    }
  }

  /** The copy of the entries at the end. */
  ghost predicate BackupEntries(disk: seq<byte>, table: seq<byte>) {
    var n := |disk| / 512;
    n >= 34 && disk[(n - 33) * 512..(n - 1) * 512] == table
  }

  lemma BothHeaders(disk: seq<byte>, crc: seq<byte> -> nat, guid: seq<byte>, table: seq<byte>)
    requires |disk| / 512 >= 68
    requires var n := |disk| / 512;
             && HeaderAt(disk, 512, crc, 1, n - 1, LastUsable(|disk|), guid, 2, crc(table))
             && HeaderAt(disk, (n - 1) * 512, crc, n - 1, 1, LastUsable(|disk|), guid, n - 33, crc(table))
             && disk[(n - 33) * 512..(n - 1) * 512] == table
    ensures Headers(disk, crc, guid, table) && BackupEntries(disk, table)
  {
    hide HeaderAt;
  }

  /** If the first ones do not fit, all do not. */
  lemma NoFit(parts: seq<Part>, at: nat, last: int)
    requires at < |parts| && !Fit(parts, at + 1, last)
    ensures !Fit(parts, |parts|, last)
  {
    hide Cursor;
  }

  lemma EnoughRoom(size: nat)
    requires 68 * 512 <= size < 0x4000_0000_0000_0000
    ensures 33 <= LastUsable(size) < TWO64 && 68 <= size / 512 < TWO64 && 2 < TWO64
  {
  }

  /** Assigned partitions are ready to be encoded. */
  lemma Places(parts: seq<Part>, last: int, out: seq<Part>, size: nat)
    requires AllOk(parts) && Fit(parts, |parts|, last) && last >= 33 && last == LastUsable(size) && size < 0x4000_0000_0000_0000
    requires AssignedWith(parts, out, last)
    ensures AllPlaced(out)
  {
    forall i | 0 <= i < |out| ensures Placed(out[i]) {
      AssignedApart(parts, i, i, last);
      assert PartOk(parts[i]);
      hide Cursor, Fit;
    }
  }
}
