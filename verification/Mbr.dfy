/** The partition table of a master boot record. */
module Mbr {
  import opened Bytes
  import opened Chunks

  datatype Part = Part(index: nat, start: nat, size: nat)

  /** The four entries: type, first sector, number of sectors. */
  function TypeOf(disk: seq<byte>, i: nat): byte
    requires i < 4 && |disk| >= 512
  {
    disk[0x1BE + i * 16 + 4]
  }

  function FirstOf(disk: seq<byte>, i: nat): nat
    requires i < 4 && |disk| >= 512
  {
    Le32(disk, 0x1BE + i * 16 + 8)
  }

  function SectorsOf(disk: seq<byte>, i: nat): nat
    requires i < 4 && |disk| >= 512
  {
    Le32(disk, 0x1BE + i * 16 + 12)
  }

  predicate Used(disk: seq<byte>, i: nat)
    requires i < 4 && |disk| >= 512
  {
    TypeOf(disk, i) != 0 && SectorsOf(disk, i) != 0
  }

  /** A used entry of type 0xEE: the disk belongs to a GPT. */
  predicate Protective(disk: seq<byte>, i: nat)
    requires i < 4 && |disk| >= 512
  {
    Used(disk, i) && TypeOf(disk, i) == 0xEE
  }

  /** Used entries that start on the disk, up to number i. */
  function Listed(disk: seq<byte>, i: nat): seq<Part>
    requires i <= 4 && |disk| >= 512
  {
    if i == 0 then []
    else
      var rest := Listed(disk, i - 1);
      if Used(disk, i - 1) && FirstOf(disk, i - 1) * 512 < |disk| then rest + [Part(i, FirstOf(disk, i - 1) * 512, SectorsOf(disk, i - 1) * 512)]
      else rest
  }

  /** What the table says: nothing without a signature, or with a protective entry. */
  ghost function Partitions(disk: seq<byte>): seq<Part>
    requires |disk| >= 512
  {
    if Le16(disk, 510) != 0xAA55 || exists i: nat :: i < 4 && Protective(disk, i) then [] else Listed(disk, 4)
  }

  method Parse(disk: seq<byte>) returns (r: seq<Part>)
    requires |disk| >= 512
    ensures r == Partitions(disk)
  {
    hide TypeOf, FirstOf, SectorsOf, Le16;
    if Le16(disk, 510) != 0xAA55 {
      return [];
    }
    r := [];
    for i := 0 to 4
      invariant r == Listed(disk, i) && forall k: nat :: k < i ==> !Protective(disk, k)
    {
      if TypeOf(disk, i) == 0 || SectorsOf(disk, i) == 0 {
        continue;
      }
      if TypeOf(disk, i) == 0xEE {
        assert Protective(disk, i);
        return [];
      }
      var startByte := FirstOf(disk, i) * 512;
      if startByte >= |disk| {
        continue;
      }
      r := r + [Part(i + 1, startByte, SectorsOf(disk, i) * 512)];
    }
  }

  /** Listed partitions start on the disk, have sectors, and are numbered by their slots in ascending order. */
  lemma {:induction false} ListedParts(disk: seq<byte>, i: nat)
    requires i <= 4 && |disk| >= 512
    ensures forall k :: 0 <= k < |Listed(disk, i)| ==> Listed(disk, i)[k].start < |disk| && Listed(disk, i)[k].size >= 512
    ensures forall k :: 0 <= k < |Listed(disk, i)| ==> 1 <= Listed(disk, i)[k].index <= i
    ensures forall k, m :: 0 <= k < m < |Listed(disk, i)| ==> Listed(disk, i)[k].index < Listed(disk, i)[m].index
  {
    hide TypeOf, FirstOf, SectorsOf;
    if i > 0 { ListedParts(disk, i - 1); }
  }

  /** An entry as partitioning tools write it: status, CHS address of the first sector, type, CHS address of the last one, first sector, count. */
  datatype Entry = Entry(status: byte, chsFirst: seq<byte>, kind: byte, chsLast: seq<byte>, first: nat, count: nat)

  predicate EntryOk(e: Entry) {
    |e.chsFirst| == 3 && |e.chsLast| == 3 && e.first < 0x1_0000_0000 && e.count < 0x1_0000_0000
  }

  function EntryBytes(e: Entry): (r: seq<byte>)
    requires EntryOk(e)
    ensures |r| == 16
  {
    [e.status] + e.chsFirst + [e.kind] + e.chsLast + Put32(e.first) + Put32(e.count)
  }

  function Table(es: seq<Entry>): (r: seq<seq<byte>>)
    requires forall i :: 0 <= i < |es| ==> EntryOk(es[i])
    ensures |r| == |es| && forall i :: 0 <= i < |r| ==> |r[i]| == 16 && r[i] == EntryBytes(es[i])
  {
    seq(|es|, i requires 0 <= i < |es| => EntryBytes(es[i]))
  }

  /** A disk: 446 bytes of boot code, four entries, the signature, everything else. */
  function Partitioned(boot: seq<byte>, es: seq<Entry>, rest: seq<byte>): (disk: seq<byte>)
    requires |boot| == 446 && |es| == 4 && forall i :: 0 <= i < 4 ==> EntryOk(es[i])
    ensures |disk| == 512 + |rest|
  {
    ConcatLength(Table(es), 16);
    TimesIsProduct(4, 16);
    boot + Concat(Table(es)) + [0x55, 0xAA] + rest
  }

  /** What an entry is read as. */
  lemma EntryReads(boot: seq<byte>, es: seq<Entry>, rest: seq<byte>, i: nat)
    requires |boot| == 446 && |es| == 4 && (forall k :: 0 <= k < 4 ==> EntryOk(es[k])) && i < 4
    ensures var disk := Partitioned(boot, es, rest);
            TypeOf(disk, i) == es[i].kind && FirstOf(disk, i) == es[i].first && SectorsOf(disk, i) == es[i].count
  {
    var disk, t := Partitioned(boot, es, rest), Table(es);
    PieceAt(t, 16, i);
    hide Concat, Put32, Le32, EntryBytes;
    assert disk[446..510] == Concat(t);
    SubSlice(disk, 446, 510, i * 16, i * 16 + 16);
    EntryAt(disk, 446 + i * 16, es[i]);
  }

  lemma EntryAt(disk: seq<byte>, at: nat, e: Entry)
    requires EntryOk(e) && at + 16 <= |disk| && disk[at..at + 16] == EntryBytes(e)
    ensures disk[at + 4] == e.kind && Le32(disk, at + 8) == e.first && Le32(disk, at + 12) == e.count
  {
    hide Put32, Le32;
    var b := EntryBytes(e);
    assert disk[at + 4] == disk[at..at + 16][4] == b[4];
    assert b[8..12] == Put32(e.first) && b[12..16] == Put32(e.count);
    SubSlice(disk, at, at + 16, 8, 12);
    SubSlice(disk, at, at + 16, 12, 16);
    WordAt(disk, at + 8, Put32(e.first));
    WordAt(disk, at + 12, Put32(e.count));
  }

  /** The partitions such a table stands for: entries with a type and sectors that start on the disk, in bytes. */
  function Meant(es: seq<Entry>, size: nat): seq<Part> {
    if es == [] then []
    else
      var k := |es| - 1;
      Meant(es[..k], size)
      + if es[k].kind != 0 && es[k].count != 0 && es[k].first * 512 < size then [Part(k + 1, es[k].first * 512, es[k].count * 512)] else []
  }

  /** Reading the table gives those partitions, or none if a used entry is protective. */
  lemma ReadsBack(boot: seq<byte>, es: seq<Entry>, rest: seq<byte>)
    requires |boot| == 446 && |es| == 4 && forall i :: 0 <= i < 4 ==> EntryOk(es[i])
    ensures var disk := Partitioned(boot, es, rest);
            Partitions(disk) == if exists i: nat :: i < 4 && es[i].kind == 0xEE && es[i].count != 0 then [] else Meant(es, |disk|)
  {
    var disk := Partitioned(boot, es, rest);
    forall i: nat | i < 4 ensures Protective(disk, i) <==> es[i].kind == 0xEE && es[i].count != 0 {
      EntryReads(boot, es, rest, i);
    }
    assert disk[510..512] == [0x55, 0xAA];
    HalfAt(disk, 510, [0x55, 0xAA]);
    ListedIs(boot, es, rest, 4);
    assert es[..4] == es;
    hide Partitioned, Listed, Protective, Le16, Meant;
    if exists i: nat :: i < 4 && es[i].kind == 0xEE && es[i].count != 0 {
      var i: nat :| i < 4 && es[i].kind == 0xEE && es[i].count != 0;
      assert Protective(disk, i);
    }
  }

  lemma {:induction false} ListedIs(boot: seq<byte>, es: seq<Entry>, rest: seq<byte>, k: nat)
    requires |boot| == 446 && |es| == 4 && (forall i :: 0 <= i < 4 ==> EntryOk(es[i])) && k <= 4
    ensures var disk := Partitioned(boot, es, rest); Listed(disk, k) == Meant(es[..k], |disk|)
  {
    hide Partitioned, TypeOf, FirstOf, SectorsOf;
    if k > 0 {
      EntryReads(boot, es, rest, k - 1);
      ListedIs(boot, es, rest, k - 1);
      assert es[..k][..k - 1] == es[..k - 1] && es[..k][k - 1] == es[k - 1];
    }
  }

  /** An ordinary table, used from the front: every entry is a partition. */
  lemma {:induction false} AllMeant(es: seq<Entry>, n: nat, size: nat)
    requires n <= |es| && forall i :: 0 <= i < n ==> es[i].kind != 0 && es[i].count != 0 && es[i].first * 512 < size
    requires forall i :: n <= i < |es| ==> es[i].kind == 0
    ensures |Meant(es, size)| == n && forall i :: 0 <= i < n ==> Meant(es, size)[i] == Part(i + 1, es[i].first * 512, es[i].count * 512)
    decreases |es|
  {
    if es != [] {
      var k := |es| - 1;
      AllMeant(es[..k], if n <= k then n else k, size);
    }
  }
}
