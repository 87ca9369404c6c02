/** The 32-byte short directory entry. */
module FatEntry {
  import opened Bytes

  datatype ShortEntry = ShortEntry(shortName: seq<byte>, attr: byte, crtTime: nat, crtDate: nat, cluster: nat,
                                   wrtTime: nat, wrtDate: nat, size: nat)
  {
    predicate InRange() {
      && |shortName| == 11 && crtTime < 0x1_0000 && crtDate < 0x1_0000 && wrtTime < 0x1_0000 && wrtDate < 0x1_0000
      && cluster < 0x1_0000_0000 && size < 0x1_0000_0000
    }
  }

  lemma StaysInRange(e: ShortEntry, size: nat, date: nat, time: nat)
    requires size < 0x1_0000_0000
    ensures e.InRange() && date < 0x1_0000 && time < 0x1_0000 ==> e.(size := size, wrtDate := date, wrtTime := time).InRange()
  {
  }

  function Encode(e: ShortEntry): (r: seq<byte>)
    requires |e.shortName| == 11
    ensures |r| == 32
  {
    e.shortName + [e.attr, 0, 0] + Put16(e.crtTime) + Put16(e.crtDate) + [0, 0] + Put16(e.cluster / 0x1_0000)
    + Put16(e.wrtTime) + Put16(e.wrtDate) + Put16(e.cluster) + Put32(e.size)
  }

  function Decode(raw: seq<byte>): ShortEntry
    requires |raw| >= 32
  {
    ShortEntry(raw[..11], raw[11], Le16(raw, 14), Le16(raw, 16), Le16(raw, 20) * 0x1_0000 + Le16(raw, 26),
               Le16(raw, 22), Le16(raw, 24), Le32(raw, 28))
  }

  /** A directory reader gets back every field the writer stored. */
  lemma DecodeEncode(e: ShortEntry)
    requires e.InRange()
    ensures Decode(Encode(e)) == e
    ensures Encode(e)[12] == Encode(e)[13] == Encode(e)[18] == Encode(e)[19] == 0
  {
    hide Put16, Put32, Le16;
    var r := Encode(e);
    assert r[..11] == e.shortName;
    HalfAt(r, 14, Put16(e.crtTime));
    HalfAt(r, 16, Put16(e.crtDate));
    HalfAt(r, 20, Put16(e.cluster / 0x1_0000));
    HalfAt(r, 22, Put16(e.wrtTime));
    HalfAt(r, 24, Put16(e.wrtDate));
    HalfAt(r, 26, Put16(e.cluster));
    var t := Put32(e.size);
    assert r[28..] == t;
    HalfAt(r, 28, t[..2]);
    HalfAt(r, 30, t[2..]);
    HalfAt(t, 0, t[..2]);
    HalfAt(t, 2, t[2..]);
  }
}
