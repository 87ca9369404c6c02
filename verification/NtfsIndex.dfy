/** Index headers and INDX blocks: entries packed one behind the other, closed by a sentinel. */
module NtfsIndex {
  import opened Wrappers
  import opened Bytes
  import opened Chunks

  type Entry = seq<byte>

  predicate LastFlag(data: seq<byte>, off: nat)
    requires off + 16 <= |data|
  {
    Le32(data, off + 12) / 2 % 2 == 1
  }

  function EntLen(data: seq<byte>, off: nat): nat
    requires off + 16 <= |data|
  {
    Le16(data, off + 8)
  }

  /** Length of the $FILE_NAME key behind the 16-byte entry header. */
  function KeyLen(data: seq<byte>, off: nat): nat
    requires off + 16 <= |data|
  {
    Le16(data, off + 10)
  }

  /** An entry says its own length, holds its key, and is not the sentinel. */
  predicate IsEntry(e: Entry) {
    16 <= |e| < 0x1_0000 && EntLen(e, 0) == |e| && !LastFlag(e, 0) && 16 + KeyLen(e, 0) <= |e|
  }

  predicate AllEntries(es: seq<Entry>) {
    forall i :: 0 <= i < |es| ==> IsEntry(es[i])
  }

  predicate IsSentinel(s: seq<byte>) {
    |s| == 16 && LastFlag(s, 0)
  }

  /** The entry list a directory reader sees: collectIndexEntries before the names are decoded. */
  function Seen(data: seq<byte>, off: nat): seq<Entry>
    requires off <= |data|
    decreases |data| - off
  {
    if off + 16 > |data| || LastFlag(data, off) then []
    else
      var n := EntLen(data, off);
      if n < 16 || off + n > |data| then [] else [data[off..off + n]] + Seen(data, off + n)
  }

  /** Where the sentinel starts, as the writers look for it. */
  function FindSentinel(data: seq<byte>, off: nat): (r: int)
    requires off <= |data|
    ensures r == -1 || (off <= r && r + 16 <= |data|)
    decreases |data| - off
  {
    if off + 16 > |data| then -1
    else if LastFlag(data, off) then off
    else
      var n := EntLen(data, off);
      if n == 0 || off + n > |data| then -1 else FindSentinel(data, off + n)
  }

  /** The raw entries the writers collect before they repack them. */
  function Raw(data: seq<byte>, off: nat): seq<Entry>
    requires off <= |data|
    decreases |data| - off
  {
    if off + 16 > |data| || LastFlag(data, off) then []
    else
      var n := EntLen(data, off);
      if n == 0 || off + n > |data| then [] else [data[off..off + n]] + Raw(data, off + n)
  }

  /** Entry e sits at `off` in `data`. */
  ghost predicate At(data: seq<byte>, off: nat, e: seq<byte>) {
    off + |e| <= |data| && data[off..off + |e|] == e
  }

  lemma AtFields(data: seq<byte>, off: nat, e: seq<byte>)
    requires At(data, off, e) && |e| >= 16
    ensures EntLen(data, off) == EntLen(e, 0) && LastFlag(data, off) == LastFlag(e, 0) && KeyLen(data, off) == KeyLen(e, 0)
  {
    assert forall i :: 0 <= i < |e| ==> data[off + i] == data[off..off + |e|][i] == e[i];
  }

  /** All three scans run over a packed list of entries and stop at its sentinel. */
  lemma {:induction false} ScanPacked(data: seq<byte>, off: nat, es: seq<Entry>, sent: seq<byte>)
    requires AllEntries(es) && IsSentinel(sent) && At(data, off, Concat(es) + sent)
    ensures Seen(data, off) == es && Raw(data, off) == es && FindSentinel(data, off) == off + |Concat(es)|
    decreases |es|
  {
    hide Seen, Raw, FindSentinel, IsEntry, IsSentinel;
    var packed := Concat(es) + sent;
    if es == [] {
      assert packed == sent;
      ScanEnd(data, off, sent);
    } else {
      var e, rest := es[0], Concat(es[1..]) + sent;
      assert packed == e + rest;
      AtParts(data, off, e, rest);
      ScanOne(data, off, e);
      ScanPacked(data, off + |e|, es[1..], sent);
      assert [e] + es[1..] == es;
    }
  }

  lemma AtParts(data: seq<byte>, off: nat, a: seq<byte>, b: seq<byte>)
    requires At(data, off, a + b)
    ensures At(data, off, a) && At(data, off + |a|, b)
  {
    var s := a + b;
    SubSlice(data, off, off + |s|, 0, |a|);
    SubSlice(data, off, off + |s|, |a|, |s|);
    assert s[0..|a|] == a && s[|a|..|s|] == b;
  }

  lemma ScanOne(data: seq<byte>, off: nat, e: Entry)
    requires IsEntry(e) && At(data, off, e)
    ensures Seen(data, off) == [e] + Seen(data, off + |e|) && Raw(data, off) == [e] + Raw(data, off + |e|)
    ensures FindSentinel(data, off) == FindSentinel(data, off + |e|)
  {
    AtFields(data, off, e);
    hide LastFlag, EntLen;
  }

  lemma ScanEnd(data: seq<byte>, off: nat, sent: seq<byte>)
    requires IsSentinel(sent) && At(data, off, sent)
    ensures Seen(data, off) == [] && Raw(data, off) == [] && FindSentinel(data, off) == off
  {
    AtFields(data, off, sent);
  }

  /** An index header and its entries: entries_offset, index_length, then the packed list. */
  ghost predicate Header(hdr: seq<byte>, es: seq<Entry>) {
    && |hdr| >= 16 && AllEntries(es)
    && var eo, il := Le32(hdr, 0), Le32(hdr, 4);
       && 16 <= eo <= il <= |hdr| && il == eo + |Concat(es)| + 16
       && hdr[eo..eo + |Concat(es)|] == Concat(es) && IsSentinel(hdr[il - 16..il])
  }

  /** What the directory reader gets from a header. */
  function Entries(hdr: seq<byte>): seq<Entry> {
    if |hdr| < 16 then []
    else
      var eo, il := Le32(hdr, 0), Le32(hdr, 4);
      if eo > |hdr| || il > |hdr| || eo > il then [] else Seen(hdr[eo..il], 0)
  }

  function RawEntries(hdr: seq<byte>): seq<Entry> {
    if |hdr| < 8 then []
    else
      var eo, il := Le32(hdr, 0), Le32(hdr, 4);
      if eo > |hdr| || il > |hdr| || eo > il then [] else Raw(hdr[eo..il], 0)
  }

  lemma HeaderData(hdr: seq<byte>, es: seq<Entry>)
    requires Header(hdr, es)
    ensures var eo, il := Le32(hdr, 0), Le32(hdr, 4); At(hdr[eo..il], 0, Concat(es) + hdr[il - 16..il])
  {
    var eo, il := Le32(hdr, 0), Le32(hdr, 4);
    var d := hdr[eo..il];
    assert d == hdr[eo..eo + |Concat(es)|] + hdr[il - 16..il];
    assert d[0..|d|] == d;
  }

  lemma EntriesOfHeader(hdr: seq<byte>, es: seq<Entry>)
    requires Header(hdr, es)
    ensures Entries(hdr) == es && RawEntries(hdr) == es
    ensures FindSentinel(hdr[Le32(hdr, 0)..Le32(hdr, 4)], 0) == |Concat(es)|
  {
    hide Seen, Raw, FindSentinel;
    HeaderData(hdr, es);
    ScanPacked(hdr[Le32(hdr, 0)..Le32(hdr, 4)], 0, es, hdr[Le32(hdr, 4) - 16..Le32(hdr, 4)]);
  }

  /** A resident index header with one more entry in front of its sentinel. */
  function InsertIndexEntry(hdr: seq<byte>, e: Entry): Option<seq<byte>>
    requires |hdr| >= 12
  {
    var eo, il := Le32(hdr, 0), Le32(hdr, 4);
    if eo > |hdr| || il > |hdr| || eo > il then None
    else
      var at := FindSentinel(hdr[eo..il], 0);
      if at < 0 then None
      else
        Some(WithLengths(hdr[..eo + at] + e + hdr[eo + at..], il + |e|))
  }

  /** Both length fields of an index header set to `v`. */
  function WithLengths(hdr: seq<byte>, v: nat): (r: seq<byte>)
    requires |hdr| >= 12
    ensures |r| == |hdr|
  {
    Splice(Splice(hdr, 4, Put32(v)), 8, Put32(v))
  }

  lemma {:induction false} AppendOne(es: seq<Entry>, e: Entry)
    ensures Concat(es + [e]) == Concat(es) + e
  {
    ConcatAppend(es, [e]);
    assert [e][1..] == [] && Concat([e]) == e + Concat([]);
  }

  /** Inserting makes the header's entry list the old one and the new entry. */
  lemma InsertAppends(hdr: seq<byte>, es: seq<Entry>, e: Entry)
    requires Header(hdr, es) && IsEntry(e) && Le32(hdr, 4) + |e| < 0x1_0000_0000
    ensures InsertIndexEntry(hdr, e).Some? && Header(InsertIndexEntry(hdr, e).value, es + [e])
    ensures |InsertIndexEntry(hdr, e).value| == |hdr| + |e|
  {
    hide FindSentinel, WithLengths, AllEntries;
    EntriesOfHeader(hdr, es);
    GrownHeader(hdr, es, e);
  }

  lemma GrownHeader(hdr: seq<byte>, es: seq<Entry>, e: Entry)
    requires Header(hdr, es) && IsEntry(e) && Le32(hdr, 4) + |e| < 0x1_0000_0000
    ensures var at := Le32(hdr, 0) + |Concat(es)|;
            Header(WithLengths(hdr[..at] + e + hdr[at..], Le32(hdr, 4) + |e|), es + [e])
  {
    hide WithLengths, IsEntry, Concat, Le32, IsSentinel;
    AppendOne(es, e);
    var eo, il, n := Le32(hdr, 0), Le32(hdr, 4), |Concat(es)|;
    var grown := hdr[..eo + n] + e + hdr[eo + n..];
    var r := WithLengths(grown, il + |e|);
    LengthsUpdated(grown, il + |e|);
    SameLe32(r, 0, hdr, 0);
    MovedParts(hdr, e, eo, n, il, r);
  }

  /** Entries and sentinel of the grown header, piece by piece. */
  lemma MovedParts(hdr: seq<byte>, e: Entry, eo: nat, n: nat, il: nat, r: seq<byte>)
    requires 16 <= eo && il == eo + n + 16 <= |hdr| && |r| == |hdr| + |e|
    requires var grown := hdr[..eo + n] + e + hdr[eo + n..]; forall p :: 12 <= p < |r| ==> r[p] == grown[p]
    ensures r[eo..eo + n + |e|] == hdr[eo..eo + n] + e
    ensures r[il + |e| - 16..il + |e|] == hdr[il - 16..il]
  {
  }

  lemma LengthsUpdated(grown: seq<byte>, v: nat)
    requires |grown| >= 12 && v < 0x1_0000_0000
    ensures var r := WithLengths(grown, v);
            Le32(r, 4) == v && forall p :: 0 <= p < |grown| && !(4 <= p < 12) ==> r[p] == grown[p]
  {
    var m := Splice(grown, 4, Put32(v));
    SplicedLe32(grown, 4, Put32(v));
    OutsideLe32(m, 8, Put32(v), 4);
  }

  /** The writers' scan for the sentinel. */
  method LocateSentinel(data: seq<byte>) returns (r: int)
    ensures r == FindSentinel(data, 0)
  {
    var off := 0;
    while off + 16 <= |data|
      invariant 0 <= off <= |data| && FindSentinel(data, 0) == FindSentinel(data, off)
      decreases |data| - off
    {
      if LastFlag(data, off) {
        return off;
      }
      var n := EntLen(data, off);
      if n == 0 || off + n > |data| {
        break;
      }
      off := off + n;
    }
    return -1;
  }

  /** One step of the collecting scan. */
  lemma RawStep(data: seq<byte>, off: nat)
    requires off <= |data|
    ensures off + 16 > |data| || LastFlag(data, off) ==> Raw(data, off) == []
    ensures off + 16 <= |data| && !LastFlag(data, off) ==> var n := EntLen(data, off);
      Raw(data, off) == if n == 0 || off + n > |data| then [] else [data[off..off + n]] + Raw(data, off + n)
  {
    hide LastFlag, EntLen;
  }

  /** The writers' scan for the entries they are about to move. */
  method CollectRawIndexEntries(hdr: seq<byte>) returns (out: seq<Entry>)
    ensures out == RawEntries(hdr)
  {
    out := [];
    if |hdr| < 8 {
      return;
    }
    var eo, il := Le32(hdr, 0), Le32(hdr, 4);
    if eo > |hdr| || il > |hdr| || eo > il {
      return;
    }
    out := CollectRaw(hdr[eo..il]);
  }

  method CollectRaw(data: seq<byte>) returns (out: seq<Entry>)
    ensures out == Raw(data, 0)
  {
    hide *;
    out := [];
    var off := 0;
    while off + 16 <= |data|
      invariant 0 <= off <= |data| && Raw(data, 0) == out + Raw(data, off)
      decreases |data| - off
    {
      RawStep(data, off);
      if LastFlag(data, off) {
        return;
      }
      var n := EntLen(data, off);
      if n == 0 || off + n > |data| {
        return;
      }
      out := out + [data[off..off + n]];
      off := off + n;
    }
    RawStep(data, off);
  }
}
