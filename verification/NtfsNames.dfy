/** What a directory reader reports of raw index entries: the names, DOS aliases and dot names left out. */
module NtfsNames {
  import opened Bytes
  import opened Chunks
  import opened NtfsIndex

  /** A reported entry; the name is its UTF-16 bytes. */
  datatype DirEntry = DirEntry(mftNum: nat, name: seq<byte>, flags: nat, size: nat, mtime: nat)

  const DOT: seq<byte> := [0x2E, 0]
  const DOTDOT: seq<byte> := [0x2E, 0, 0x2E, 0]

  /** A $FILE_NAME key: nothing for short or truncated keys, DOS-only names (namespace 2), "." and "..". */
  function ParseFileNameKey(key: seq<byte>, mftNum: nat): seq<DirEntry> {
    if |key| < 66 || key[65] == 2 then []
    else
      var chars: nat := key[64];
      if 66 + chars * 2 > |key| then []
      else
        var name := key[66..66 + chars * 2];
        if name == DOT || name == DOTDOT then []
        else [DirEntry(mftNum, name, Le32(key, 56), Le64(key, 48), Le64(key, 16))]
  }

  /** What the reader makes of the entry at `off`. */
  function ParseAt(data: seq<byte>, off: nat): seq<DirEntry>
    requires off + 16 <= |data|
  {
    var n := KeyLen(data, off);
    if n >= 66 && off + 16 + n <= |data| then ParseFileNameKey(data[off + 16..off + 16 + n], Le64(data, off) % 0x1_0000_0000_0000) else []
  }

  /** The reader's scan. */
  function SeenNames(data: seq<byte>, off: nat): seq<DirEntry>
    requires off <= |data|
    decreases |data| - off
  {
    if off + 16 > |data| || LastFlag(data, off) then []
    else
      var n := EntLen(data, off);
      if n < 16 || off + n > |data| then [] else ParseAt(data, off) + SeenNames(data, off + n)
  }

  function NamesOfHeader(hdr: seq<byte>): seq<DirEntry> {
    if |hdr| < 16 then []
    else
      var eo, il := Le32(hdr, 0), Le32(hdr, 4);
      if eo > |hdr| || il > |hdr| || eo > il then [] else SeenNames(hdr[eo..il], 0)
  }

  /** What is reported of a list of entries. */
  function Visible(es: seq<Entry>): seq<DirEntry> {
    if es == [] then [] else (if |es[0]| >= 16 then ParseAt(es[0], 0) else []) + Visible(es[1..])
  }

  lemma {:induction false} VisibleAppend(a: seq<Entry>, b: seq<Entry>)
    ensures Visible(a + b) == Visible(a) + Visible(b)
  {
    hide ParseAt;
    if a == [] {
      assert a + b == b;
    } else {
      assert (a + b)[0] == a[0] && (a + b)[1..] == a[1..] + b;
      VisibleAppend(a[1..], b);
    }
  }

  /** An entry is parsed the same wherever it lies. */
  lemma ParseHere(data: seq<byte>, off: nat, e: Entry)
    requires IsEntry(e) && At(data, off, e)
    ensures ParseAt(data, off) == ParseAt(e, 0)
  {
    AtFields(data, off, e);
    var n := KeyLen(e, 0);
    assert e == data[off..off + |e|];
    SubSlice(data, off, off + |e|, 16, 16 + n);
    assert Le64(data, off) == Le64(e, 0) by { SubSlice(data, off, off + |e|, 0, 8); QuadAt(data, off, e[0..8]); QuadAt(e, 0, e[0..8]); }
    hide ParseFileNameKey, Le64, LastFlag, EntLen;
  }

  /** Over a packed list the reader reports what is visible of it. */
  lemma {:induction false} NamesPacked(data: seq<byte>, off: nat, es: seq<Entry>, sent: seq<byte>)
    requires AllEntries(es) && IsSentinel(sent) && At(data, off, Concat(es) + sent)
    ensures SeenNames(data, off) == Visible(es)
    decreases |es|
  {
    hide SeenNames, IsEntry, IsSentinel, ParseAt;
    if es == [] {
      assert Concat(es) + sent == sent;
      NamesEnd(data, off, sent);
    } else {
      var e, rest := es[0], Concat(es[1..]) + sent;
      assert Concat(es) + sent == e + rest;
      AtParts(data, off, e, rest);
      NamesOne(data, off, e);
      NamesPacked(data, off + |e|, es[1..], sent);
    }
  }

  lemma NamesOne(data: seq<byte>, off: nat, e: Entry)
    requires IsEntry(e) && At(data, off, e)
    ensures |e| >= 16 && SeenNames(data, off) == ParseAt(e, 0) + SeenNames(data, off + |e|)
  {
    AtFields(data, off, e);
    ParseHere(data, off, e);
    hide LastFlag, EntLen, ParseAt;
  }

  lemma NamesEnd(data: seq<byte>, off: nat, sent: seq<byte>)
    requires IsSentinel(sent) && At(data, off, sent)
    ensures SeenNames(data, off) == []
  {
    AtFields(data, off, sent);
  }

  /** A well-formed header reports its visible entries. */
  lemma NamesAre(hdr: seq<byte>, es: seq<Entry>)
    requires Header(hdr, es)
    ensures NamesOfHeader(hdr) == Visible(es)
  {
    hide SeenNames;
    HeaderData(hdr, es);
    NamesPacked(hdr[Le32(hdr, 0)..Le32(hdr, 4)], 0, es, hdr[Le32(hdr, 4) - 16..Le32(hdr, 4)]);
  }

  /** The directory reader's scan over one header. */
  method CollectIndexEntries(hdr: seq<byte>) returns (out: seq<DirEntry>)
    ensures out == NamesOfHeader(hdr)
  {
    hide SeenNames, Le32;
    if |hdr| < 16 {
      return [];
    }
    var eo, il := Le32(hdr, 0), Le32(hdr, 4);
    if eo > |hdr| || il > |hdr| || eo > il {
      return [];
    }
    out := CollectData(hdr[eo..il]);
  }

  method CollectData(data: seq<byte>) returns (out: seq<DirEntry>)
    ensures out == SeenNames(data, 0)
  {
    hide *;
    out := [];
    var off := 0;
    assert [] + SeenNames(data, 0) == SeenNames(data, 0);
    while off + 16 <= |data|
      invariant 0 <= off <= |data| && SeenNames(data, 0) == out + SeenNames(data, off)
      decreases |data| - off
    {
      NamesStep(data, off);
      var n := EntLen(data, off);
      if LastFlag(data, off) || n < 16 || off + n > |data| {
        assert out + [] == out;
        return;
      }
      var here := ParseAt(data, off);
      assert out + (here + SeenNames(data, off + n)) == out + here + SeenNames(data, off + n);
      out := out + here;
      off := off + n;
    }
    NamesStep(data, off);
    assert out + [] == out;
  }

  lemma NamesStep(data: seq<byte>, off: nat)
    requires off <= |data|
    ensures SeenNames(data, off) ==
      if off + 16 > |data| || LastFlag(data, off) || EntLen(data, off) < 16 || off + EntLen(data, off) > |data| then []
      else ParseAt(data, off) + SeenNames(data, off + EntLen(data, off))
  {
    hide LastFlag, EntLen, ParseAt;
  }

  /** A $FILE_NAME key: parent directory, four times, two sizes, flags, reparse tag, characters, namespace, name. */
  datatype FileName = FileName(parent: nat, created: nat, modified: nat, changed: nat, accessed: nat, space: nat, size: nat,
                               flags: nat, reparse: nat, chars: byte, namespace: byte, name: seq<byte>)

  predicate NameOk(f: FileName) {
    && f.parent < TWO64 && f.created < TWO64 && f.modified < TWO64 && f.changed < TWO64 && f.accessed < TWO64
    && f.space < TWO64 && f.size < TWO64 && f.flags < TWO32 && f.reparse < TWO32
  }

  /** The key written out field by field. */
  function KeyBytes(f: FileName): (r: seq<byte>)
    requires NameOk(f)
    ensures |r| == 66 + |f.name|
  {
    Put64(f.parent) + Put64(f.created) + Put64(f.modified) + Put64(f.changed) + Put64(f.accessed) + Put64(f.space) + Put64(f.size)
    + Put32(f.flags) + Put32(f.reparse) + [f.chars, f.namespace] + f.name
  }

  /** Flags, size, modification time and as many characters as counted, unless the key is a DOS alias, counts more characters than
      it has, or names the directory itself or its parent. */
  function Reported(f: FileName, mftNum: nat): seq<DirEntry> {
    var n: nat := 2 * f.chars;
    if f.namespace == 2 || n > |f.name| || f.name[..n] == [0x2E, 0] || f.name[..n] == [0x2E, 0, 0x2E, 0] then []
    else [DirEntry(mftNum, f.name[..n], f.flags, f.size, f.modified)]
  }

  /** That is what the reader reports of the key. */
  lemma KeyReads(f: FileName, mftNum: nat)
    requires NameOk(f)
    ensures ParseFileNameKey(KeyBytes(f), mftNum) == Reported(f, mftNum)
  {
    KeyFields(f);
    hide *;
    FieldsReported(KeyBytes(f), f, mftNum);
  }

  lemma FieldsReported(k: seq<byte>, f: FileName, mftNum: nat)
    requires |k| == 66 + |f.name| && k[64] == f.chars && k[65] == f.namespace && k[66..] == f.name
    requires Le64(k, 16) == f.modified && Le64(k, 48) == f.size && Le32(k, 56) == f.flags
    ensures ParseFileNameKey(k, mftNum) == Reported(f, mftNum)
  {
    hide Le64, Le32;
    var n: nat := 2 * f.chars;
    if n <= |f.name| { assert k[66..66 + n] == k[66..][..n]; }
  }

  /** Every field of the key is at its place. */
  lemma KeyFields(f: FileName)
    requires NameOk(f)
    ensures var k := KeyBytes(f);
            && k[64] == f.chars && k[65] == f.namespace && k[66..] == f.name && Le64(k, 0) == f.parent
            && Le64(k, 8) == f.created && Le64(k, 16) == f.modified && Le64(k, 24) == f.changed && Le64(k, 32) == f.accessed
            && Le64(k, 40) == f.space && Le64(k, 48) == f.size && Le32(k, 56) == f.flags && Le32(k, 60) == f.reparse
  {
    hide Put64, Put32, Le64, Le32;
    var k := KeyBytes(f);
    assert k[0..8] == Put64(f.parent) && k[8..16] == Put64(f.created) && k[16..24] == Put64(f.modified) && k[24..32] == Put64(f.changed);
    assert k[32..40] == Put64(f.accessed) && k[40..48] == Put64(f.space) && k[48..56] == Put64(f.size);
    assert k[56..60] == Put32(f.flags) && k[60..64] == Put32(f.reparse);
    QuadAt(k, 0, Put64(f.parent));
    QuadAt(k, 8, Put64(f.created));
    QuadAt(k, 16, Put64(f.modified));
    QuadAt(k, 24, Put64(f.changed));
    QuadAt(k, 32, Put64(f.accessed));
    QuadAt(k, 40, Put64(f.space));
    QuadAt(k, 48, Put64(f.size));
    WordAt(k, 56, Put32(f.flags));
    WordAt(k, 60, Put32(f.reparse));
  }

  /** The low byte of a name's character count. */
  function Counted(name: seq<byte>): (c: byte)
    ensures 2 * c <= |name|
    ensures |name| <= 511 ==> c == |name| / 2
  {
    |name| / 2 % 0x100
  }

  /** The key the driver builds for a new file: all times now, no sizes, namespace 3. */
  function BuildFileName(name: seq<byte>, parent: nat, flags: nat, now: nat): FileName {
    FileName(parent + 0x1_0000_0000_0000, now, now, now, now, 0, 0, flags, 0, Counted(name), 3, name)
  }

  /** The entry for a file name key. */
  function BuildIndexEntry(mftNum: nat, key: seq<byte>): (e: Entry)
    requires mftNum < 0x1_0000_0000_0000 && |key| < 0xFFE0
  {
    var n := Round8(16 + |key|);
    Put64(mftNum + 0x1_0000_0000_0000) + Put16(n) + Put16(|key|) + Zeros(4) + key + Zeros(n - 16 - |key|)
  }

  lemma BuiltNameOk(name: seq<byte>, parent: nat, flags: nat, now: nat)
    requires parent < 0x1_0000_0000_0000 && flags < TWO32 && now < TWO64
    ensures NameOk(BuildFileName(name, parent, flags, now))
  {
    hide Counted;
  }

  /** The parent is referred to with sequence number 1, all four times are the same, there are no sizes yet, and the name is a
      Win32 and a DOS name. */
  lemma NewNameIs(name: seq<byte>, parent: nat, flags: nat, now: nat)
    requires parent < 0x1_0000_0000_0000
    ensures var f := BuildFileName(name, parent, flags, now);
            && f.parent % 0x1_0000_0000_0000 == parent && f.parent / 0x1_0000_0000_0000 == 1
            && f.created == f.modified == f.changed == f.accessed == now && f.space == f.size == f.reparse == 0 && f.namespace == 3
  {
    hide Counted;
  }

  predicate NewOk(name: seq<byte>, parent: nat, flags: nat, now: nat, mftNum: nat) {
    |name| < 0xF000 && parent < 0x1_0000_0000_0000 && flags < TWO32 && now < TWO64 && mftNum < 0x1_0000_0000_0000
  }

  /** The entry the driver adds for a new file. */
  function NewEntry(name: seq<byte>, parent: nat, flags: nat, now: nat, mftNum: nat): (e: Entry)
    requires NewOk(name, parent, flags, now, mftNum)
  {
    BuiltNameOk(name, parent, flags, now);
    BuildIndexEntry(mftNum, KeyBytes(BuildFileName(name, parent, flags, now)))
  }

  /** Name, flags, size and time are reported, or nothing for a dot name. */
  function Shown(name: seq<byte>, flags: nat, now: nat, mftNum: nat): seq<DirEntry> {
    if name == [0x2E, 0] || name == [0x2E, 0, 0x2E, 0] then [] else [DirEntry(mftNum, name, flags, 0, now)]
  }

  /** As much of a name as the byte counts. */
  function CutName(name: seq<byte>): (r: seq<byte>)
    ensures |name| <= 511 && |name| % 2 == 0 ==> r == name
  {
    name[..2 * Counted(name)]
  }

  /** The reader reports `shown` of the entry. */
  predicate Reports(e: Entry, shown: seq<DirEntry>) {
    |e| >= 16 && IsEntry(e) && ParseAt(e, 0) == shown
  }

  /** A new entry is reported under its name, cut to as many characters as the byte counts. */
  lemma NewEntryReads(name: seq<byte>, parent: nat, flags: nat, now: nat, mftNum: nat)
    requires NewOk(name, parent, flags, now, mftNum)
    ensures Reports(NewEntry(name, parent, flags, now, mftNum), Shown(CutName(name), flags, now, mftNum))
  {
    hide *;
    var f := BuildFileName(name, parent, flags, now);
    NewEntryIs(name, parent, flags, now, mftNum, f);
    ShownIs(name, parent, flags, now, mftNum);
    KeyReads(f, mftNum);
    BuiltEntry(mftNum, KeyBytes(f));
    EntrySize(BuildIndexEntry(mftNum, KeyBytes(f)));
    ReportsIs(BuildIndexEntry(mftNum, KeyBytes(f)), Reported(f, mftNum));
  }

  lemma NewEntryIs(name: seq<byte>, parent: nat, flags: nat, now: nat, mftNum: nat, f: FileName)
    requires NewOk(name, parent, flags, now, mftNum) && f == BuildFileName(name, parent, flags, now)
    ensures mftNum < 0x1_0000_0000_0000 && NameOk(f) && |KeyBytes(f)| < 0xFFE0
    ensures NewEntry(name, parent, flags, now, mftNum) == BuildIndexEntry(mftNum, KeyBytes(f))
  {
    BuiltNameOk(name, parent, flags, now);
    NamesLength(name, parent, flags, now);
    hide KeyBytes, BuildIndexEntry, NameOk, BuildFileName;
  }

  lemma NamesLength(name: seq<byte>, parent: nat, flags: nat, now: nat)
    ensures BuildFileName(name, parent, flags, now).name == name
  {
    hide Counted;
  }

  lemma ShownIs(name: seq<byte>, parent: nat, flags: nat, now: nat, mftNum: nat)
    ensures Reported(BuildFileName(name, parent, flags, now), mftNum) == Shown(CutName(name), flags, now, mftNum)
  {
    hide Counted;
  }

  lemma ReportsIs(e: Entry, shown: seq<DirEntry>)
    ensures Reports(e, shown) <==> |e| >= 16 && IsEntry(e) && ParseAt(e, 0) == shown
  {
    hide IsEntry, ParseAt;
  }

  lemma EntrySize(e: Entry)
    requires IsEntry(e)
    ensures |e| >= 16
  {
  }

  /** A built entry is well formed, and the reader reports its file number and key. */
  lemma BuiltEntry(mftNum: nat, key: seq<byte>)
    requires mftNum < 0x1_0000_0000_0000 && |key| < 0xFFE0
    ensures var e := BuildIndexEntry(mftNum, key);
            IsEntry(e) && |e| == Round8(16 + |key|) && ParseAt(e, 0) == ParseFileNameKey(key, mftNum)
  {
    hide Put64, Put16, Round8, Le16, Le64, LastFlag, EntLen, KeyLen, ParseAt;
    var n := Round8(16 + |key|);
    ShortKey(key, mftNum);
    FieldsGive(Put64(mftNum + 0x1_0000_0000_0000), Put16(n), Put16(|key|), key, Zeros(n - 16 - |key|));
  }

  lemma ShortKey(key: seq<byte>, mftNum: nat)
    ensures |key| < 66 ==> ParseFileNameKey(key, mftNum) == []
  {
  }

  lemma FieldsGive(a: seq<byte>, b: seq<byte>, c: seq<byte>, key: seq<byte>, z: seq<byte>)
    requires |a| == 8 && |b| == 2 && |c| == 2
    ensures var e := a + b + c + Zeros(4) + key + z;
            && EntLen(e, 0) == Le16(b, 0) && KeyLen(e, 0) == Le16(c, 0) && !LastFlag(e, 0)
            && (KeyLen(e, 0) == |key| && |key| >= 66 ==> ParseAt(e, 0) == ParseFileNameKey(key, Le64(a, 0) % 0x1_0000_0000_0000))
            && (KeyLen(e, 0) == |key| && |key| < 66 ==> ParseAt(e, 0) == [])
  {
    var e := a + b + c + Zeros(4) + key + z;
    EntryParts(a, b, c, key, z);
    QuadAt(e, 0, a);
    HalfAt(e, 8, b);
    HalfAt(e, 10, c);
    var f := e[12..16];
    assert f[0] == 0 && f[1] == 0 && f[2] == 0 && f[3] == 0;
    assert Le32(e, 12) == 0;
    hide ParseFileNameKey, Le64, Le16, Le32;
  }

  lemma EntryParts(a: seq<byte>, b: seq<byte>, c: seq<byte>, key: seq<byte>, z: seq<byte>)
    requires |a| == 8 && |b| == 2 && |c| == 2
    ensures var e := a + b + c + Zeros(4) + key + z;
            e[0..8] == a && e[8..10] == b && e[10..12] == c && e[12..16] == Zeros(4) && e[16..16 + |key|] == key
  {
  }
}
