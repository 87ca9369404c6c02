/** ext4 directory blocks: variable-length records that tile the block. */
module Ext4DirBlock {
  import opened Bytes
  import opened Chunks

  datatype DirEnt = DirEnt(ino: nat, name: seq<byte>, ftype: byte)

  function NameLen(s: seq<byte>): nat
    requires |s| >= 8
  {
    s[6]
  }

  /** The bytes of one record: they say their own length, and hold a name. */
  predicate Record(s: seq<byte>) {
    8 <= |s| < 0x1_0000 && |s| % 4 == 0 && Le16(s, 4) == |s| && 8 + NameLen(s) <= |s|
  }

  /** The block is `parts`, one record behind the other. */
  ghost predicate Tiles(block: seq<byte>, parts: seq<seq<byte>>) {
    block == Concat(parts) && forall i :: 0 <= i < |parts| ==> Record(parts[i])
  }

  function Ino(s: seq<byte>): nat
    requires |s| >= 8
  {
    Le32(s, 0)
  }

  function Name(s: seq<byte>): seq<byte>
    requires Record(s)
  {
    s[8..8 + NameLen(s)]
  }

  /** Whether a reader reports the record. */
  predicate Shown(s: seq<byte>)
    requires Record(s)
  {
    Ino(s) != 0 && NameLen(s) > 0
  }

  function EntOf(s: seq<byte>): seq<DirEnt>
    requires Record(s)
  {
    if Shown(s) then [DirEnt(Ino(s), Name(s), s[7])] else []
  }

  predicate AllRecords(parts: seq<seq<byte>>) {
    forall i :: 0 <= i < |parts| ==> Record(parts[i])
  }

  /** The entries a reader sees. */
  function Ents(parts: seq<seq<byte>>): seq<DirEnt>
    requires AllRecords(parts)
  {
    if parts == [] then [] else EntOf(parts[0]) + Ents(parts[1..])
  }

  lemma {:induction false} EntsAppend(a: seq<seq<byte>>, b: seq<seq<byte>>)
    requires AllRecords(a) && AllRecords(b)
    ensures AllRecords(a + b) && Ents(a + b) == Ents(a) + Ents(b)
  {
    hide Record, EntOf;
    if a == [] {
      assert a + b == b;
    } else {
      assert (a + b)[0] == a[0] && (a + b)[1..] == a[1..] + b;
      EntsAppend(a[1..], b);
    }
  }

  lemma EntsOne(p: seq<byte>)
    requires Record(p)
    ensures Ents([p]) == EntOf(p)
  {
    assert [p][1..] == [] && EntOf(p) + [] == EntOf(p);
  }

  /** A list around one record. */
  lemma EntsAround(a: seq<seq<byte>>, p: seq<byte>, b: seq<seq<byte>>)
    requires AllRecords(a) && Record(p) && AllRecords(b)
    ensures AllRecords(a + [p] + b) && Ents(a + [p] + b) == Ents(a) + EntOf(p) + Ents(b)
  {
    hide Record, EntOf, Ents;
    EntsAppend(a, [p]);
    EntsAppend(a + [p], b);
    EntsOne(p);
  }

  lemma ConcatAround(a: seq<seq<byte>>, p: seq<byte>, b: seq<seq<byte>>)
    ensures Concat(a + [p] + b) == Concat(a) + p + Concat(b)
  {
    hide Concat;
    ConcatAppend(a, [p]);
    ConcatAppend(a + [p], b);
    ConcatOne(p);
  }

  /** Writing inside one record changes that record only. */
  lemma WriteInside(a: seq<seq<byte>>, p: seq<byte>, b: seq<seq<byte>>, k: nat, x: seq<byte>)
    requires k + |x| <= |p|
    ensures |Concat(a)| + k + |x| <= |Concat(a + [p] + b)|
    ensures Splice(Concat(a + [p] + b), |Concat(a)| + k, x) == Concat(a + [Splice(p, k, x)] + b)
  {
    ConcatAround(a, p, b);
    ConcatAround(a, Splice(p, k, x), b);
    hide Concat;
    SpliceAround(Concat(a), p, Concat(b), k, x);
  }

  lemma SpliceAround(a: seq<byte>, p: seq<byte>, b: seq<byte>, k: nat, x: seq<byte>)
    requires k + |x| <= |p|
    ensures Splice(a + p + b, |a| + k, x) == a + Splice(p, k, x) + b
  {
  }

  /** Cutting a record in two, or gluing two together, leaves the bytes. */
  lemma CutInTwo(a: seq<seq<byte>>, p: seq<byte>, b: seq<seq<byte>>, m: nat)
    requires m <= |p|
    ensures Concat(a + [p] + b) == Concat(a + [p[..m]] + ([p[m..]] + b))
    ensures Concat(a + [p] + b) == Concat((a + [p[..m]]) + [p[m..]] + b)
    ensures |Concat(a + [p[..m]])| == |Concat(a)| + m
  {
    hide *;
    var x, y := p[..m], p[m..];
    assert x + y == p;
    ConcatAround(a, p, b);
    ConcatAround(a, x, [y] + b);
    ConcatAppend([y], b);
    ConcatOne(y);
    Regrouped(a, x, y, b);
    ConcatAppend(a, [x]);
    ConcatOne(x);
  }

  lemma Regrouped(a: seq<seq<byte>>, x: seq<byte>, y: seq<byte>, b: seq<seq<byte>>)
    ensures (a + [x]) + [y] + b == a + [x] + ([y] + b)
  {
  }

  /** Bytes of the block that belong to the record at pos. */
  lemma BytesHere(block: seq<byte>, parts: seq<seq<byte>>, i: nat)
    requires Tiles(block, parts) && i < |parts|
    ensures parts == parts[..i] + [parts[i]] + parts[i + 1..] && Record(parts[i])
    ensures var pos := |Concat(parts[..i])|; pos + |parts[i]| <= |block| && block[pos..pos + |parts[i]|] == parts[i]
    ensures |Concat(parts[..i + 1])| == |Concat(parts[..i])| + |parts[i]|
  {
    hide Concat, Record;
    ConcatAround(parts[..i], parts[i], parts[i + 1..]);
    assert parts == parts[..i] + [parts[i]] + parts[i + 1..];
    assert parts[..i + 1] == parts[..i] + [parts[i]];
    ConcatAppend(parts[..i], [parts[i]]);
    ConcatOne(parts[i]);
  }

  lemma FieldsHere(block: seq<byte>, pos: nat, p: seq<byte>)
    requires Record(p) && pos + |p| <= |block| && block[pos..pos + |p|] == p
    ensures Le32(block, pos) == Ino(p) && Le16(block, pos + 4) == |p| && block[pos + 6] == NameLen(p) && block[pos + 7] == p[7]
    ensures block[pos + 8..pos + 8 + NameLen(p)] == Name(p)
  {
    SubSlice(block, pos, pos + |p|, 8, 8 + NameLen(p));
    var u := block[pos..pos + |p|];
    assert u[0] == block[pos] && u[1] == block[pos + 1] && u[2] == block[pos + 2] && u[3] == block[pos + 3];
    assert u[4] == block[pos + 4] && u[5] == block[pos + 5] && u[6] == block[pos + 6] && u[7] == block[pos + 7];
  }

  /** At the end of the block there are no records left, and before it there are. */
  lemma EndReached(block: seq<byte>, parts: seq<seq<byte>>, i: nat)
    requires Tiles(block, parts) && i <= |parts|
    ensures |Concat(parts[..i])| < |block| <==> i < |parts|
    ensures |Concat(parts[..i])| <= |block|
  {
    if i < |parts| {
      BytesHere(block, parts, i);
    } else {
      assert parts[..i] == parts;
    }
  }

  /** What a reader collects from one block. */
  method ReadEntries(block: seq<byte>, ghost parts: seq<seq<byte>>) returns (out: seq<DirEnt>)
    requires Tiles(block, parts)
    ensures out == Ents(parts)
  {
    ghost var i := 0;
    var pos := 0;
    out := [];
    assert AllRecords(parts) && parts[..0] == [];
    hide Record, Concat, Ents, EntOf, Tiles;
    EndReached(block, parts, 0);
    while pos < |block|
      invariant i <= |parts| && pos == |Concat(parts[..i])| && AllRecords(parts[..i]) && out == Ents(parts[..i])
      invariant pos < |block| <==> i < |parts|
      decreases |parts| - i
    {
      BytesHere(block, parts, i);
      FieldsHere(block, pos, parts[i]);
      OneMoreEnt(parts, i);
      EndReached(block, parts, i + 1);
      if pos + 8 > |block| {
        break;
      }
      var ino, recLen, nameLen := Le32(block, pos), Le16(block, pos + 4), block[pos + 6];
      if recLen == 0 {
        break;
      }
      if ino != 0 && nameLen > 0 {
        out := out + [DirEnt(ino, block[pos + 8..pos + 8 + nameLen], block[pos + 7])];
      }
      pos := pos + recLen;
      i := i + 1;
    }
    assert parts[..|parts|] == parts;
  }

  lemma RecordFits(p: seq<byte>)
    requires Record(p)
    ensures 8 <= |p| && EntOf(p) == if Ino(p) != 0 && NameLen(p) > 0 then [DirEnt(Ino(p), Name(p), p[7])] else []
  {
  }

  lemma NoneYet(parts: seq<seq<byte>>)
    ensures Concat(parts[..0]) == [] && AllRecords(parts[..0]) && Ents(parts[..0]) == []
  {
  }

  lemma OneMoreEnt(parts: seq<seq<byte>>, i: nat)
    requires i < |parts| && AllRecords(parts[..i]) && Record(parts[i])
    ensures AllRecords(parts[..i + 1]) && Ents(parts[..i + 1]) == Ents(parts[..i]) + EntOf(parts[i])
  {
    hide Record, Ents, EntOf;
    assert parts[..i + 1] == parts[..i] + [parts[i]];
    EntsAppend(parts[..i], [parts[i]]);
    EntsOne(parts[i]);
  }

  /** Bytes a record with a name of n bytes cannot do without. */
  function MinSize(n: nat): (r: nat)
    ensures r % 4 == 0 && 8 + n <= r < 8 + n + 4
  {
    (8 + n + 3) / 4 * 4
  }

  /** Room in a record for another one. */
  function Slack(p: seq<byte>): int
    requires Record(p)
  {
    if Ino(p) == 0 then |p| else |p| - MinSize(NameLen(p))
  }

  /** As much of a name as n bytes hold. */
  function Fitting(name: seq<byte>, n: nat): (r: seq<byte>)
    ensures |r| <= n && (|name| <= n ==> r == name)
  {
    if |name| <= n then name else name[..n]
  }

  /** The record p with a new entry in it; its length stays. */
  function Filled(p: seq<byte>, e: DirEnt): (r: seq<byte>)
    requires 8 <= |p|
    ensures |r| == |p|
  {
    Splice(Splice(Splice(Splice(Splice(p, 0, Put32(e.ino)), 4, Put16(|p|)), 6, [|e.name| % 256]), 7, [e.ftype]), 8, Fitting(e.name, |p| - 8))
  }

  /** An inode number is a 32-bit word. */
  predicate EntOk(e: DirEnt) {
    e.ino < 0x1_0000_0000
  }

  /** What a reader sees of an entry once it is stored: its name is as long as the low byte of its length says. */
  function Seen(e: DirEnt): seq<DirEnt> {
    if e.ino != 0 && |e.name| % 256 > 0 then [e.(name := e.name[..|e.name| % 256])] else []
  }

  /** The entry is seen as it was given exactly if it has an inode and its name has 1 to 255 bytes. */
  lemma SeenWhole(e: DirEnt)
    ensures Seen(e) == [e] <==> e.ino != 0 && 1 <= |e.name| <= 255
  {
    if |e.name| <= 255 {
      assert e.name[..|e.name| % 256] == e.name;
    } else if Seen(e) != [] {
      assert |Seen(e)[0].name| < |e.name|;
    }
  }

  lemma FilledFields(p: seq<byte>, e: DirEnt)
    requires 8 + |e.name| % 256 <= |p|
    ensures var r, n := Filled(p, e), |e.name| % 256;
            r[0..4] == Put32(e.ino) && r[4..6] == Put16(|p|) && r[6] == n && r[7] == e.ftype && r[8..8 + n] == e.name[..n]
  {
    FittingPrefix(e.name, |p| - 8, |e.name| % 256);
    hide Put32, Put16, Fitting;
  }

  lemma FilledIs(p: seq<byte>, e: DirEnt)
    requires EntOk(e) && 8 + |e.name| % 256 <= |p| < 0x1_0000 && |p| % 4 == 0
    ensures Record(Filled(p, e)) && EntOf(Filled(p, e)) == Seen(e)
  {
    FilledFields(p, e);
    hide Put32, Put16, Le32, Le16, Filled;
    WordAt(Filled(p, e), 0, Put32(e.ino));
    HalfAt(Filled(p, e), 4, Put16(|p|));
  }

  lemma FittingPrefix(name: seq<byte>, n: nat, k: nat)
    requires k <= n && k <= |name|
    ensures k <= |Fitting(name, n)| && Fitting(name, n)[..k] == name[..k]
  {
  }

  /** The live record p cut down to what it needs. */
  lemma ShrunkIs(p: seq<byte>)
    requires Record(p) && MinSize(NameLen(p)) <= |p|
    ensures var q := Splice(p, 4, Put16(MinSize(NameLen(p))));
            var s := q[..MinSize(NameLen(p))];
            Record(s) && EntOf(s) == EntOf(p)
  {
    var m := MinSize(NameLen(p));
    var b := Put16(m);
    hide Put16, Le32;
    var q := Splice(p, 4, b);
    var s := q[..m];
    assert s[0..4] == p[0..4];
    WordAt(s, 0, p[0..4]);
    WordAt(p, 0, p[0..4]);
    assert s[4] == b[0] && s[5] == b[1] && NameLen(s) == NameLen(p) && s[7] == p[7];
    NameKept(p, s);
  }

  lemma NameKept(p: seq<byte>, s: seq<byte>)
    requires |p| >= 8 && |s| >= 8 && 8 + NameLen(p) <= |p| && 8 + NameLen(p) <= |s| && NameLen(s) == NameLen(p) && forall k :: 8 <= k < 8 + NameLen(p) ==> s[k] == p[k]
    ensures s[8..8 + NameLen(s)] == p[8..8 + NameLen(p)]
  {
  }

  /** Record i has room, and no record before it has. */
  ghost predicate FirstWithRoom(parts: seq<seq<byte>>, need: nat, i: nat)
    requires AllRecords(parts)
  {
    i < |parts| && Slack(parts[i]) >= need && forall k :: 0 <= k < i ==> Slack(parts[k]) < need
  }

  /** The records after an entry went into record i: in place of a deleted one, or behind a shortened live one. */
  function Added(parts: seq<seq<byte>>, i: nat, e: DirEnt): seq<seq<byte>>
    requires i < |parts| && Record(parts[i]) && Slack(parts[i]) >= MinSize(|e.name|) && EntOk(e)
  {
    var p := parts[i];
    if Ino(p) == 0 then parts[..i] + [Filled(p, e)] + parts[i + 1..]
    else
      var m := MinSize(NameLen(p));
      var q := Splice(p, 4, Put16(m));
      (parts[..i] + [q[..m]]) + [Filled(q[m..], e)] + parts[i + 1..]
  }

  /** Adding keeps the tiling, inserts the entry behind those of the records up to i, and keeps all others. */
  lemma AddedEnts(parts: seq<seq<byte>>, i: nat, e: DirEnt)
    requires AllRecords(parts) && i < |parts| && Slack(parts[i]) >= MinSize(|e.name|) && EntOk(e)
    ensures AllRecords(Added(parts, i, e)) && AllRecords(parts[..i + 1]) && AllRecords(parts[i + 1..])
    ensures Ents(Added(parts, i, e)) == Ents(parts[..i + 1]) + Seen(e) + Ents(parts[i + 1..])
    ensures Ents(parts) == Ents(parts[..i + 1]) + Ents(parts[i + 1..])
  {
    hide *;
    var p, a, b := parts[i], parts[..i], parts[i + 1..];
    Around(parts, i);
    OneMoreEnt(parts, i);
    EntsAround(a, p, b);
    SlackIs(p);
    AddedIs(parts, i, e);
    RecordFits(p);
    if Ino(p) == 0 {
      FilledAround(a, p, b, e);
      assert Ents(a) + [] == Ents(a);
    } else {
      BehindLive(a, p, b, e);
    }
  }

  /** A live record cut down, and the entry in what was cut off. */
  lemma BehindLive(a: seq<seq<byte>>, p: seq<byte>, b: seq<seq<byte>>, e: DirEnt)
    requires AllRecords(a) && Record(p) && AllRecords(b) && EntOk(e) && |p| - MinSize(NameLen(p)) >= MinSize(|e.name|)
    ensures 6 <= MinSize(NameLen(p))
    ensures var m := MinSize(NameLen(p));
            var q := Splice(p, 4, Put16(m));
            var r := (a + [q[..m]]) + [Filled(q[m..], e)] + b;
            AllRecords(r) && Ents(r) == Ents(a) + EntOf(p) + Seen(e) + Ents(b)
  {
    hide *;
    RecordSize(p);
    SizeIs(|e.name|);
    var m := MinSize(NameLen(p));
    var q := Splice(p, 4, Put16(m));
    ShrunkIs(p);
    OneRecord(q[..m]);
    EntsAppend(a, [q[..m]]);
    EntsOne(q[..m]);
    FilledAround(a + [q[..m]], q[m..], b, e);
  }

  lemma FilledAround(a: seq<seq<byte>>, p: seq<byte>, b: seq<seq<byte>>, e: DirEnt)
    requires AllRecords(a) && AllRecords(b) && EntOk(e) && MinSize(|e.name|) <= |p| < 0x1_0000 && |p| % 4 == 0 && |p| >= 8
    ensures AllRecords(a + [Filled(p, e)] + b) && Ents(a + [Filled(p, e)] + b) == Ents(a) + Seen(e) + Ents(b)
  {
    InNeed(|e.name|, |p|);
    hide *;
    FilledIs(p, e);
    EntsAround(a, Filled(p, e), b);
  }

  lemma OneRecord(p: seq<byte>)
    requires Record(p)
    ensures AllRecords([p])
  {
  }

  lemma Around(parts: seq<seq<byte>>, i: nat)
    requires AllRecords(parts) && i < |parts|
    ensures parts == parts[..i] + [parts[i]] + parts[i + 1..] && parts[..i + 1] == parts[..i] + [parts[i]]
    ensures AllRecords(parts[..i]) && Record(parts[i]) && AllRecords(parts[i + 1..])
  {
  }

  lemma SizeIs(n: nat)
    ensures 8 + n <= MinSize(n) && MinSize(n) % 4 == 0
  {
  }

  lemma InNeed(n: nat, room: nat)
    requires room >= MinSize(n)
    ensures 8 + n % 256 <= room
  {
  }

  lemma AddedIs(parts: seq<seq<byte>>, i: nat, e: DirEnt)
    requires i < |parts| && Record(parts[i]) && Slack(parts[i]) >= MinSize(|e.name|) && EntOk(e) && |parts[i]| >= 8
    ensures var p := parts[i];
            && (Ino(p) == 0 ==> |p| >= 8 + |e.name| && Added(parts, i, e) == parts[..i] + [Filled(p, e)] + parts[i + 1..])
            && (Ino(p) != 0 ==>
                 var m := MinSize(NameLen(p));
                 && 6 <= m && m + 8 + |e.name| <= |p|
                 && var q := Splice(p, 4, Put16(m)); Added(parts, i, e) == (parts[..i] + [q[..m]]) + [Filled(q[m..], e)] + parts[i + 1..])
  {
    hide Put16, Filled, Splice;
  }

  lemma RecordSize(p: seq<byte>)
    requires Record(p)
    ensures 8 <= |p| < 0x1_0000 && |p| % 4 == 0 && MinSize(NameLen(p)) % 4 == 0 && MinSize(NameLen(p)) >= 8 + NameLen(p)
  {
  }

  method StoreEntry(block: array<byte>, pos: nat, recLen: nat, e: DirEnt)
    requires pos + 8 + |e.name| <= block.Length
    modifies block
    ensures block[..] == Stored(old(block[..]), pos, recLen, e)
  {
    hide *;
    StoredIs(block[..], pos, recLen, e);
    StoreBytes(block, pos, Put32(e.ino));
    StoreBytes(block, pos + 4, Put16(recLen));
    StoreBytes(block, pos + 6, [|e.name| % 256]);
    StoreBytes(block, pos + 7, [e.ftype]);
    StoreBytes(block, pos + 8, e.name);
  }

  /** Tries to place an entry in a block: succeeds exactly if some record has room. */
  method AddEntry(block: array<byte>, e: DirEnt, ghost parts: seq<seq<byte>>) returns (ok: bool, ghost at: nat)
    requires Tiles(block[..], parts) && EntOk(e)
    modifies block
    ensures AllRecords(parts) && (ok ==> FirstWithRoom(parts, MinSize(|e.name|), at))
    ensures ok ==> Tiles(block[..], Added(parts, at, e))
    ensures !ok ==> block[..] == old(block[..]) && forall k :: 0 <= k < |parts| ==> Slack(parts[k]) < MinSize(|e.name|)
  {
    hide *;
    ghost var before := block[..];
    TilesRecords(before, parts);
    var needed := MinSize(|e.name|);
    ghost var i := 0;
    var pos := 0;
    NoneYet(parts);
    EndReached(before, parts, 0);
    while pos < block.Length
      invariant i <= |parts| && pos == |Concat(parts[..i])| && block[..] == before
      invariant pos < |before| <==> i < |parts|
      invariant forall k :: 0 <= k < i ==> Slack(parts[k]) < needed
      decreases |parts| - i
    {
      ghost var p := parts[i];
      BytesHere(before, parts, i);
      FieldsHere(before, pos, p);
      RecordSize(p);
      SlackIs(p);
      var ino, recLen, nameLen: nat := Le32(block[..], pos), Le16(block[..], pos + 4), block[pos + 6];
      if recLen == 0 {
        break;
      }
      var minSize := MinSize(nameLen);
      var slack: int := recLen - minSize;
      if ino == 0 {
        slack, minSize := recLen, 0;
      }
      if slack >= needed {
        FirstRoom(parts, needed, i);
        AddedTiles(before, parts, i, e);
        if ino != 0 {
          StoreBytes(block, pos + 4, Put16(minSize));
          pos := pos + minSize;
          recLen := slack;
        }
        StoreEntry(block, pos, recLen, e);
        return true, i;
      }
      EndReached(before, parts, i + 1);
      pos := pos + recLen;
      i := i + 1;
    }
    ok, at := false, 0;
  }

  lemma TilesRecords(block: seq<byte>, parts: seq<seq<byte>>)
    requires Tiles(block, parts)
    ensures AllRecords(parts) && block == Concat(parts)
  {
  }

  lemma SlackIs(p: seq<byte>)
    requires Record(p)
    ensures Slack(p) == if Ino(p) == 0 then |p| else |p| - MinSize(NameLen(p))
  {
  }

  lemma FirstRoom(parts: seq<seq<byte>>, need: nat, i: nat)
    requires AllRecords(parts) && i < |parts| && Slack(parts[i]) >= need && forall k :: 0 <= k < i ==> Slack(parts[k]) < need
    ensures FirstWithRoom(parts, need, i)
  {
  }

  /** The writes of an addition, one after the other. */
  function Stored(block: seq<byte>, pos: nat, size: nat, e: DirEnt): (r: seq<byte>)
    requires pos + 8 + |e.name| <= |block|
    ensures |r| == |block|
  {
    Splice(Splice(Splice(Splice(Splice(block, pos, Put32(e.ino)), pos + 4, Put16(size)), pos + 6, [|e.name| % 256]), pos + 7, [e.ftype]), pos + 8, e.name)
  }

  lemma StoredIs(block: seq<byte>, pos: nat, size: nat, e: DirEnt)
    requires pos + 8 + |e.name| <= |block|
    ensures Stored(block, pos, size, e)
      == Splice(Splice(Splice(Splice(Splice(block, pos, Put32(e.ino)), pos + 4, Put16(size)), pos + 6, [|e.name| % 256]), pos + 7, [e.ftype]), pos + 8, e.name)
  {
    hide Splice, Put16, Put32;
  }

  lemma StoredInside(a: seq<seq<byte>>, p: seq<byte>, b: seq<seq<byte>>, e: DirEnt)
    requires 8 + |e.name| <= |p|
    ensures |Concat(a)| + 8 + |e.name| <= |Concat(a + [p] + b)|
    ensures Stored(Concat(a + [p] + b), |Concat(a)|, |p|, e) == Concat(a + [Filled(p, e)] + b)
  {
    hide Concat, Put32, Put16;
    var p1 := Splice(p, 0, Put32(e.ino));
    var p2 := Splice(p1, 4, Put16(|p|));
    var p3 := Splice(p2, 6, [|e.name| % 256]);
    var p4 := Splice(p3, 7, [e.ftype]);
    WriteInside(a, p, b, 0, Put32(e.ino));
    WriteInside(a, p1, b, 4, Put16(|p|));
    WriteInside(a, p2, b, 6, [|e.name| % 256]);
    WriteInside(a, p3, b, 7, [e.ftype]);
    WriteInside(a, p4, b, 8, e.name);
    hide Splice;
  }

  lemma AddedTiles(block: seq<byte>, parts: seq<seq<byte>>, i: nat, e: DirEnt)
    requires Tiles(block, parts) && i < |parts| && Record(parts[i]) && Slack(parts[i]) >= MinSize(|e.name|) && EntOk(e)
    ensures 8 + |e.name| <= MinSize(|e.name|)
    ensures var p, pos := parts[i], |Concat(parts[..i])|;
            && pos + |p| <= |block|
            && (Ino(p) == 0 ==> |p| >= 8 + |e.name| && Tiles(Stored(block, pos, |p|, e), Added(parts, i, e)))
            && (Ino(p) != 0 ==> var m := MinSize(NameLen(p));
                 && 6 <= m && m + 8 + |e.name| <= |p|
                 && Tiles(Stored(Splice(block, pos + 4, Put16(m)), pos + m, |p| - m, e), Added(parts, i, e)))
  {
    hide *;
    var p, a, b := parts[i], parts[..i], parts[i + 1..];
    TilesRecords(block, parts);
    BytesHere(block, parts, i);
    SlackIs(p);
    SizeIs(|e.name|);
    AddedEnts(parts, i, e);
    AddedIs(parts, i, e);
    if Ino(p) == 0 {
      StoredInside(a, p, b, e);
      MakesTiles(block, Stored(block, |Concat(a)|, |p|, e), parts, Added(parts, i, e));
    } else {
      var m := MinSize(NameLen(p));
      var q := Splice(p, 4, Put16(m));
      WriteInside(a, p, b, 4, Put16(m));
      CutInTwo(a, q, b, m);
      StoredInside(a + [q[..m]], q[m..], b, e);
      MakesTiles(block, Stored(Splice(block, |Concat(a)| + 4, Put16(m)), |Concat(a)| + m, |p| - m, e), parts, Added(parts, i, e));
    }
  }

  lemma MakesTiles(block: seq<byte>, after: seq<byte>, parts: seq<seq<byte>>, to: seq<seq<byte>>)
    requires Tiles(block, parts) && |after| == |block| && after == Concat(to)
    ensures Tiles(after, to) <==> AllRecords(to)
  {
  }
}
