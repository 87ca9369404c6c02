/** Removing from a directory block, and the listing of a directory of several blocks. */
module Ext4Directory {
  import opened Bytes
  import opened Chunks
  import opened Ext4DirBlock

  /** The list without its first entry of that name. */
  function RemoveFirst(s: seq<DirEnt>, name: seq<byte>): seq<DirEnt> {
    if s == [] then [] else if s[0].name == name then s[1..] else [s[0]] + RemoveFirst(s[1..], name)
  }

  predicate Named(s: seq<DirEnt>, name: seq<byte>) {
    exists i :: 0 <= i < |s| && s[i].name == name
  }

  lemma {:induction false} RemoveFirstAppend(a: seq<DirEnt>, b: seq<DirEnt>, name: seq<byte>)
    ensures RemoveFirst(a + b, name) == if Named(a, name) then RemoveFirst(a, name) + b else a + RemoveFirst(b, name)
  {
    if a == [] {
      assert a + b == b;
    } else {
      assert (a + b)[0] == a[0] && (a + b)[1..] == a[1..] + b;
      RemoveFirstAppend(a[1..], b, name);
      NamedCons(a, name);
      hide Named;
      var r := RemoveFirst(a[1..] + b, name);
      if a[0].name != name {
        if Named(a[1..], name) {
          assert [a[0]] + (RemoveFirst(a[1..], name) + b) == [a[0]] + RemoveFirst(a[1..], name) + b;
        } else {
          assert [a[0]] + (a[1..] + RemoveFirst(b, name)) == a + RemoveFirst(b, name);
        }
      }
    }
  }

  lemma NamedCons(a: seq<DirEnt>, name: seq<byte>)
    requires a != []
    ensures Named(a, name) <==> a[0].name == name || Named(a[1..], name)
  {
    if i :| 0 <= i < |a| && a[i].name == name {
      assert i > 0 ==> a[1..][i - 1].name == name;
    }
    if i :| 0 <= i < |a[1..]| && a[1..][i].name == name {
      assert a[i + 1].name == name;
    }
  }

  lemma NamedAppend(a: seq<DirEnt>, b: seq<DirEnt>, name: seq<byte>)
    ensures Named(a + b, name) <==> Named(a, name) || Named(b, name)
  {
    var c := a + b;
    if i :| 0 <= i < |a| && a[i].name == name { assert c[i].name == name; }
    if i :| 0 <= i < |b| && b[i].name == name { assert c[|a| + i].name == name; }
    if i :| 0 <= i < |c| && c[i].name == name {
      assert i < |a| ==> a[i].name == name;
      assert i >= |a| ==> b[i - |a|].name == name;
    }
  }

  predicate Matches(p: seq<byte>, name: seq<byte>)
    requires Record(p)
  {
    Ino(p) != 0 && Name(p) == name
  }

  lemma MatchesEnt(p: seq<byte>, name: seq<byte>)
    requires Record(p) && |name| >= 1
    ensures Matches(p, name) <==> Named(EntOf(p), name)
    ensures Matches(p, name) ==> RemoveFirst(EntOf(p), name) == []
  {
    if Matches(p, name) {
      assert |Name(p)| == NameLen(p);
      assert EntOf(p)[0].name == name;
    }
  }

  /** Record i is the first one of that name. */
  ghost predicate FirstMatch(parts: seq<seq<byte>>, name: seq<byte>, i: nat)
    requires AllRecords(parts)
  {
    i < |parts| && Matches(parts[i], name) && forall k :: 0 <= k < i ==> !Matches(parts[k], name)
  }

  lemma {:induction false} NoMatchNoName(parts: seq<seq<byte>>, name: seq<byte>)
    requires AllRecords(parts) && |name| >= 1 && forall k :: 0 <= k < |parts| ==> !Matches(parts[k], name)
    ensures !Named(Ents(parts), name)
  {
    hide Record, Matches, Named, EntOf;
    if parts == [] {
      NoNames(name);
    } else {
      MatchesEnt(parts[0], name);
      NoMatchNoName(parts[1..], name);
      NamedAppend(EntOf(parts[0]), Ents(parts[1..]), name);
    }
  }

  lemma NoNames(name: seq<byte>)
    ensures !Named([], name)
  {
  }

  /** The deleted record, and the record before it grown over it. */
  function Cleared(p: seq<byte>): (r: seq<byte>)
    requires |p| >= 8
    ensures |r| == |p|
  {
    Splice(p, 0, Put32(0))
  }

  function Merged(prev: seq<byte>, p: seq<byte>): (r: seq<byte>)
    requires |p| >= 8 && |prev| >= 8
    ensures |r| == |prev| + |p|
  {
    Splice(prev + Cleared(p), 4, Put16(|prev| + |p|))
  }

  lemma ClearedIs(p: seq<byte>)
    requires Record(p)
    ensures Record(Cleared(p)) && EntOf(Cleared(p)) == []
  {
    hide Put32, Le32;
    SplicedLe32(p, 0, Put32(0));
    var r := Cleared(p);
    assert r[4] == p[4] && r[5] == p[5] && r[6] == p[6];
  }

  /** A record grown at its end, with its new length in place, is the same entry. */
  lemma HeadKept(p: seq<byte>, m: seq<byte>)
    requires Record(p) && |p| <= |m| < 0x1_0000 && |m| % 4 == 0 && Le16(m, 4) == |m|
    requires forall k :: 0 <= k < |p| && k != 4 && k != 5 ==> m[k] == p[k]
    ensures Record(m) && EntOf(m) == EntOf(p)
  {
    assert Le32(m, 0) == Le32(p, 0);
    hide Le32;
    NameKept(p, m);
  }

  lemma MergedIs(prev: seq<byte>, p: seq<byte>)
    requires Record(prev) && Record(p) && |prev| + |p| < 0x1_0000
    ensures Record(Merged(prev, p)) && EntOf(Merged(prev, p)) == EntOf(prev)
  {
    hide Put16, Le16, EntOf, Cleared;
    var z, m := Put16(|prev| + |p|), Merged(prev, p);
    SplicedLe16(prev + Cleared(p), 4, z);
    HeadKept(prev, m);
  }

  /** The records without the match at i. */
  function Without(parts: seq<seq<byte>>, i: nat): seq<seq<byte>>
    requires AllRecords(parts) && i < |parts|
  {
    if i == 0 then parts[..0] + [Cleared(parts[0])] + parts[1..]
    else parts[..i - 1] + [Merged(parts[i - 1], parts[i])] + parts[i + 1..]
  }

  /** A record length has 16 bits. */
  predicate MergeFits(parts: seq<seq<byte>>, i: nat)
    requires i < |parts|
  {
    i > 0 ==> |parts[i - 1]| + |parts[i]| < 0x1_0000
  }

  /** Without the match at i there is still a list of records exactly if the merged length fits. */
  lemma MergeExact(parts: seq<seq<byte>>, i: nat)
    requires AllRecords(parts) && i < |parts|
    ensures AllRecords(Without(parts, i)) <==> MergeFits(parts, i)
  {
    hide Merged, Cleared;
    if i == 0 {
      ClearedIs(parts[0]);
    } else {
      assert Without(parts, i)[i - 1] == Merged(parts[i - 1], parts[i]);
      if MergeFits(parts, i) { MergedIs(parts[i - 1], parts[i]); }
      hide Record;
      forall k | 0 <= k < |parts| - 1 && k != i - 1 ensures Without(parts, i)[k] == parts[if k < i - 1 then k else k + 1] {
      }
    }
  }

  /** A block of 64 KiB with two records of half its size: removing the second one gives the first one length 0. */
  lemma MergeTooLong()
    ensures var p := Filled(Zeros(0x8000), DirEnt(11, [0x61], 1));
            && Tiles(p + p, [p, p]) && |p + p| == 0x1_0000 && !MergeFits([p, p], 1) && Le16(Merged(p, p), 4) == 0
  {
    hide Filled, Record, Zeros, Merged, Le16;
    FilledIs(Zeros(0x8000), DirEnt(11, [0x61], 1));
    HalvesMerge(Filled(Zeros(0x8000), DirEnt(11, [0x61], 1)));
  }

  lemma HalvesMerge(p: seq<byte>)
    requires Record(p) && |p| == 0x8000
    ensures Tiles(p + p, [p, p]) && !MergeFits([p, p], 1) && Le16(Merged(p, p), 4) == 0
  {
    hide Record, Le16, Put16, Cleared, Concat;
    ConcatAppend([p], [p]);
    ConcatOne(p);
    assert [p] + [p] == [p, p];
    SplicedLe16(p + Cleared(p), 4, Put16(0x1_0000));
  }

  /** Removing keeps the tiling and drops exactly the first entry of that name. */
  lemma WithoutEnts(block: seq<byte>, parts: seq<seq<byte>>, name: seq<byte>, i: nat)
    requires Tiles(block, parts) && AllRecords(parts) && FirstMatch(parts, name, i) && |name| >= 1 && MergeFits(parts, i)
    ensures AllRecords(Without(parts, i)) && Ents(Without(parts, i)) == RemoveFirst(Ents(parts), name)
  {
    var p, a, b := parts[i], parts[..i], parts[i + 1..];
    assert Matches(p, name) && forall k :: 0 <= k < |a| ==> a[k] == parts[k] && !Matches(a[k], name);
    hide *;
    Around(parts, i);
    EntsAround(a, p, b);
    NoMatchNoName(a, name);
    MatchesEnt(p, name);
    RemoveFirstAppend(Ents(a) + EntOf(p), Ents(b), name);
    RemoveFirstAppend(Ents(a), EntOf(p), name);
    NamedAppend(Ents(a), EntOf(p), name);
    assert Ents(a) + [] == Ents(a);
    WithoutLeaves(block, parts, i);
  }

  lemma WithoutLeaves(block: seq<byte>, parts: seq<seq<byte>>, i: nat)
    requires Tiles(block, parts) && AllRecords(parts) && i < |parts| && AllRecords(parts[..i]) && AllRecords(parts[i + 1..]) && MergeFits(parts, i)
    ensures AllRecords(Without(parts, i)) && Ents(Without(parts, i)) == Ents(parts[..i]) + Ents(parts[i + 1..])
  {
    hide Record, Ents, EntOf, Cleared, Merged, Concat, Tiles;
    RecordSize(parts[0]);
    if i == 0 {
      ClearedIs(parts[0]);
      EntsAround(parts[..0], Cleared(parts[0]), parts[1..]);
      assert Ents(parts[..0]) + [] == Ents(parts[..0]);
    } else {
      var a, prev := parts[..i - 1], parts[i - 1];
      NeighboursFit(block, parts, i);
      assert Record(prev) && Record(parts[i]);
      MergedIs(prev, parts[i]);
      assert AllRecords(a);
      EntsAround(a, Merged(prev, parts[i]), parts[i + 1..]);
      OneMoreEnt(parts, i - 1);
    }
  }

  lemma NeighboursFit(block: seq<byte>, parts: seq<seq<byte>>, i: nat)
    requires Tiles(block, parts) && 0 < i < |parts|
    ensures |parts[i - 1]| + |parts[i]| <= |block| && |parts[i - 1]| >= 8 && |parts[i]| >= 8
    ensures |Concat(parts[..i])| == |Concat(parts[..i - 1])| + |parts[i - 1]|
  {
    BytesHere(block, parts, i - 1);
    BytesHere(block, parts, i);
  }

  lemma WithoutTiles(block: seq<byte>, parts: seq<seq<byte>>, i: nat)
    requires Tiles(block, parts) && AllRecords(parts) && i < |parts|
    ensures var pos := |Concat(parts[..i])|;
            && pos + 4 <= |block|
            && (i == 0 ==> (Tiles(Splice(block, pos, Put32(0)), Without(parts, i)) <==> MergeFits(parts, i)))
            && (i > 0 ==>
                 var prev := |Concat(parts[..i - 1])|;
                 && prev + 6 <= |block|
                 && (Tiles(Splice(Splice(block, pos, Put32(0)), prev + 4, Put16(|parts[i - 1]| + |parts[i]|)), Without(parts, i)) <==> MergeFits(parts, i)))
  {
    hide *;
    var p, a, b, pos := parts[i], parts[..i], parts[i + 1..], |Concat(parts[..i])|;
    BytesHere(block, parts, i);
    RecordSize(p);
    TilesRecords(block, parts);
    ClearedAre(p);
    WriteInside(a, p, b, 0, Put32(0));
    WithoutIs(parts, i);
    MergeExact(parts, i);
    if i == 0 {
      MakesTiles(block, Splice(block, pos, Put32(0)), parts, Without(parts, i));
    } else {
      var a', prev := parts[..i - 1], parts[i - 1];
      NeighboursFit(block, parts, i);
      var cleared := Splice(block, pos, Put32(0));
      var both := prev + Cleared(p);
      assert both[..|prev|] == prev && both[|prev|..] == Cleared(p);
      assert a' + [prev] == a;
      CutInTwo(a', both, b, |prev|);
      WriteInside(a', both, b, 4, Put16(|prev| + |p|));
      MergedAre(prev, p);
      MakesTiles(block, Splice(cleared, |Concat(a')| + 4, Put16(|prev| + |p|)), parts, Without(parts, i));
    }
  }

  lemma ClearedAre(p: seq<byte>)
    requires |p| >= 8
    ensures Cleared(p) == Splice(p, 0, Put32(0))
  {
  }

  lemma MergedAre(prev: seq<byte>, p: seq<byte>)
    requires |prev| >= 8 && |p| >= 8
    ensures Merged(prev, p) == Splice(prev + Cleared(p), 4, Put16(|prev| + |p|))
  {
  }

  lemma WithoutIs(parts: seq<seq<byte>>, i: nat)
    requires AllRecords(parts) && i < |parts|
    ensures |parts[i]| >= 8 && (i == 0 ==> Without(parts, i) == parts[..i] + [Cleared(parts[i])] + parts[i + 1..])
    ensures i > 0 ==> |parts[i - 1]| >= 8 && Without(parts, i) == parts[..i - 1] + [Merged(parts[i - 1], parts[i])] + parts[i + 1..]
  {
    hide Cleared, Merged;
  }

  /** Deletes the first record of that name from a block, if there is one. The block keeps its tiling exactly if the merged
      length fits its field. */
  method RemoveEntry(block: array<byte>, name: seq<byte>, ghost parts: seq<seq<byte>>) returns (ok: bool, ghost at: nat)
    requires Tiles(block[..], parts) && |name| >= 1
    modifies block
    ensures AllRecords(parts) && (ok ==> FirstMatch(parts, name, at))
    ensures ok ==> (Tiles(block[..], Without(parts, at)) <==> MergeFits(parts, at))
    ensures !ok ==> block[..] == old(block[..]) && forall k :: 0 <= k < |parts| ==> !Matches(parts[k], name)
  {
    hide *;
    ghost var before := block[..];
    TilesRecords(before, parts);
    ghost var i := 0;
    var pos, prevPos := 0, -1;
    NoneYet(parts);
    EndReached(before, parts, 0);
    while pos < block.Length
      invariant i <= |parts| && pos == |Concat(parts[..i])| && block[..] == before
      invariant pos < |before| <==> i < |parts|
      invariant i == 0 ==> prevPos == -1
      invariant i > 0 ==> prevPos == |Concat(parts[..i - 1])|
      invariant forall k :: 0 <= k < i ==> !Matches(parts[k], name)
      decreases |parts| - i
    {
      ghost var p := parts[i];
      BytesHere(before, parts, i);
      FieldsHere(before, pos, p);
      NameInside(p);
      MatchIs(p, name);
      var ino, recLen, nameLen: nat := Le32(block[..], pos), Le16(block[..], pos + 4), block[pos + 6];
      if recLen == 0 {
        break;
      }
      assert block[pos + 8..pos + 8 + nameLen] == before[pos + 8..pos + 8 + nameLen];
      if ino != 0 && block[pos + 8..pos + 8 + nameLen] == name {
        IsFirst(parts, name, i);
        WithoutTiles(before, parts, i);
        if i > 0 { PrevLength(before, parts, i, Put32(0)); }
        StoreBytes(block, pos, Put32(0));
        if prevPos >= 0 {
          var prevLen := Le16(block[..], prevPos + 4);
          StoreBytes(block, prevPos + 4, Put16(prevLen + recLen));
        }
        return true, i;
      }
      EndReached(before, parts, i + 1);
      prevPos := pos;
      pos := pos + recLen;
      i := i + 1;
    }
    ok, at := false, 0;
  }

  lemma NameInside(p: seq<byte>)
    requires Record(p)
    ensures 8 + NameLen(p) <= |p|
  {
  }

  lemma MatchIs(p: seq<byte>, name: seq<byte>)
    requires Record(p)
    ensures Matches(p, name) <==> Ino(p) != 0 && Name(p) == name
  {
  }

  lemma IsFirst(parts: seq<seq<byte>>, name: seq<byte>, i: nat)
    requires AllRecords(parts) && i < |parts| && Matches(parts[i], name) && forall k :: 0 <= k < i ==> !Matches(parts[k], name)
    ensures FirstMatch(parts, name, i)
  {
  }

  /** Clearing a record leaves the length of the one before it. */
  lemma PrevLength(block: seq<byte>, parts: seq<seq<byte>>, i: nat, z: seq<byte>)
    requires Tiles(block, parts) && 0 < i < |parts| && |z| == 4 && |Concat(parts[..i])| + 4 <= |block|
    ensures var prev := |Concat(parts[..i - 1])|;
            prev + 6 <= |block| && Le16(Splice(block, |Concat(parts[..i])|, z), prev + 4) == |parts[i - 1]|
  {
    hide Concat;
    NeighboursFit(block, parts, i);
    BytesHere(block, parts, i - 1);
    FieldsHere(block, |Concat(parts[..i - 1])|, parts[i - 1]);
  }

  /** The blocks of a directory, each a list of records. */
  ghost predicate AllBlocks(dir: seq<seq<seq<byte>>>) {
    forall i :: 0 <= i < |dir| ==> AllRecords(dir[i])
  }

  ghost function Listing(dir: seq<seq<seq<byte>>>): seq<DirEnt>
    requires AllBlocks(dir)
  {
    if dir == [] then [] else Ents(dir[0]) + Listing(dir[1..])
  }

  lemma {:induction false} ListingAppend(a: seq<seq<seq<byte>>>, b: seq<seq<seq<byte>>>)
    requires AllBlocks(a) && AllBlocks(b)
    ensures AllBlocks(a + b) && Listing(a + b) == Listing(a) + Listing(b)
  {
    hide AllRecords, Ents;
    if a == [] {
      assert a + b == b;
    } else {
      assert (a + b)[0] == a[0] && (a + b)[1..] == a[1..] + b;
      ListingAppend(a[1..], b);
    }
  }

  lemma ListingOne(p: seq<seq<byte>>)
    requires AllRecords(p)
    ensures AllBlocks([p]) && Listing([p]) == Ents(p)
  {
    assert [p][1..] == [] && Ents(p) + [] == Ents(p);
  }

  lemma ListingAround(dir: seq<seq<seq<byte>>>, i: nat, p: seq<seq<byte>>)
    requires AllBlocks(dir) && i < |dir| && AllRecords(p)
    ensures AllBlocks(dir[i := p]) && AllBlocks(dir[..i]) && AllBlocks(dir[i + 1..]) && AllRecords(dir[i])
    ensures Listing(dir) == Listing(dir[..i]) + Ents(dir[i]) + Listing(dir[i + 1..])
    ensures Listing(dir[i := p]) == Listing(dir[..i]) + Ents(p) + Listing(dir[i + 1..])
  {
    hide AllRecords, Ents, Listing;
    assert AllBlocks(dir[..i]) && AllBlocks(dir[i + 1..]) && AllRecords(dir[i]);
    var a, b := dir[..i], dir[i + 1..];
    assert dir == a + [dir[i]] + b && dir[i := p] == a + [p] + b;
    ListingOne(p);
    ListingOne(dir[i]);
    ListingAppend(a, [dir[i]]);
    ListingAppend(a + [dir[i]], b);
    ListingAppend(a, [p]);
    ListingAppend(a + [p], b);
  }

  /** `after` is `before` with `more` somewhere in it. */
  ghost predicate Inserted(before: seq<DirEnt>, after: seq<DirEnt>, more: seq<DirEnt>) {
    exists k :: 0 <= k <= |before| && after == before[..k] + more + before[k..]
  }

  lemma InsertedWithin(l: seq<DirEnt>, x: seq<DirEnt>, y: seq<DirEnt>, r: seq<DirEnt>, more: seq<DirEnt>)
    ensures Inserted(l + (x + y) + r, l + (x + more + y) + r, more)
  {
    var before, after, k := l + (x + y) + r, l + (x + more + y) + r, |l| + |x|;
    assert before[..k] == l + x && before[k..] == y + r;
    assert after == before[..k] + more + before[k..];
  }

  /** Removing a name that was just added gives the listing from before. */
  lemma AddThenRemove(before: seq<DirEnt>, after: seq<DirEnt>, e: DirEnt)
    requires Inserted(before, after, [e]) && !Named(before, e.name)
    ensures RemoveFirst(after, e.name) == before && Named(after, e.name)
  {
    var k :| 0 <= k <= |before| && after == before[..k] + [e] + before[k..];
    var a, b := before[..k], before[k..];
    assert before == a + b && [e][0].name == e.name;
    NamedAppend(a, b, e.name);
    NamedAppend(a, [e], e.name);
    NamedAppend(a + [e], b, e.name);
    hide Named;
    RemoveFirstAppend(a + [e], b, e.name);
    RemoveFirstAppend(a, [e], e.name);
    assert RemoveFirst([e], e.name) == [] && a + [] == a;
  }

  /** A block with a single record that spans it; a name too long for it is cut off. */
  function NewBlock(e: DirEnt, bs: nat): (r: seq<byte>)
    requires 8 <= bs
    ensures |r| == bs
  {
    Filled(Zeros(bs), e)
  }

  lemma NewBlockTiles(e: DirEnt, bs: nat)
    requires EntOk(e) && 263 <= bs <= 0x8000 && bs % 4 == 0
    ensures Tiles(NewBlock(e, bs), [NewBlock(e, bs)]) && AllRecords([NewBlock(e, bs)]) && Ents([NewBlock(e, bs)]) == Seen(e)
  {
    hide Filled, Ents, Concat, EntOf, Record, Seen;
    FilledIs(Zeros(bs), e);
    ConcatOne(NewBlock(e, bs));
    EntsOne(NewBlock(e, bs));
  }

  /** Every record of the block is too full for `need` bytes more. */
  ghost predicate BlockFull(parts: seq<seq<byte>>, need: nat)
    requires AllRecords(parts)
  {
    forall k :: 0 <= k < |parts| ==> Slack(parts[k]) < need
  }

  /** No block of the directory has room. */
  ghost predicate NoRoom(dir: seq<seq<seq<byte>>>, need: nat)
    requires AllBlocks(dir)
  {
    forall i :: 0 <= i < |dir| ==> BlockFull(dir[i], need)
  }

  method CopyOf(s: seq<byte>) returns (a: array<byte>)
    ensures fresh(a) && a[..] == s
  {
    a := new byte[|s|](i requires 0 <= i < |s| => s[i]);
    assert a[..] == s;
  }

  lemma MatchFacts(parts: seq<seq<byte>>, name: seq<byte>, i: nat)
    requires AllRecords(parts) && FirstMatch(parts, name, i)
    ensures i < |parts| && Matches(parts[i], name)
  {
  }

  lemma NothingListed(dir: seq<seq<seq<byte>>>, name: seq<byte>)
    ensures AllBlocks(dir[..0]) && Listing(dir[..0]) == [] && !Named(Listing(dir[..0]), name)
  {
  }

  lemma OneMoreBlock(dir: seq<seq<seq<byte>>>, i: nat)
    requires AllBlocks(dir) && i < |dir| && AllBlocks(dir[..i])
    ensures AllBlocks(dir[..i + 1]) && AllRecords(dir[i]) && Listing(dir[..i + 1]) == Listing(dir[..i]) + Ents(dir[i])
  {
    hide Ents, Listing, AllRecords;
    assert dir[..i + 1] == dir[..i] + [dir[i]];
    ListingOne(dir[i]);
    ListingAppend(dir[..i], [dir[i]]);
  }

  lemma NamedHere(parts: seq<seq<byte>>, name: seq<byte>, i: nat)
    requires AllRecords(parts) && i < |parts| && Matches(parts[i], name) && |name| >= 1
    ensures Named(Ents(parts), name)
  {
    hide *;
    Around(parts, i);
    EntsAround(parts[..i], parts[i], parts[i + 1..]);
    MatchesEnt(parts[i], name);
    NamedAppend(Ents(parts[..i]), EntOf(parts[i]), name);
    NamedAppend(Ents(parts[..i]) + EntOf(parts[i]), Ents(parts[i + 1..]), name);
  }

  lemma RemoveFirstAround(a: seq<DirEnt>, m: seq<DirEnt>, b: seq<DirEnt>, name: seq<byte>)
    requires !Named(a, name) && Named(m, name)
    ensures RemoveFirst(a + m + b, name) == a + RemoveFirst(m, name) + b && Named(a + m + b, name)
  {
    hide *;
    NamedAppend(a, m, name);
    NamedAppend(a + m, b, name);
    RemoveFirstAppend(a + m, b, name);
    RemoveFirstAppend(a, m, name);
  }
}
