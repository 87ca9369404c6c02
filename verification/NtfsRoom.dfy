/** When a directory has room for one more entry, in each form it is stored in: as numbers of the record, the bitmap and the entries. */
module NtfsRoom {
  import opened Wrappers
  import opened Bytes
  import opened Chunks
  import opened NtfsRunlist
  import opened NtfsAllocator
  import opened NtfsIndex
  import opened NtfsIndexBlock
  import opened NtfsPacking
  import opened NtfsRecord
  import opened NtfsDirectory
  import opened NtfsDirBlocks

  function Larger(a: int, b: int): int {
    if a >= b then a else b
  }

  function Cut(a: nat, b: nat): nat {
    if a >= b then a - b else 0
  }

  /** Bytes of the record's attribute of a kind, if it has one. */
  function SizeOf(rec: Record, k: Kind): nat {
    var a := Get(rec, k);
    if a.None? then 0 else a.value.size
  }

  /** The runlist of a record's index blocks. */
  function RunsOf(rec: Record): seq<Run> {
    var a := Get(rec, AllocKind);
    if a.None? then [] else var r := Decode(a.value.runlist, 0, 0); if r.Ok? then r.value else []
  }

  /** Length of the record when `runs` describe its index blocks, one more than `numBlocks`: both attributes of the index blocks
      go, and come back behind the others. */
  ghost function GrownLength(rec: Record, runs: seq<Run>, numBlocks: nat): int {
    if !AllStorable(runs) then 0
    else
      var kept := End(rec) - SizeOf(rec, AllocKind) - SizeOf(rec, BitmapKind);
      Larger(Cut(Cut(rec.len, SizeOf(rec, AllocKind)), SizeOf(rec, BitmapKind)),
             kept + (72 + |Encode(runs, 0)| + 7) / 8 * 8 + (32 + numBlocks / 8 + 1 + 7) / 8 * 8 + 8)
  }

  /** The last index block has room for the entry. */
  ghost predicate LastHasRoom(d: Dir, e: Entry, bs: nat) {
    d.blocks != [] && |Concat(d.blocks[|d.blocks| - 1])| + |e| <= Usable(bs)
  }

  /** A call will repack: the directory has index blocks, the last one has no room, and with the cluster a new block would
      get, the runlist makes the record outgrow its slot. */
  ghost predicate MustRepack(rec: Record, bits: seq<bool>, d: Dir, e: Entry, bs: nat, recSize: nat) {
    && Get(rec, AllocKind).Some? && !LastHasRoom(d, e, bs)
    && NewRuns(bits, 1).Some? && GrownLength(rec, Merge(RunsOf(rec), NewRuns(bits, 1).value), |d.list|) > recSize
  }

  /** With the directory's own clusters released there are clusters for all its blocks and one more, and the record fits
      its slot with their runlist. */
  ghost predicate CompactFits(rec: Record, bits: seq<bool>, d: Dir, recSize: nat) {
    var runs := NewRuns(Marked(bits, d.list, false), |d.list| + 1);
    runs.Some? && GrownLength(rec, runs.value, |d.list|) <= recSize
  }

  /** With one more cluster for a new block the record still fits its slot. */
  ghost predicate BlockFits(rec: Record, bits: seq<bool>, d: Dir, recSize: nat) {
    var runs := NewRuns(bits, 1);
    runs.Some? && GrownLength(rec, Merge(RunsOf(rec), runs.value), |d.list|) <= recSize
  }

  /** A directory with index blocks takes an entry if the last block does, or if there is a free cluster and the record fits its
      slot with a new block or with all blocks moved together. */
  ghost predicate BlocksTake(rec: Record, bits: seq<bool>, d: Dir, e: Entry, bs: nat, recSize: nat) {
    LastHasRoom(d, e, bs) || (1 <= |FreeSet(bits)| && (BlockFits(rec, bits, d, recSize) || CompactFits(rec, bits, d, recSize)))
  }

  /** The root, rewritten with one more entry, is expected to fit the record; eight bytes are kept. */
  predicate RootTakes(rec: Record, e: Entry, recSize: nat) {
    var a := Get(rec, RootKind);
    a.Some? && End(rec) + 8 - a.value.size + (56 + |a.value.hdr| + |e| + 7) / 8 * 8 + 8 <= recSize
  }

  /** Index blocks for these entries: as few as keep their order. */
  ghost function BlocksFor(es: seq<Entry>, bs: nat): seq<seq<Entry>> {
    Pack(es, [], Usable(bs))
  }

  /** Length of the record after a spill to `n` blocks on `runs`: an empty root of 80 bytes, runlist and bitmap at the end. */
  ghost function SpilledLength(rec: Record, runs: seq<Run>, n: nat): int {
    if !AllStorable(runs) then 0
    else
      Larger(Cut(rec.len, SizeOf(rec, RootKind)),
             End(rec) - SizeOf(rec, RootKind) + 80 + (72 + |Encode(runs, 0)| + 7) / 8 * 8 + (32 + (n + 7) / 8 + 7) / 8 * 8 + 8)
  }

  /** There are clusters for the blocks of a spill, and the record that names them fits its slot. */
  ghost predicate SpillFits(rec: Record, bits: seq<bool>, d: Dir, e: Entry, bs: nat, recSize: nat) {
    var n := |BlocksFor(d.root + [e], bs)|;
    var runs := NewRuns(bits, n);
    n <= |FreeSet(bits)| && runs.Some? && SpilledLength(rec, runs.value, n) <= recSize
  }

  /** The directory takes the entry. */
  ghost predicate Takes(rec: Record, bits: seq<bool>, d: Dir, e: Entry, bs: nat, recSize: nat) {
    if Get(rec, AllocKind).Some? then BlocksTake(rec, bits, d, e, bs, recSize)
    else if RootTakes(rec, e, recSize) then Cut(rec.len, SizeOf(rec, RootKind)) <= recSize
    else SpillFits(rec, bits, d, e, bs, recSize)
  }

  lemma {:induction false} TotalAppend(a: seq<Attr>, b: seq<Attr>)
    ensures Total(a + b) == Total(a) + Total(b)
  {
    if b == [] {
      assert a + b == a;
    } else {
      var k := |b| - 1;
      TotalAppend(a, b[..k]);
      assert (a + b)[..|a + b| - 1] == a + b[..k];
    }
  }

  lemma TotalWithout(attrs: seq<Attr>, i: nat)
    requires i < |attrs|
    ensures Total(attrs[..i] + attrs[i + 1..]) == Total(attrs) - attrs[i].size
  {
    hide *;
    var a, b, x := attrs[..i], attrs[i + 1..], attrs[i];
    assert attrs == a + ([x] + b);
    TotalAppend(a, [x] + b);
    TotalAppend([x], b);
    TotalAppend(a, b);
    OneTotal(x);
  }

  lemma RemoveLength(r: Record, k: Kind)
    ensures SizeOf(r, k) <= Total(r.attrs)
    ensures Remove(r, k).len == Cut(r.len, SizeOf(r, k)) && End(Remove(r, k)) == End(r) - SizeOf(r, k)
  {
    hide Total, Find;
    if Find(r.attrs, k) >= 0 { TotalWithout(r.attrs, Find(r.attrs, k)); }
  }

  lemma OneTotal(a: Attr)
    ensures Total([a]) == a.size
  {
    assert [a][..0] == [];
  }

  lemma AppendLength(r: Record, a: Attr)
    ensures Append(r, a).len == Larger(r.len, End(r) + a.size + 8) && End(Append(r, a)) == End(r) + a.size
  {
    assert (r.attrs + [a])[..|r.attrs|] == r.attrs;
  }

  lemma GrownLengthIs(rec: Record, runs: seq<Run>, numBlocks: nat, a: Attr, bm: Attr)
    requires Simple(rec) && AllStorable(runs) && a.IndexAlloc? && a.size == Round8(72 + |Encode(runs, 0)|) && bm == NamedBitmap(numBlocks / 8 + 1)
    ensures Rebuild(rec, a, bm).len == GrownLength(rec, runs, numBlocks)
  {
    hide Remove, Encode, Find, Append, Get, Unique;
    var r1 := Remove(rec, AllocKind);
    RemoveLength(rec, AllocKind);
    RemoveKeepsOthers(rec, AllocKind, BitmapKind);
    RemoveLength(r1, BitmapKind);
    var r2 := Remove(r1, BitmapKind);
    AppendLength(r2, a);
    AppendLength(Append(r2, a), bm);
  }

  lemma SpilledLengthIs(rec: Record, root: Attr, runs: seq<Run>, n: nat, a: Attr, bm: Attr)
    requires root.IndexRoot? && root.size == 80 && AllStorable(runs)
    requires a.IndexAlloc? && a.size == Round8(72 + |Encode(runs, 0)|) && bm == NamedBitmap((n + 7) / 8)
    ensures Spilled(rec, root, a, bm).len == SpilledLength(rec, runs, n)
  {
    hide Remove, Encode, Find, Append, Get;
    RemoveLength(rec, RootKind);
    var r1 := Remove(rec, RootKind);
    AppendLength(r1, root);
    AppendLength(Append(r1, root), a);
    AppendLength(Append(Append(r1, root), a), bm);
  }

  /** The record with a rewritten root that was expected to fit, does. */
  lemma RewrittenLength(rec: Record, root: Attr, kind: seq<byte>, hdr: seq<byte>, e: Entry, recSize: nat)
    requires Get(rec, RootKind) == Some(root) && root.IndexRoot? && |kind| == 16 && |hdr| == |root.hdr| + |e| && RootTakes(rec, e, recSize)
    ensures Replace(rec, NamedRoot(kind, hdr)).len <= recSize <==> Cut(rec.len, SizeOf(rec, RootKind)) <= recSize
  {
    hide Remove, Find, Append, Get;
    RemoveLength(rec, RootKind);
    AppendLength(Remove(rec, RootKind), NamedRoot(kind, hdr));
  }

  lemma NoRoom(d: Dir, e: Entry, bs: nat, last: nat)
    requires d.blocks != [] && last == |d.blocks| - 1 && |Concat(d.blocks[last])| + |e| > Usable(bs)
    ensures !LastHasRoom(d, e, bs)
  {
  }

  lemma RoomNotDue(rec: Record, bits: seq<bool>, d: Dir, e: Entry, bs: nat, recSize: nat, last: nat)
    requires d.blocks != [] && last == |d.blocks| - 1 && |Concat(d.blocks[last])| + |e| <= Usable(bs)
    ensures !MustRepack(rec, bits, d, e, bs, recSize)
  {
  }

  lemma RunsAre(rec: Record, runs: seq<Run>)
    requires Get(rec, AllocKind).Some? && Get(rec, AllocKind).value.IndexAlloc? && Decode(Get(rec, AllocKind).value.runlist, 0, 0) == Ok(runs)
    ensures RunsOf(rec) == runs
  {
  }

  lemma NotDue(rec: Record, bits: seq<bool>, d: Dir, e: Entry, bs: nat, recSize: nat)
    requires Get(rec, AllocKind).None?
    ensures !MustRepack(rec, bits, d, e, bs, recSize)
  {
  }

  /** A repack is due exactly if the record is too long with the cluster just taken. */
  lemma DueIff(rec: Record, bits: seq<bool>, d: Dir, e: Entry, bs: nat, recSize: nat)
    requires Get(rec, AllocKind).Some? && !LastHasRoom(d, e, bs)
    ensures MustRepack(rec, bits, d, e, bs, recSize)
      <==> NewRuns(bits, 1).Some? && GrownLength(rec, Merge(RunsOf(rec), NewRuns(bits, 1).value), |d.list|) > recSize
  {
  }

  lemma CompactIff(rec: Record, bits: seq<bool>, d: Dir, recSize: nat)
    ensures CompactFits(rec, bits, d, recSize)
      <==> var runs := NewRuns(Marked(bits, d.list, false), |d.list| + 1); runs.Some? && GrownLength(rec, runs.value, |d.list|) <= recSize
  {
  }

  lemma SpillIff(rec: Record, bits: seq<bool>, d: Dir, e: Entry, bs: nat, recSize: nat, blocks: seq<seq<Entry>>)
    requires blocks == Pack(d.root + [e], [], Usable(bs))
    ensures SpillFits(rec, bits, d, e, bs, recSize)
      <==> var runs := NewRuns(bits, |blocks|); |blocks| <= |FreeSet(bits)| && runs.Some? && SpilledLength(rec, runs.value, |blocks|) <= recSize
  {
  }

  lemma EmptyRootSize(rec: Record, es: seq<Entry>, root: Attr)
    requires RootAt(rec, es) && Get(rec, RootKind) == Some(root) && root.IndexRoot?
    ensures |root.kind| == 16 && NamedRoot(root.kind, EmptyHeader()).size == 80 && NamedRoot(root.kind, EmptyHeader()).IndexRoot?
  {
  }

  /** The writer's estimate is the one that decides. */
  lemma RootIff(rec: Record, root: Attr, e: Entry, newHdr: seq<byte>, recSize: nat)
    requires Get(rec, RootKind) == Some(root) && root.IndexRoot? && |newHdr| == |root.hdr| + |e|
    ensures RootTakes(rec, e, recSize) <==> End(rec) + 8 - root.size + Round8(40 + 16 + |newHdr|) + 8 <= recSize
  {
    hide Find;
  }

  lemma TakesIs(rec: Record, bits: seq<bool>, d: Dir, e: Entry, bs: nat, recSize: nat)
    ensures Get(rec, AllocKind).Some? ==> (Takes(rec, bits, d, e, bs, recSize) <==> BlocksTake(rec, bits, d, e, bs, recSize))
    ensures Get(rec, AllocKind).None? && RootTakes(rec, e, recSize) ==> (Takes(rec, bits, d, e, bs, recSize) <==> Cut(rec.len, SizeOf(rec, RootKind)) <= recSize)
    ensures Get(rec, AllocKind).None? && !RootTakes(rec, e, recSize) ==> (Takes(rec, bits, d, e, bs, recSize) <==> SpillFits(rec, bits, d, e, bs, recSize))
  {
  }

  lemma LastTakes(rec: Record, bits: seq<bool>, d: Dir, e: Entry, bs: nat, recSize: nat, last: nat)
    requires d.blocks != [] && last == |d.blocks| - 1 && |Concat(d.blocks[last])| + |e| <= Usable(bs)
    ensures BlocksTake(rec, bits, d, e, bs, recSize)
  {
  }

  /** With a full last block, room is a matter of clusters and of the record. */
  lemma FullLast(rec: Record, bits: seq<bool>, d: Dir, e: Entry, bs: nat, recSize: nat)
    requires Get(rec, AllocKind).Some? && !LastHasRoom(d, e, bs)
    ensures BlocksTake(rec, bits, d, e, bs, recSize) <==> 1 <= |FreeSet(bits)| && (BlockFits(rec, bits, d, recSize) || CompactFits(rec, bits, d, recSize))
    ensures BlockFits(rec, bits, d, recSize)
      <==> NewRuns(bits, 1).Some? && GrownLength(rec, Merge(RunsOf(rec), NewRuns(bits, 1).value), |d.list|) <= recSize
  {
  }
}
