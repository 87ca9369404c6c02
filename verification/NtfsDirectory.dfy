/** A directory's index in all its storage forms, and what a reader sees of it. */
module NtfsDirectory {
  import opened Bytes
  import opened Chunks
  import opened NtfsRunlist
  import opened NtfsAllocator
  import opened NtfsStore
  import opened NtfsIndex
  import opened NtfsIndexBlock
  import opened NtfsRecord

  /** The entries of the resident root, those of each index block, and the blocks' clusters. */
  datatype Dir = Dir(root: seq<Entry>, blocks: seq<seq<Entry>>, list: seq<int>)

  function Listing(d: Dir): seq<Entry> {
    d.root + Concat(d.blocks)
  }

  ghost predicate RootAt(r: Record, root: seq<Entry>) {
    var a := Get(r, RootKind);
    a.Some? && |a.value.kind| == 16 && |a.value.hdr| < 0x8000_0000 && Header(a.value.hdr, root)
  }

  /** The stored runlist bytes name the clusters `list`. */
  ghost predicate Names(runlist: seq<byte>, list: seq<int>) {
    var d := Decode(runlist, 0, 0); d.Ok? && Positive(d.value) && Clusters(d.value) == list && AllStorable(d.value)
  }

  ghost predicate AllocAt(r: Record, bs: nat, list: seq<int>) {
    match Get(r, AllocKind)
    case None => list == [] && Get(r, BitmapKind).None?
    case Some(a) => list != [] && Names(a.runlist, list) && a.totalBytes == Times(|list|, bs)
  }

  ghost predicate BlocksAt(disk: seq<byte>, bs: nat, list: seq<int>, blocks: seq<seq<Entry>>) {
    && |list| == |blocks| && AllHeld(disk, bs, list)
    && forall j :: 0 <= j < |list| ==> Held(disk, bs, list[j]) && DiskBlock(Cluster(disk, bs, list[j]), blocks[j], bs)
  }

  ghost predicate Claimed(bits: seq<bool>, list: seq<int>) {
    Distinct(list) && forall i :: 0 <= i < |list| ==> 1 <= list[i] < |bits| && bits[list[i]]
  }

  /** Record, device and bitmap together store directory `d`. */
  ghost predicate DirAt(r: Record, disk: seq<byte>, bs: nat, bits: seq<bool>, d: Dir) {
    Simple(r) && RootAt(r, d.root) && AllocAt(r, bs, d.list) && BlocksAt(disk, bs, d.list, d.blocks) && Claimed(bits, d.list)
  }

  /** Clusters in use by anybody else are as before. */
  ghost predicate Bystanders(disk: seq<byte>, disk': seq<byte>, bs: nat, bits: seq<bool>, list: seq<int>) {
    && |disk'| == |disk|
    && forall m :: 0 <= m < |bits| && bits[m] && m !in list && Held(disk, bs, m) ==>
         Held(disk', bs, m) && Cluster(disk', bs, m) == Cluster(disk, bs, m)
  }

  /** A runlist just encoded names its clusters, whatever follows it in the attribute. */
  lemma EncodedNames(runs: seq<Run>, filler: seq<byte>)
    requires AllStorable(runs) && Positive(runs)
    ensures Names(Encode(runs, 0) + filler, Clusters(runs))
  {
    DecodeEncode(runs, filler);
  }

  /** Inline: the new entry goes into the resident root. */
  lemma InlineStep(r: Record, disk: seq<byte>, bs: nat, bits: seq<bool>, d: Dir, e: Entry)
    requires DirAt(r, disk, bs, bits, d) && IsEntry(e) && Get(r, AllocKind).None? && |Get(r, RootKind).value.hdr| + |e| < 0x8000_0000
    ensures var a := Get(r, RootKind).value;
            var h := InsertIndexEntry(a.hdr, e);
            h.Some? && DirAt(Replace(r, NamedRoot(a.kind, h.value)), disk, bs, bits, d.(root := d.root + [e]))
    ensures Listing(d.(root := d.root + [e])) == Listing(d) + [e]
  {
    hide Header, IsEntry, InsertIndexEntry, Simple, Claimed, BlocksAt, Get, Replace, Names, Concat;
    var a := Get(r, RootKind).value;
    HeaderLength(a.hdr, d.root);
    InsertAppends(a.hdr, d.root, e);
    Replaced(r, NamedRoot(a.kind, InsertIndexEntry(a.hdr, e).value));
    NoBlocks(disk, bs, d.blocks);
    assert d.root + [e] + [] == d.root + [] + [e];
  }

  lemma NoBlocks(disk: seq<byte>, bs: nat, blocks: seq<seq<Entry>>)
    requires BlocksAt(disk, bs, [], blocks)
    ensures blocks == [] && Concat(blocks) == []
  {
  }

  lemma NotEmpty(disk: seq<byte>, bs: nat, list: seq<int>, blocks: seq<seq<Entry>>, last: seq<Entry>)
    requires BlocksAt(disk, bs, list, blocks + [last])
    ensures list != []
  {
  }

  lemma HeaderLength(hdr: seq<byte>, es: seq<Entry>)
    requires Header(hdr, es)
    ensures |hdr| >= 16 && Le32(hdr, 4) <= |hdr|
  {
  }

  /** An index root without entries, its 16-byte header kept. */
  function EmptyHeader(): (h: seq<byte>)
    ensures |h| == 32
  {
    Put32(16) + Put32(32) + Put32(32) + Zeros(4) + SentinelBytes()
  }

  lemma EmptyHeaderHolds()
    ensures Header(EmptyHeader(), []) && Le32(EmptyHeader(), 4) == Le32(EmptyHeader(), 8) == 32
  {
    hide Put32, SentinelBytes, IsSentinel, Le32;
    var h := EmptyHeader();
    SameLe32(h, 0, Put32(16), 0);
    SameLe32(h, 4, Put32(32), 0);
    SameLe32(h, 8, Put32(32), 0);
    assert h[16..32] == SentinelBytes();
    assert h[16..16] == [] == Concat<byte>([]);
  }

  /** Spill: every entry, old and new, moves to index blocks; the root becomes empty. */
  lemma SpillStep(r: Record, disk: seq<byte>, disk': seq<byte>, bs: nat, bits: seq<bool>, bits': seq<bool>, d: Dir, e: Entry,
                  blocks: seq<seq<Entry>>, list: seq<int>, alloc: Attr, bitmap: Attr)
    requires DirAt(r, disk, bs, bits, d) && Get(r, AllocKind).None? && blocks != []
    requires Concat(blocks) == d.root + [e] && BlocksAt(disk', bs, list, blocks) && Claimed(bits', list)
    requires alloc.IndexAlloc? && Names(alloc.runlist, list) && alloc.totalBytes == Times(|list|, bs) && bitmap.IndexBitmap?
    ensures DirAt(Spilled(r, NamedRoot(Get(r, RootKind).value.kind, EmptyHeader()), alloc, bitmap), disk', bs, bits', Dir([], blocks, list))
    ensures Listing(Dir([], blocks, list)) == Listing(d) + [e]
  {
    hide Header, IsEntry, Simple, Claimed, Names, DiskBlock, EmptyHeader, Spilled, Get;
    EmptyHeaderHolds();
    SpilledIs(r, NamedRoot(Get(r, RootKind).value.kind, EmptyHeader()), alloc, bitmap);
    assert d.blocks == [] && Concat(d.blocks) == [];
    assert [] + Concat(blocks) == Concat(blocks) && d.root + [] == d.root;
  }

  lemma {:induction false} ConcatLast(blocks: seq<seq<Entry>>, e: Entry)
    requires blocks != []
    ensures var k := |blocks| - 1; Concat(blocks[k := blocks[k] + [e]]) == Concat(blocks) + [e]
  {
    var k := |blocks| - 1;
    assert blocks == blocks[..k] + [blocks[k]] && blocks[k := blocks[k] + [e]] == blocks[..k] + [blocks[k] + [e]];
    ConcatAppend(blocks[..k], [blocks[k]]);
    ConcatAppend(blocks[..k], [blocks[k] + [e]]);
    ConcatOne(blocks[k]);
    ConcatOne(blocks[k] + [e]);
  }

  /** Last-block append: only the last cluster is rewritten. */
  lemma LastBlockStep(r: Record, disk: seq<byte>, disk': seq<byte>, bs: nat, bits: seq<bool>, d: Dir, e: Entry)
    requires DirAt(r, disk, bs, bits, d) && d.list != []
    requires var last := d.list[|d.list| - 1];
             && |disk'| == |disk| && |d.blocks| == |d.list| && Held(disk', bs, last)
             && DiskBlock(Cluster(disk', bs, last), d.blocks[|d.list| - 1] + [e], bs)
             && OthersKept(disk, disk', bs, [last])
    ensures var k := |d.list| - 1; DirAt(r, disk', bs, bits, d.(blocks := d.blocks[k := d.blocks[k] + [e]]))
    ensures var k := |d.list| - 1; Listing(d.(blocks := d.blocks[k := d.blocks[k] + [e]])) == Listing(d) + [e]
  {
    hide Header, DiskBlock, Names, Simple, Cluster, Header;
    var k := |d.list| - 1;
    var blocks := d.blocks[k := d.blocks[k] + [e]];
    forall j | 0 <= j < |d.list| ensures Held(disk', bs, d.list[j]) && DiskBlock(Cluster(disk', bs, d.list[j]), blocks[j], bs) {
      if j < k { assert d.list[j] != d.list[k]; }
    }
    ConcatLast(d.blocks, e);
    assert d.root + (Concat(d.blocks) + [e]) == d.root + Concat(d.blocks) + [e];
  }

  /** New block or repack: the record names the old clusters, or new ones, and one more. */
  lemma GrownStep(r: Record, disk: seq<byte>, disk': seq<byte>, bs: nat, bits: seq<bool>, bits': seq<bool>, d: Dir, e: Entry,
                  list: seq<int>, alloc: Attr, bitmap: Attr)
    requires DirAt(r, disk, bs, bits, d)
    requires BlocksAt(disk', bs, list, d.blocks + [[e]]) && Claimed(bits', list)
    requires alloc.IndexAlloc? && Names(alloc.runlist, list) && alloc.totalBytes == Times(|list|, bs) && bitmap.IndexBitmap?
    ensures DirAt(Rebuild(r, alloc, bitmap), disk', bs, bits', Dir(d.root, d.blocks + [[e]], list))
    ensures Listing(Dir(d.root, d.blocks + [[e]], list)) == Listing(d) + [e]
  {
    hide Header, DiskBlock, Names, Simple, Claimed, BlocksAt, Get, Rebuild, Concat;
    Rebuilt(r, alloc, bitmap);
    NotEmpty(disk', bs, list, d.blocks, [e]);
    ConcatAppend(d.blocks, [[e]]);
    ConcatOne([e]);
    assert d.root + (Concat(d.blocks) + [e]) == d.root + Concat(d.blocks) + [e];
  }
}
