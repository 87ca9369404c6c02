/** The NTFS directory engine: inline root, spill, append to the last block, new block and repack. */
module NtfsDirVolume {
  import opened Wrappers
  import opened Bytes
  import opened Chunks
  import opened NtfsRunlist
  import opened NtfsAllocator
  import opened NtfsStore
  import opened NtfsFixup
  import opened NtfsIndex
  import opened NtfsNames
  import opened NtfsIndexBlock
  import opened NtfsPacking
  import opened NtfsRecord
  import opened NtfsDirectory
  import opened NtfsDirBlocks
  import opened NtfsRoom

  /** Whatever was in use outside `list` keeps its bytes and stays in use. */
  ghost predicate Spared(disk: seq<byte>, disk': seq<byte>, bs: nat, bits: seq<bool>, bits': seq<bool>, list: seq<int>) {
    && Bystanders(disk, disk', bs, bits, list) && |bits'| == |bits|
    && forall m :: 1 <= m < |bits| && bits[m] && m !in list ==> bits'[m]
  }

  /** One entry was added: the directory is now `d'`, with the entry at the end of its listing; it lives on its own
      old clusters and on clusters that were free, and nobody else noticed. */
  ghost predicate Appended(r: Record, disk: seq<byte>, disk': seq<byte>, bs: nat, bits: seq<bool>, bits': seq<bool>, d: Dir, d': Dir, e: Entry) {
    && DirAt(r, disk', bs, bits', d') && Listing(d') == Listing(d) + [e]
    && Spared(disk, disk', bs, bits, bits', d.list)
    && forall x :: x in d'.list ==> x in d.list || x in FreeSet(bits)
  }

  /** The clusters a repack moves the directory's blocks and the new one to. */
  ghost function MovedTo(bits: seq<bool>, d: Dir): seq<int> {
    var runs := NewRuns(Marked(bits, d.list, false), |d.list| + 1);
    if runs.Some? then Clusters(runs.value) else []
  }

  /** The blocks and the new one have been moved and the bitmap follows, whatever the record says. */
  ghost predicate MovedAway(disk: seq<byte>, disk': seq<byte>, bs: nat, bits: seq<bool>, bits': seq<bool>, d: Dir, e: Entry) {
    && Boot(bits') == Boot(Marked(Marked(bits, d.list, false), MovedTo(bits, d), true))
    && BlocksAt(disk', bs, MovedTo(bits, d), d.blocks + [[e]]) && OthersKept(disk, disk', bs, MovedTo(bits, d))
  }

  /** Every cluster the record names has been given a block again, and one with the same entries. */
  ghost predicate StillReads(bits: seq<bool>, d: Dir, e: Entry) {
    forall j :: 0 <= j < |d.list| && j < |d.blocks| ==> Again(MovedTo(bits, d), d.blocks + [[e]], d.list[j], d.blocks[j])
  }

  ghost predicate Again(list: seq<int>, blocks: seq<seq<Entry>>, x: int, es: seq<Entry>) {
    exists k :: 0 <= k < |list| && k < |blocks| && list[k] == x && blocks[k] == es
  }

  /** With the old record after a move, the directory is still there exactly if every one of its clusters happens to hold
      the same entries again. */
  lemma LeftBehind(rec: Record, disk: seq<byte>, disk': seq<byte>, bs: nat, bits: seq<bool>, bits': seq<bool>, d: Dir, e: Entry)
    requires DirAt(rec, disk, bs, bits, d) && MovedAway(disk, disk', bs, bits, bits', d, e)
    ensures DirAt(rec, disk', bs, bits', d) <==> StillReads(bits, d, e)
  {
    hide RootAt, AllocAt, Simple, MovedTo, DiskBlock, Cluster, Held, OthersKept, Again;
    assert |bits'| == |Boot(bits')| == |bits|;
    forall j | 0 <= j < |d.list|
      ensures 1 <= d.list[j] < |bits'| && (bits'[d.list[j]] <==> d.list[j] in MovedTo(bits, d))
    {
      assert bits'[d.list[j]] == Boot(bits')[d.list[j]];
    }
    if StillReads(bits, d, e) {
      forall j | 0 <= j < |d.list|
        ensures Held(disk', bs, d.list[j]) && DiskBlock(Cluster(disk', bs, d.list[j]), d.blocks[j], bs) && d.list[j] in MovedTo(bits, d)
      {
        GivenAgain(disk', bs, MovedTo(bits, d), d.blocks + [[e]], d.list[j], d.blocks[j]);
      }
    }
    if DirAt(rec, disk', bs, bits', d) {
      forall j | 0 <= j < |d.list| ensures Again(MovedTo(bits, d), d.blocks + [[e]], d.list[j], d.blocks[j]) {
        SameAgain(disk', bs, MovedTo(bits, d), d.blocks + [[e]], d.list[j], d.blocks[j]);
      }
    }
  }

  lemma GivenAgain(disk: seq<byte>, bs: nat, list: seq<int>, blocks: seq<seq<Entry>>, x: int, es: seq<Entry>)
    requires BlocksAt(disk, bs, list, blocks) && Again(list, blocks, x, es)
    ensures Held(disk, bs, x) && DiskBlock(Cluster(disk, bs, x), es, bs) && x in list
  {
    hide DiskBlock, Cluster, Held;
  }

  lemma SameAgain(disk: seq<byte>, bs: nat, list: seq<int>, blocks: seq<seq<Entry>>, x: int, es: seq<Entry>)
    requires BlocksAt(disk, bs, list, blocks) && x in list && Held(disk, bs, x) && DiskBlock(Cluster(disk, bs, x), es, bs)
    ensures Again(list, blocks, x, es)
  {
    hide DiskBlock, Cluster, Held;
    var k :| 0 <= k < |list| && list[k] == x;
    OneReading(Cluster(disk, bs, x), es, blocks[k], bs);
  }

  /** A block has one reading. */
  lemma OneReading(raw: seq<byte>, a: seq<Entry>, b: seq<Entry>, bs: nat)
    requires DiskBlock(raw, a, bs) && DiskBlock(raw, b, bs)
    ensures a == b
  {
    DiskBlockReads(raw, a, bs);
    DiskBlockReads(raw, b, bs);
  }

  /** What a repack sees as free is what the released bitmap shows. */
  lemma ReleasedRuns(bits: seq<bool>, freed: seq<bool>, list: seq<int>, n: int)
    requires Repacking(bits, freed, list)
    ensures NewRuns(freed, n) == NewRuns(Marked(bits, list, false), n)
  {
    var r := Marked(bits, list, false);
    assert Boot(freed) == Boot(r);
    SameNewRuns(freed, r, n);
  }

  /** A directory on clusters outside `list` is still there. */
  lemma SparedDir(r: Record, disk: seq<byte>, disk': seq<byte>, bs: nat, bits: seq<bool>, bits': seq<bool>, list: seq<int>, d: Dir)
    requires DirAt(r, disk, bs, bits, d) && Spared(disk, disk', bs, bits, bits', list) && forall x :: x in d.list ==> x !in list
    ensures DirAt(r, disk', bs, bits', d)
  {
    hide DiskBlock, Cluster, RootAt, AllocAt, Simple;
    forall j | 0 <= j < |d.list|
      ensures Held(disk', bs, d.list[j]) && DiskBlock(Cluster(disk', bs, d.list[j]), d.blocks[j], bs) && bits'[d.list[j]]
    {
      assert d.list[j] in d.list;
    }
  }

  lemma FreshSpares(disk: seq<byte>, disk': seq<byte>, bs: nat, bits: seq<bool>, bits': seq<bool>, cs: seq<int>, list: seq<int>)
    requires Fresh(bits, cs) && OthersKept(disk, disk', bs, cs) && Boot(bits') == Boot(Marked(bits, cs, true))
    ensures Spared(disk, disk', bs, bits, bits', list)
  {
    FreshDisturbsNobody(disk, disk', bs, bits, cs, list);
    assert |bits'| == |Boot(bits')| == |bits|;
    forall m | 1 <= m < |bits| && bits[m] ensures bits'[m] {
      assert bits'[m] == Boot(bits')[m] == Boot(Marked(bits, cs, true))[m];
    }
  }

  lemma TakenSpares(disk: seq<byte>, bs: nat, bits: seq<bool>, bits': seq<bool>, list: seq<int>)
    requires OnlyTaken(bits, bits')
    ensures Spared(disk, disk, bs, bits, bits', list)
  {
    forall m | 1 <= m < |bits| && bits[m] ensures bits'[m] {
      assert m in FreeSet(bits') ==> m in FreeSet(bits);
    }
  }

  /** Cluster numbers in use are numbers a runlist can store. */
  lemma ClaimedStorable(bits: seq<bool>, runs: seq<Run>)
    requires |bits| < TWO63 && Positive(runs) && Claimed(bits, Clusters(runs))
    ensures AllStorable(runs)
  {
    hide Clusters;
    forall i | 0 <= i < |runs| ensures Storable(runs[i]) {
      ClusterPosition(runs, i, 0);
      ClusterPosition(runs, i, runs[i].length - 1);
    }
  }

  /** The spill puts old and new entries into fresh blocks. */
  lemma SpillAppends(r: Record, disk: seq<byte>, disk': seq<byte>, bs: nat, bits: seq<bool>, bits': seq<bool>, d: Dir, e: Entry,
                     blocks: seq<seq<Entry>>, list: seq<int>, alloc: Attr, bitmap: Attr)
    requires DirAt(r, disk, bs, bits, d) && Get(r, AllocKind).None? && blocks != []
    requires Concat(blocks) == d.root + [e] && BlocksAt(disk', bs, list, blocks)
    requires Fresh(bits, list) && OthersKept(disk, disk', bs, list) && Boot(bits') == Boot(Marked(bits, list, true))
    requires alloc.IndexAlloc? && Names(alloc.runlist, list) && alloc.totalBytes == Times(|list|, bs) && bitmap.IndexBitmap?
    ensures Appended(Spilled(r, NamedRoot(Get(r, RootKind).value.kind, EmptyHeader()), alloc, bitmap),
                     disk, disk', bs, bits, bits', d, Dir([], blocks, list), e)
  {
    FreshSpares(disk, disk', bs, bits, bits', list, d.list);
    assert Claimed(bits, []) && [] + list == list;
    ClaimedMore(bits, bits', [], list);
    hide Spared, DirAt, Listing, Spilled, BlocksAt, Claimed, Names, FreeSet, Boot, Marked;
    SpillStep(r, disk, disk', bs, bits, bits', d, e, blocks, list, alloc, bitmap);
  }

  /** Rewriting the last block. */
  lemma LastAppends(r: Record, disk: seq<byte>, disk': seq<byte>, bs: nat, bits: seq<bool>, d: Dir, e: Entry)
    requires DirAt(r, disk, bs, bits, d) && d.list != []
    requires var last := d.list[|d.list| - 1];
             && |disk'| == |disk| && |d.blocks| == |d.list| && Held(disk', bs, last)
             && DiskBlock(Cluster(disk', bs, last), d.blocks[|d.list| - 1] + [e], bs)
             && OthersKept(disk, disk', bs, [last])
    ensures var k := |d.list| - 1;
            Appended(r, disk, disk', bs, bits, bits, d, d.(blocks := d.blocks[k := d.blocks[k] + [e]]), e)
  {
    hide DirAt, Listing, DiskBlock, Cluster;
    LastBlockStep(r, disk, disk', bs, bits, d, e);
  }

  /** One more block on a fresh cluster. */
  lemma GrowAppends(r: Record, disk: seq<byte>, disk': seq<byte>, bs: nat, bits: seq<bool>, bits': seq<bool>, d: Dir, e: Entry,
                    more: seq<int>, alloc: Attr, bitmap: Attr)
    requires DirAt(r, disk, bs, bits, d) && BlocksAt(disk', bs, more, [[e]])
    requires Fresh(bits, more) && OthersKept(disk, disk', bs, more) && Boot(bits') == Boot(Marked(bits, more, true))
    requires alloc.IndexAlloc? && Names(alloc.runlist, d.list + more) && alloc.totalBytes == Times(|d.list + more|, bs) && bitmap.IndexBitmap?
    ensures Appended(Rebuild(r, alloc, bitmap), disk, disk', bs, bits, bits', d, Dir(d.root, d.blocks + [[e]], d.list + more), e)
  {
    hide Names, Simple, RootAt, AllocAt, DiskBlock, Cluster, Rebuild, Boot, Marked, Listing, Spared, FreeSet, Held;
    FreshSpares(disk, disk', bs, bits, bits', more, d.list);
    ClaimedMore(bits, bits', d.list, more);
    BlocksKept(disk, disk', bs, bits, d.list, d.blocks, more);
    BlocksJoin(disk', bs, d.list, d.blocks, more, [[e]]);
    GrownStep(r, disk, disk', bs, bits, bits', d, e, d.list + more, alloc, bitmap);
  }

  lemma BlocksJoin(disk: seq<byte>, bs: nat, l1: seq<int>, b1: seq<seq<Entry>>, l2: seq<int>, b2: seq<seq<Entry>>)
    requires BlocksAt(disk, bs, l1, b1) && BlocksAt(disk, bs, l2, b2)
    ensures BlocksAt(disk, bs, l1 + l2, b1 + b2)
  {
    hide DiskBlock, Cluster, Held;
  }

  /** The bitmap on the way through a repack: one cluster taken and given back, the directory's own released, and
      part of what is then free taken again. */
  ghost predicate Repacking(bits: seq<bool>, freed: seq<bool>, list: seq<int>) {
    && |freed| == |bits|
    && forall m :: 1 <= m < |bits| ==> (freed[m] <==> bits[m] && m !in list)
  }

  lemma FreedIs(bits: seq<bool>, runs: seq<Run>)
    requires Positive(runs)
    ensures Repacking(bits, Marked(bits, Freeable(runs), false), Clusters(runs))
  {
    FreeableAll(runs);
  }

  /** Taking a cluster and giving it back makes no difference. */
  lemma GivenBack(bits: seq<bool>, b1: seq<bool>, taken: seq<Run>, freed: seq<bool>, list: seq<int>)
    requires Positive(taken) && Fresh(bits, Clusters(taken)) && Boot(b1) == Boot(Marked(bits, Clusters(taken), true))
    requires Repacking(Marked(b1, Freeable(taken), false), freed, list)
    ensures Repacking(bits, freed, list)
  {
    FreeUndoesAlloc(bits, b1, taken);
    var b2 := Marked(b1, Freeable(taken), false);
    hide Clusters, Freeable;
    assert |b1| == |Boot(b1)| == |bits|;
    forall m | 1 <= m < |bits| ensures b2[m] == bits[m] {
      assert Boot(b2)[m] == Boot(bits)[m];
    }
  }

  lemma FreedHeld(disk: seq<byte>, bs: nat, bits: seq<bool>, b1: seq<bool>, taken: seq<Run>)
    requires Positive(taken) && Fresh(bits, Clusters(taken)) && Boot(b1) == Boot(Marked(bits, Clusters(taken), true)) && FreeHeld(disk, bs, bits)
    ensures FreeHeld(disk, bs, Marked(b1, Freeable(taken), false))
  {
    FreeUndoesAlloc(bits, b1, taken);
    var b2 := Marked(b1, Freeable(taken), false);
    hide Clusters, Freeable, Held;
    assert |b1| == |Boot(b1)| == |bits|;
    forall m | 1 <= m < |bits| ensures b2[m] == bits[m] {
      assert Boot(b2)[m] == Boot(bits)[m];
    }
    assert FreeSet(b2) == FreeSet(bits);
  }

  /** After the move the directory is on the new clusters. */
  lemma RepackAppends(r: Record, disk: seq<byte>, disk': seq<byte>, bs: nat, bits: seq<bool>, freed: seq<bool>, bits': seq<bool>,
                      d: Dir, e: Entry, list: seq<int>, alloc: Attr, bitmap: Attr)
    requires DirAt(r, disk, bs, bits, d) && BlocksAt(disk', bs, list, d.blocks + [[e]])
    requires Repacking(bits, freed, d.list) && Fresh(freed, list)
    requires OthersKept(disk, disk', bs, list) && Boot(bits') == Boot(Marked(freed, list, true))
    requires alloc.IndexAlloc? && Names(alloc.runlist, list) && alloc.totalBytes == Times(|list|, bs) && bitmap.IndexBitmap?
    ensures Appended(Rebuild(r, alloc, bitmap), disk, disk', bs, bits, bits', d, Dir(d.root, d.blocks + [[e]], list), e)
  {
    hide Names, Simple, RootAt, AllocAt, DiskBlock, Cluster, Rebuild, Listing, Held, DirAt, BlocksAt;
    RepackClaims(disk, disk', bs, bits, freed, bits', d.list, list);
    GrownStep(r, disk, disk', bs, bits, bits', d, e, list, alloc, bitmap);
  }

  lemma RepackClaims(disk: seq<byte>, disk': seq<byte>, bs: nat, bits: seq<bool>, freed: seq<bool>, bits': seq<bool>,
                     prior: seq<int>, list: seq<int>)
    requires Repacking(bits, freed, prior) && Fresh(freed, list)
    requires OthersKept(disk, disk', bs, list) && Boot(bits') == Boot(Marked(freed, list, true))
    ensures Claimed(bits', list) && Spared(disk, disk', bs, bits, bits', prior)
    ensures forall x :: x in list ==> x in prior || x in FreeSet(bits)
  {
    hide Cluster, Held;
    assert Claimed(freed, []) && [] + list == list;
    ClaimedMore(freed, bits', [], list);
    assert |bits'| == |Boot(bits')| == |bits|;
    forall m | 1 <= m < |bits| && bits[m] && m !in prior ensures bits'[m] && m !in list {
      assert m in list ==> m in FreeSet(freed);
      assert bits'[m] == Boot(bits')[m] == Boot(Marked(freed, list, true))[m];
    }
    assert 0 in list ==> 0 in FreeSet(freed);
    forall x | x in list ensures x in prior || x in FreeSet(bits) {
      assert x in FreeSet(freed);
    }
  }

  /** The released clusters and the one that was free before are enough for all blocks and one more. */
  lemma EnoughReleased(bits: seq<bool>, freed: seq<bool>, list: seq<int>, more: seq<int>)
    requires Repacking(bits, freed, list) && Claimed(bits, list) && Fresh(bits, more) && more != []
    ensures |FreeSet(freed)| > |list|
  {
    var all := list + [more[0]];
    assert more[0] in FreeSet(bits);
    assert Fresh(freed, all);
    LeftOver(freed, all);
  }

  lemma MovedIs(disk: seq<byte>, disk': seq<byte>, bs: nat, bits: seq<bool>, freed: seq<bool>, bits': seq<bool>, d: Dir, e: Entry, runs: seq<Run>)
    requires Repacking(bits, freed, d.list) && NewRuns(Marked(bits, d.list, false), |d.list| + 1) == Some(runs)
    requires Boot(bits') == Boot(Marked(freed, Clusters(runs), true))
    requires BlocksAt(disk', bs, Clusters(runs), d.blocks + [[e]]) && OthersKept(disk, disk', bs, Clusters(runs))
    ensures MovedAway(disk, disk', bs, bits, bits', d, e) && MovedTo(bits, d) == Clusters(runs)
  {
    hide NewRuns, Clusters, BlocksAt, OthersKept;
    assert Boot(Marked(freed, Clusters(runs), true)) == Boot(Marked(Marked(bits, d.list, false), Clusters(runs), true));
  }

  /** Clusters given back were on the device. */
  lemma RepackHeld(disk: seq<byte>, bs: nat, bits: seq<bool>, freed: seq<bool>, list: seq<int>)
    requires Repacking(bits, freed, list) && FreeHeld(disk, bs, bits) && AllHeld(disk, bs, list)
    ensures FreeHeld(disk, bs, freed)
  {
    forall k | k in FreeSet(freed) ensures Held(disk, bs, k) {
      assert k in list || k in FreeSet(bits);
    }
  }

  lemma TotalBlocks(n: nat, bs: nat)
    requires bs > 0
    ensures Times(n, bs) / bs == n
  {
    TimesIsProduct(n, bs);
    DivMod(n, 0, bs);
  }

  /** The $INDEX_ALLOCATION attribute for a runlist. */
  method NewAlloc(runs: seq<Run>, totalBytes: nat) returns (a: Attr)
    requires Positive(runs) && AllStorable(runs)
    ensures a.IndexAlloc? && Names(a.runlist, Clusters(runs)) && a.totalBytes == totalBytes
    ensures a.size == Round8(72 + |Encode(runs, 0)|) == 72 + |a.runlist|
  {
    var rl := EncodeRunlist(runs);
    var filler := AnyBytes(Round8(72 + |rl|) - 72 - |rl|);
    EncodedNames(runs, filler);
    a := NamedAlloc(rl, filler, totalBytes);
  }

  /** What the walk reports of one cluster: nothing beyond the device, and nothing of a block without the signature. */
  ghost function BlockNames(disk: seq<byte>, bs: nat, lcn: int): seq<DirEntry>
    requires bs >= 0x18
  {
    if !Held(disk, bs, lcn) || Cluster(disk, bs, lcn)[..4] != INDX then [] else NamesOfHeader(Fixed(Cluster(disk, bs, lcn))[0x18..])
  }

  /** What it reports of a list of clusters, in their order. */
  ghost function Reported(disk: seq<byte>, bs: nat, list: seq<int>): seq<DirEntry>
    requires bs >= 0x18
  {
    if list == [] then [] else Reported(disk, bs, list[..|list| - 1]) + BlockNames(disk, bs, list[|list| - 1])
  }

  /** How many of `n` blocks start below the attribute's size. */
  ghost function BlocksBelow(n: nat, bs: nat, totalBytes: int): (k: nat)
    ensures k <= n
  {
    if n == 0 then 0 else if Times(n - 1, bs) < totalBytes then n else BlocksBelow(n - 1, bs, totalBytes)
  }

  /** The directory reader's walk over the index blocks of any device. */
  method WalkIndexAlloc(disk: seq<byte>, bs: nat, runs: seq<Run>, totalBytes: int, seen: seq<DirEntry>) returns (out: seq<DirEntry>)
    requires bs >= 0x18
    ensures out == seen + Reported(disk, bs, Clusters(runs)[..BlocksBelow(|Clusters(runs)|, bs, totalBytes)])
  {
    out := seen;
    var blockOff := 0;
    ghost var list := Clusters(runs);
    ghost var k, m := 0, 0;
    hide *;
    for i := 0 to |runs|
      invariant k == |Clusters(runs[..i])| && blockOff == Times(m, bs)
      invariant Walked(disk, bs, list, totalBytes, seen, out, k, m)
    {
      NextRun(runs, i);
      out, blockOff, m := WalkRun(disk, bs, runs[i], totalBytes, seen, out, blockOff, list, k, m);
      k := |Clusters(runs[..i + 1])|;
    }
    assert runs[..|runs|] == runs;
    WalkEnd(disk, bs, list, totalBytes, seen, out, m);
  }

  /** The clusters of one run. */
  method WalkRun(disk: seq<byte>, bs: nat, r: Run, totalBytes: int, ghost seen: seq<DirEntry>, before: seq<DirEntry>, from: nat, ghost list: seq<int>,
                 ghost k: nat, ghost m: nat)
    returns (out: seq<DirEntry>, blockOff: nat, ghost n: nat)
    requires bs >= 0x18 && from == Times(m, bs) && Walked(disk, bs, list, totalBytes, seen, before, k, m)
    requires RunHere(list, k, r)
    ensures blockOff == Times(n, bs) && Walked(disk, bs, list, totalBytes, seen, out, if r.length >= 0 then k + r.length else k, n)
  {
    hide *;
    out, blockOff, n := before, from, m;
    var c := 0;
    while c < r.length
      invariant 0 <= c && (c <= r.length || c == 0) && blockOff == Times(n, bs)
      invariant Walked(disk, bs, list, totalBytes, seen, out, k + c, n)
    {
      RunCluster(list, k, r, c);
      if blockOff >= totalBytes {
        WalkOver(disk, bs, list, totalBytes, seen, out, k + c, n, k + r.length);
        return;
      }
      WalkStep(disk, bs, list, totalBytes, seen, out, k + c, n);
      var es := ReadBlock(disk, bs, r.lcn + c);
      out := out + es;
      TimesStep(n, bs);
      blockOff, n := blockOff + bs, n + 1;
      c := c + 1;
    }
  }

  /** The clusters of a run stand at place k of the list. */
  ghost predicate RunHere(list: seq<int>, k: nat, r: Run) {
    r.length >= 0 ==> k + r.length <= |list| && list[k..k + r.length] == Extent(r)
  }

  lemma RunCluster(list: seq<int>, k: nat, r: Run, c: nat)
    requires RunHere(list, k, r) && c < r.length
    ensures k + r.length <= |list| && list[k + c] == r.lcn + c
  {
    assert list[k..k + r.length][c] == list[k + c];
  }

  /** Of the first `k` clusters, `m` were read; if not all of them were, the size is reached. */
  ghost predicate Walked(disk: seq<byte>, bs: nat, list: seq<int>, totalBytes: int, seen: seq<DirEntry>, out: seq<DirEntry>, k: nat, m: nat) {
    && bs >= 0x18 && m <= k <= |list| && out == seen + Reported(disk, bs, list[..m])
    && (m < k ==> Times(m, bs) >= totalBytes) && (m > 0 ==> Times(m - 1, bs) < totalBytes)
  }

  lemma WalkStart(disk: seq<byte>, bs: nat, runs: seq<Run>, totalBytes: int, seen: seq<DirEntry>)
    requires bs >= 0x18
    ensures |Clusters(runs[..0])| == 0 == Times(0, bs) && Walked(disk, bs, Clusters(runs), totalBytes, seen, seen, 0, 0)
  {
    assert runs[..0] == [] && Clusters(runs)[..0] == [] && seen + [] == seen;
  }

  lemma NextRun(runs: seq<Run>, i: nat)
    requires i < |runs|
    ensures RunHere(Clusters(runs), |Clusters(runs[..i])|, runs[i])
    ensures |Clusters(runs[..i + 1])| == |Clusters(runs[..i])| + if runs[i].length >= 0 then runs[i].length else 0
  {
    assert runs == runs[..i + 1] + runs[i + 1..] && runs[..i + 1] == runs[..i] + [runs[i]];
    ClustersAppend(runs[..i + 1], runs[i + 1..]);
    ClustersAppend(runs[..i], [runs[i]]);
    OneRun(runs[i]);
  }

  lemma WalkOver(disk: seq<byte>, bs: nat, list: seq<int>, totalBytes: int, seen: seq<DirEntry>, out: seq<DirEntry>, k: nat, m: nat, k': nat)
    requires Walked(disk, bs, list, totalBytes, seen, out, k, m) && Times(m, bs) >= totalBytes && k <= k' <= |list|
    ensures Walked(disk, bs, list, totalBytes, seen, out, k', m)
  {
  }

  lemma WalkStep(disk: seq<byte>, bs: nat, list: seq<int>, totalBytes: int, seen: seq<DirEntry>, out: seq<DirEntry>, k: nat, m: nat)
    requires Walked(disk, bs, list, totalBytes, seen, out, k, m) && Times(m, bs) < totalBytes && k < |list|
    ensures m == k && Walked(disk, bs, list, totalBytes, seen, out + BlockNames(disk, bs, list[k]), k + 1, k + 1)
  {
    hide BlockNames, Times;
    assert list[..m + 1][..m] == list[..m];
    assert out + BlockNames(disk, bs, list[k]) == seen + (Reported(disk, bs, list[..m]) + BlockNames(disk, bs, list[k]));
  }

  lemma {:induction false} WalkEnd(disk: seq<byte>, bs: nat, list: seq<int>, totalBytes: int, seen: seq<DirEntry>, out: seq<DirEntry>, m: nat)
    requires Walked(disk, bs, list, totalBytes, seen, out, |list|, m)
    ensures out == seen + Reported(disk, bs, list[..BlocksBelow(|list|, bs, totalBytes)])
  {
    BelowIs(|list|, m, bs, totalBytes);
  }

  lemma {:induction false} BelowIs(n: nat, m: nat, bs: nat, totalBytes: int)
    requires m <= n && (m < n ==> Times(m, bs) >= totalBytes) && (m > 0 ==> Times(m - 1, bs) < totalBytes)
    ensures BlocksBelow(n, bs, totalBytes) == m
  {
    if m < n {
      TimesMonotone(m, n - 1, bs);
      BelowIs(n - 1, m, bs, totalBytes);
    }
  }

  /** A directory's own blocks report their visible entries. */
  lemma BlocksReport(disk: seq<byte>, bs: nat, list: seq<int>, blocks: seq<seq<Entry>>)
    requires bs >= 0x18 && BlocksAt(disk, bs, list, blocks)
    ensures BlocksBelow(|list|, bs, Times(|blocks|, bs)) == |list| && Reported(disk, bs, list[..|list|]) == Visible(Concat(blocks))
  {
    hide *;
    BlockTotal(disk, bs, list, blocks);
    BlocksNamed(disk, bs, list, blocks, |list|);
    assert blocks[..|list|] == blocks;
  }

  lemma BlockTotal(disk: seq<byte>, bs: nat, list: seq<int>, blocks: seq<seq<Entry>>)
    requires bs >= 1 && BlocksAt(disk, bs, list, blocks)
    ensures |list| == |blocks| && BlocksBelow(|list|, bs, Times(|blocks|, bs)) == |list|
  {
    if |list| > 0 { TimesStep(|list| - 1, bs); }
    BelowIs(|list|, |list|, bs, Times(|list|, bs));
  }

  lemma {:induction false} BlocksNamed(disk: seq<byte>, bs: nat, list: seq<int>, blocks: seq<seq<Entry>>, k: nat)
    requires bs >= 0x18 && BlocksAt(disk, bs, list, blocks) && k <= |list| == |blocks|
    ensures Reported(disk, bs, list[..k]) == Visible(Concat(blocks[..k]))
  {
    hide BlocksAt, Visible, DiskBlock, Held, Cluster, BlockNames;
    if k == 0 {
      NoNames();
      assert list[..0] == [] && blocks[..0] == [];
    } else {
      BlocksNamed(disk, bs, list, blocks, k - 1);
      BlockHere(disk, bs, list, blocks, k - 1);
      BlockNamed(disk, bs, list[k - 1], blocks[k - 1]);
      ConcatNext(blocks, k - 1);
      VisibleAppend(Concat(blocks[..k - 1]), blocks[k - 1]);
      assert list[..k][..k - 1] == list[..k - 1];
    }
  }

  lemma NoNames()
    ensures Visible([]) == []
  {
  }

  lemma BlockNamed(disk: seq<byte>, bs: nat, lcn: int, es: seq<Entry>)
    requires bs >= 0x18 && Held(disk, bs, lcn) && DiskBlock(Cluster(disk, bs, lcn), es, bs)
    ensures BlockNames(disk, bs, lcn) == Visible(es)
  {
    hide NamesOfHeader, Visible, Header, Cluster;
    var raw := Cluster(disk, bs, lcn);
    FixedIs(raw);
    NamesAre(Fixed(raw)[0x18..], es);
  }

  lemma BlockHere(disk: seq<byte>, bs: nat, list: seq<int>, blocks: seq<seq<Entry>>, k: nat)
    requires BlocksAt(disk, bs, list, blocks) && k < |list|
    ensures |blocks| == |list| && Held(disk, bs, list[k]) && DiskBlock(Cluster(disk, bs, list[k]), blocks[k], bs)
  {
  }

  lemma ConcatNext<T>(blocks: seq<seq<T>>, k: nat)
    requires k < |blocks|
    ensures Concat(blocks[..k + 1]) == Concat(blocks[..k]) + blocks[k]
  {
    assert blocks[..k + 1] == blocks[..k] + [blocks[k]];
    ConcatAppend(blocks[..k], [blocks[k]]);
    ConcatOne(blocks[k]);
  }

  /** What is reported of one block of the device; a short read and a foreign block are skipped. */
  method ReadBlock(disk: seq<byte>, bs: nat, lcn: int) returns (out: seq<DirEntry>)
    requires bs >= 0x18
    ensures out == BlockNames(disk, bs, lcn)
  {
    hide Fixed, NamesOfHeader;
    out := [];
    var off := if lcn >= 0 then Times(lcn, bs) else -1;
    if 0 <= off && off + bs <= |disk| {
      var raw := disk[off..off + bs];
      if raw[..4] == INDX {
        var buf := new byte[bs](i requires 0 <= i < |raw| => raw[i]);
        assert buf[..] == raw;
        ApplyUsa(buf);
        assert buf[0x18..] == buf[..][0x18..];
        out := CollectIndexEntries(buf[0x18..]);
      }
    }
  }

  class IndexVolume {
    const alloc: Allocator
    const bs: nat
    const recSize: nat
    var disk: seq<byte>
    var records: map<nat, Record>

    constructor (alloc: Allocator, bs: nat, recSize: nat, disk: seq<byte>, records: map<nat, Record>)
      ensures this.alloc == alloc && this.bs == bs && this.recSize == recSize && this.disk == disk && this.records == records
    {
      this.alloc, this.bs, this.recSize, this.disk, this.records := alloc, bs, recSize, disk, records;
    }

    /** Index block and cluster are the same size, and every free cluster lies on the device. */
    ghost predicate Valid()
      reads `disk, alloc.bitmap
    {
      SizeOk(bs) && recSize < 0x8000_0000 && |alloc.View()| < TWO63 && FreeHeld(disk, bs, alloc.View())
    }

    lemma ValidFacts()
      ensures Valid() <==> SizeOk(bs) && recSize < 0x8000_0000 && |alloc.View()| < TWO63 && FreeHeld(disk, bs, alloc.View())
    {
    }

    /** Directory n is stored as `d`. */
    ghost predicate Holds(n: nat, d: Dir)
      reads `disk, `records, alloc.bitmap
    {
      n in records && DirAt(records[n], disk, bs, alloc.View(), d) && EntriesFit(d.root, bs)
    }

    /** Stores a record, unless it has outgrown its slot. */
    method PutRecord(n: nat, rec: Record) returns (ok: bool)
      modifies `records
      ensures ok <==> rec.len <= recSize
      ensures records == if ok then old(records)[n := rec] else old(records)
    {
      if rec.len > recSize {
        return false;
      }
      records := records[n := rec];
      return true;
    }

    /** What is reported of a directory: of its root, then of its index blocks. */
    method ReadDirEntries(n: nat, ghost d: Dir) returns (r: Option<seq<DirEntry>>)
      requires Valid() && Holds(n, d)
      ensures r == Some(Visible(Listing(d)))
    {
      var rec := records[n];
      var root := Get(rec, RootKind);
      NamesAre(root.value.hdr, d.root);
      VisibleAppend(d.root, Concat(d.blocks));
      hide DiskBlock, Header, NamesOfHeader, Visible, Simple, Claimed, Get, FreeHeld, Le32, Clusters, Decode, BlocksAt, EntriesFit, Concat;
      var out := CollectIndexEntries(root.value.hdr);
      var ia := Get(rec, AllocKind);
      if ia.Some? {
        var runs := DecodeRunlist(ia.value.runlist);
        out := WalkIndexAlloc(disk, bs, runs.value, ia.value.totalBytes, out);
        BlocksReport(disk, bs, d.list, d.blocks);
      } else {
        assert out + [] == out;
      }
      return Some(out);
    }

    /** Moves every entry of the root, and the new one, into index blocks. */
    method Spill(n: nat, e: Entry, ghost d: Dir) returns (ok: bool, ghost d': Dir)
      requires Valid() && Holds(n, d) && IsEntry(e) && |e| <= Usable(bs) && Get(records[n], AllocKind).None?
      modifies `disk, `records, alloc.bitmap
      ensures Valid() && Spared(old(disk), disk, bs, old(alloc.View()), alloc.View(), d.list)
      ensures ok ==> Holds(n, d') && Appended(records[n], old(disk), disk, bs, old(alloc.View()), alloc.View(), d, d', e)
      ensures records == if ok then old(records)[n := records[n]] else old(records)
      ensures !ok ==> Holds(n, d)
      ensures ok <==> SpillFits(old(records[n]), old(alloc.View()), d, e, bs, recSize)
    {
      hide *;
      d' := d;
      ghost var bits := alloc.View();
      ValidFacts();
      HoldsFacts(n, d);
      var rec := records[n];
      RootFacts(rec, disk, bs, bits, d);
      var root := Get(rec, RootKind).value;
      var existing := CollectRawIndexEntries(root.hdr);
      var blocks := PackEntries(existing + [e], Usable(bs));
      PackedBlocks(d.root, e, bs, blocks);
      SpillIff(rec, bits, d, e, bs, recSize, blocks);
      var runs := alloc.AllocContiguousClusters(|blocks|);
      if runs.None? {
        TakenSpares(disk, bs, bits, alloc.View(), d.list);
        TakenSpares(disk, bs, bits, alloc.View(), []);
        SparedDir(rec, disk, disk, bs, bits, alloc.View(), [], d);
        HoldsFacts(n, d);
        StillHeld(disk, disk, bs, bits, alloc.View());
        ValidFacts();
        return false, d';
      }
      FreshHeld(disk, bs, bits, Clusters(runs.value));
      ManyBlocks(bits, Clusters(runs.value));
      var chunks := BuildBlocks(blocks, bs);
      ghost var was := disk;
      disk := WriteBlocks(disk, bs, runs.value, chunks);
      StoredBlocks(was, disk, bs, Clusters(runs.value), chunks, blocks);
      FreshSpares(was, disk, bs, bits, alloc.View(), Clusters(runs.value), d.list);
      FreshSpares(was, disk, bs, bits, alloc.View(), Clusters(runs.value), []);
      SparedDir(rec, was, disk, bs, bits, alloc.View(), [], d);
      KeptLength(was, disk, bs, Clusters(runs.value));
      StillHeld(was, disk, bs, bits, alloc.View());
      ValidFacts();
      FreshStorable(bits, runs.value);
      var ia := NewAlloc(runs.value, Times(|blocks|, bs));
      var bm := NamedBitmap((|blocks| + 7) / 8);
      AttrKinds((|blocks| + 7) / 8, root.kind);
      var r' := Spilled(rec, NamedRoot(root.kind, EmptyHeader()), ia, bm);
      SpillAppends(rec, was, disk, bs, bits, alloc.View(), d, e, blocks, Clusters(runs.value), ia, bm);
      EmptyRootSize(rec, d.root, root);
      SpilledLengthIs(rec, NamedRoot(root.kind, EmptyHeader()), runs.value, |blocks|, ia, bm);
      d' := Dir([], blocks, Clusters(runs.value));
      NothingFits(bs);
      AppendedIsThere(r', was, disk, bs, bits, alloc.View(), d, d', e);
      ok := PutRecord(n, r');
      HoldsFacts(n, d');
      HoldsFacts(n, d);
    }

    /** Moves all blocks of a fragmented index to newly allocated clusters, its own being available again, and
        adds a block for the new entry. */
    method RepackIndexAlloc(runs: seq<Run>, numBlocks: nat, e: Entry, ghost blocks: seq<seq<Entry>>) returns (r: Option<seq<Run>>)
      requires Valid() && Positive(runs) && BlocksAt(disk, bs, Clusters(runs), blocks) && numBlocks == |blocks| < TWO63
      requires IsEntry(e) && |e| <= Usable(bs)
      modifies `disk, alloc.bitmap
      ensures Valid() && r == NewRuns(Marked(old(alloc.View()), Freeable(runs), false), numBlocks + 1)
      ensures r.None? ==> |FreeSet(Marked(old(alloc.View()), Freeable(runs), false))| <= numBlocks
      ensures r.Some? ==> Positive(r.value) && Fresh(Marked(old(alloc.View()), Freeable(runs), false), Clusters(r.value))
      ensures r.Some? ==> Boot(alloc.View()) == Boot(Marked(Marked(old(alloc.View()), Freeable(runs), false), Clusters(r.value), true))
      ensures r.Some? ==> BlocksAt(disk, bs, Clusters(r.value), blocks + [[e]]) && OthersKept(old(disk), disk, bs, Clusters(r.value))
    {
      hide *;
      ghost var bits := alloc.View();
      ValidFacts();
      BlockCount(disk, bs, Clusters(runs), blocks);
      var saved := ReadBlocks(disk, bs, runs, numBlocks);
      SavedBlocks(disk, bs, Clusters(runs), blocks, saved);
      alloc.FreeRuns(runs);
      FreedIs(bits, runs);
      RepackHeld(disk, bs, bits, alloc.View(), Clusters(runs));
      ghost var freed := alloc.View();
      r := alloc.AllocContiguousClusters(numBlocks + 1);
      if r.None? {
        ghost var rest := alloc.View();
        FewerFree(freed, rest);
        r := alloc.AllocClusters(numBlocks + 1);
        TakenTwice(freed, rest, alloc.View());
        StillHeld(disk, disk, bs, freed, alloc.View());
        ValidFacts();
        return;
      }
      FreshHeld(disk, bs, freed, Clusters(r.value));
      OneEntryFits(e, bs);
      var newBlock := BuildINDXBlock(numBlocks, e, bs, [e]);
      DiskBlockSize(newBlock, [e], bs);
      ghost var was := disk;
      disk := WriteBlocks(disk, bs, r.value, saved + [newBlock]);
      StoredBlocks(was, disk, bs, Clusters(r.value), saved + [newBlock], blocks + [[e]]);
      KeptLength(was, disk, bs, Clusters(r.value));
      AfterBoot(disk, bs, freed, Clusters(r.value), alloc.View());
      StillHeld(was, disk, bs, freed, alloc.View());
      ValidFacts();
    }

    /** Adds an entry to a directory that has index blocks: to the last block, to a new block, or after a repack. */
    method AppendEntryToIndexAlloc(n: nat, e: Entry, ghost d: Dir) returns (ok: bool, ghost d': Dir)
      requires Valid() && Holds(n, d) && IsEntry(e) && |e| <= Usable(bs) && Get(records[n], AllocKind).Some?
      modifies `disk, `records, alloc.bitmap
      ensures Valid() && Spared(old(disk), disk, bs, old(alloc.View()), alloc.View(), d.list)
      ensures ok ==> Holds(n, d') && Appended(records[n], old(disk), disk, bs, old(alloc.View()), alloc.View(), d, d', e)
      ensures records == if ok then old(records)[n := records[n]] else old(records)
      ensures !ok && !old(RepackDue(n, d, e)) ==> Holds(n, d)
      ensures ok <==> BlocksTake(old(records[n]), old(alloc.View()), d, e, bs, recSize)
      ensures old(RepackDue(n, d, e)) ==> (ok <==> old(RepackFits(n, d)))
      ensures !ok && old(RepackDue(n, d, e)) ==> MovedAway(old(disk), disk, bs, old(alloc.View()), alloc.View(), d, e)
      ensures !ok && old(RepackDue(n, d, e)) ==> (Holds(n, d) <==> StillReads(old(alloc.View()), d, e))
    {
      hide *;
      d' := d;
      ghost var bits, was := alloc.View(), disk;
      ValidFacts();
      HoldsFacts(n, d);
      var rec := records[n];
      AllocFacts(rec, disk, bs, bits, d);
      DueFacts(n, d, e);
      var ia := Get(rec, AllocKind).value;
      SizePositive(bs);
      var decoded := DecodeRunlist(ia.runlist);
      var runs := decoded.value;
      var numBlocks := ia.totalBytes / bs;
      TotalBlocks(|d.list|, bs);
      PositiveLengths(runs);
      var lastLcn := LcnOfVcn(runs, numBlocks - 1);
      var fits;
      fits, disk := AddToBlock(disk, bs, lastLcn, e, d.blocks[numBlocks - 1]);
      if fits {
        RoomNotDue(rec, bits, d, e, bs, recSize, numBlocks - 1);
        LastTakes(rec, bits, d, e, bs, recSize, numBlocks - 1);
        LastAppends(rec, was, disk, bs, bits, d, e);
        d' := d.(blocks := d.blocks[numBlocks - 1 := d.blocks[numBlocks - 1] + [e]]);
        AppendedIsThere(rec, was, disk, bs, bits, bits, d, d', e);
        StillHeld(was, disk, bs, bits, bits);
        ValidFacts();
        HoldsFacts(n, d');
        assert records == old(records)[n := records[n]];
        return true, d';
      }
      NoRoom(d, e, bs, numBlocks - 1);
      RunsAre(rec, runs);
      ok, d' := NewBlock(n, e, runs, numBlocks, d);
    }

    /** The last block is full. */
    method NewBlock(n: nat, e: Entry, runs: seq<Run>, numBlocks: nat, ghost d: Dir) returns (ok: bool, ghost d': Dir)
      requires Valid() && Holds(n, d) && IsEntry(e) && |e| <= Usable(bs)
      requires Positive(runs) && Clusters(runs) == d.list && numBlocks == |d.list|
      requires Get(records[n], AllocKind).Some? && !LastHasRoom(d, e, bs) && RunsOf(records[n]) == runs
      modifies `disk, `records, alloc.bitmap
      ensures Valid() && Spared(old(disk), disk, bs, old(alloc.View()), alloc.View(), d.list)
      ensures ok ==> Holds(n, d') && Appended(records[n], old(disk), disk, bs, old(alloc.View()), alloc.View(), d, d', e)
      ensures records == if ok then old(records)[n := records[n]] else old(records)
      ensures !ok && !old(RepackDue(n, d, e)) ==> Holds(n, d)
      ensures ok <==> BlocksTake(old(records[n]), old(alloc.View()), d, e, bs, recSize)
      ensures old(RepackDue(n, d, e)) ==> (ok <==> old(RepackFits(n, d)))
      ensures !ok && old(RepackDue(n, d, e)) ==> MovedAway(old(disk), disk, bs, old(alloc.View()), alloc.View(), d, e)
      ensures !ok && old(RepackDue(n, d, e)) ==> (Holds(n, d) <==> StillReads(old(alloc.View()), d, e))
    {
      hide *;
      d' := d;
      ghost var bits, was := alloc.View(), disk;
      ValidFacts();
      HoldsFacts(n, d);
      var rec := records[n];
      DirFacts(rec, disk, bs, bits, d);
      var newTotalBytes := Times(numBlocks + 1, bs);
      var bm := NamedBitmap(numBlocks / 8 + 1);
      AttrKinds(numBlocks / 8 + 1, []);
      DueFacts(n, d, e);
      DueIff(rec, bits, d, e, bs, recSize);
      FullLast(rec, bits, d, e, bs, recSize);
      var newRuns := alloc.AllocContiguousClusters(1);
      if newRuns.None? {
        TakenSpares(disk, bs, bits, alloc.View(), d.list);
        TakenSpares(disk, bs, bits, alloc.View(), []);
        SparedDir(rec, disk, disk, bs, bits, alloc.View(), [], d);
        HoldsFacts(n, d);
        StillHeld(disk, disk, bs, bits, alloc.View());
        ValidFacts();
        return false, d';
      }
      ghost var b1, c := alloc.View(), Clusters(newRuns.value);
      AfterBoot(disk, bs, bits, c, b1);
      ClaimedMore(bits, b1, d.list, c);
      PositiveLengths(runs);
      PositiveLengths(newRuns.value);
      var merged := MergeRuns(runs, newRuns.value);
      SameLength(bits, c, b1);
      ClaimedStorable(b1, merged);
      var ia := NewAlloc(merged, newTotalBytes);
      var candidate := Rebuild(rec, ia, bm);
      GrownLengthIs(rec, merged, numBlocks, ia, bm);
      if candidate.len > recSize {
        alloc.FreeRuns(newRuns.value);
        FreedHeld(disk, bs, bits, b1, newRuns.value);
        ValidFacts();
        ok, d' := RepackAndPut(n, e, runs, numBlocks, bits, newRuns.value, b1, d);
        return;
      }
      FreshHeld(disk, bs, bits, c);
      OneEntryFits(e, bs);
      ClaimedCount(bits, d.list);
      var newBlock := BuildINDXBlock(numBlocks, e, bs, [e]);
      DiskBlockSize(newBlock, [e], bs);
      disk := WriteBlocks(disk, bs, newRuns.value, [newBlock]);
      StoredBlocks(was, disk, bs, c, [newBlock], [[e]]);
      KeptLength(was, disk, bs, c);
      StillHeld(was, disk, bs, bits, b1);
      ValidFacts();
      GrowAppends(rec, was, disk, bs, bits, b1, d, e, c, ia, bm);
      d' := Dir(d.root, d.blocks + [[e]], d.list + c);
      AppendedIsThere(candidate, was, disk, bs, bits, b1, d, d', e);
      ok := PutRecord(n, candidate);
      HoldsFacts(n, d');
    }

    /** The record with one more block would outgrow its slot: repack, and store the shorter runlist if it fits now. */
    method RepackAndPut(n: nat, e: Entry, runs: seq<Run>, numBlocks: nat, ghost bits: seq<bool>, ghost taken: seq<Run>, ghost b1: seq<bool>, ghost d: Dir)
      returns (ok: bool, ghost d': Dir)
      requires Valid() && n in records && DirAt(records[n], disk, bs, bits, d) && EntriesFit(d.root, bs) && IsEntry(e) && |e| <= Usable(bs)
      requires Positive(runs) && Clusters(runs) == d.list && numBlocks == |d.list|
      requires Positive(taken) && Fresh(bits, Clusters(taken)) && Clusters(taken) != [] && Boot(b1) == Boot(Marked(bits, Clusters(taken), true))
      requires alloc.View() == Marked(b1, Freeable(taken), false)
      modifies `disk, `records, alloc.bitmap
      ensures Valid() && Spared(old(disk), disk, bs, bits, alloc.View(), d.list)
      ensures ok ==> Holds(n, d') && Appended(records[n], old(disk), disk, bs, bits, alloc.View(), d, d', e)
      ensures records == if ok then old(records)[n := records[n]] else old(records)
      ensures ok <==> CompactFits(old(records[n]), bits, d, recSize)
      ensures !ok ==> MovedAway(old(disk), disk, bs, bits, alloc.View(), d, e) && (Holds(n, d) <==> StillReads(bits, d, e))
    {
      hide *;
      d' := d;
      ghost var b2, was := alloc.View(), disk;
      ValidFacts();
      var rec := records[n];
      DirFacts(rec, disk, bs, bits, d);
      SameLength(bits, Clusters(taken), b1);
      ClaimedCount(bits, d.list);
      ghost var freed := Marked(b2, Freeable(runs), false);
      FreedIs(b2, runs);
      GivenBack(bits, b1, taken, freed, d.list);
      ReleasedRuns(bits, freed, d.list, numBlocks + 1);
      CompactIff(rec, bits, d, recSize);
      var moved := RepackIndexAlloc(runs, numBlocks, e, d.blocks);
      if moved.None? {
        EnoughReleased(bits, freed, d.list, Clusters(taken));
        assert false;
      }
      ghost var list := Clusters(moved.value);
      MovedIs(was, disk, bs, bits, freed, alloc.View(), d, e, moved.value);
      LeftBehind(rec, was, disk, bs, bits, alloc.View(), d, e);
      RepackClaims(was, disk, bs, bits, freed, alloc.View(), d.list, list);
      SameLength(freed, list, alloc.View());
      ClaimedStorable(alloc.View(), moved.value);
      BlockCount(disk, bs, list, d.blocks + [[e]]);
      var ia := NewAlloc(moved.value, Times(numBlocks + 1, bs));
      var bm := NamedBitmap(numBlocks / 8 + 1);
      AttrKinds(numBlocks / 8 + 1, []);
      var candidate := Rebuild(rec, ia, bm);
      GrownLengthIs(rec, moved.value, numBlocks, ia, bm);
      RepackAppends(rec, was, disk, bs, bits, freed, alloc.View(), d, e, list, ia, bm);
      d' := Dir(d.root, d.blocks + [[e]], list);
      AppendedIsThere(candidate, was, disk, bs, bits, alloc.View(), d, d', e);
      ok := PutRecord(n, candidate);
      HoldsFacts(n, d');
      HoldsFacts(n, d);
    }

    /** Adds an entry to a directory, in whichever form it is stored, exactly if the directory takes it (`Takes`). No cluster in
        use elsewhere changes. A failed call leaves the directory as it was, unless a repack was due; a repack fails exactly if the record does not
        fit with its new runlist either, and then the clusters are released while the record still names them. */
    method AddDirEntry(n: nat, e: Entry, ghost d: Dir) returns (ok: bool, ghost d': Dir)
      requires Valid() && IsEntry(e) && |e| <= Usable(bs) && (n in records ==> Holds(n, d))
      modifies `disk, `records, alloc.bitmap
      ensures Valid() && Spared(old(disk), disk, bs, old(alloc.View()), alloc.View(), d.list)
      ensures ok ==> n in old(records) && Holds(n, d') && Listing(d') == Listing(d) + [e]
      ensures ok ==> Visible(Listing(d')) == Visible(Listing(d)) + ParseAt(e, 0)
      ensures records == if ok then old(records)[n := records[n]] else old(records)
      ensures !ok && n in records && !old(RepackDue(n, d, e)) ==> Holds(n, d)
      ensures ok <==> n in old(records) && Takes(old(records[n]), old(alloc.View()), d, e, bs, recSize)
      ensures n in old(records) && old(RepackDue(n, d, e)) ==> (ok <==> old(RepackFits(n, d)))
      ensures !ok && n in records && old(RepackDue(n, d, e)) ==> MovedAway(old(disk), disk, bs, old(alloc.View()), alloc.View(), d, e)
      ensures !ok && n in records && old(RepackDue(n, d, e)) ==> (Holds(n, d) <==> StillReads(old(alloc.View()), d, e))
      ensures forall m, x :: m != n && old(Holds(m, x)) && Apart(x, d) ==> Holds(m, x) && (ok ==> Apart(x, d'))
    {
      hide Valid, DirAt, Appended, Spared, Apart, FreeSet, Listing, EntriesFit, IsEntry, Usable;
      ok, d' := InsertEntry(n, e, d);
      if ok {
        OneVisible(Listing(d), e);
        AppendedListing(records[n], old(disk), disk, bs, old(alloc.View()), alloc.View(), d, d', e);
      }
      ghost var now := if ok then d' else d;
      forall m, x | m != n && old(Holds(m, x)) && Apart(x, d) ensures Holds(m, x) && Apart(x, now) {
        OtherDir(records[m], old(disk), disk, bs, old(alloc.View()), alloc.View(), d, now, x);
      }
    }

    method InsertEntry(n: nat, e: Entry, ghost d: Dir) returns (ok: bool, ghost d': Dir)
      requires Valid() && IsEntry(e) && |e| <= Usable(bs) && (n in records ==> Holds(n, d))
      modifies `disk, `records, alloc.bitmap
      ensures Valid() && Spared(old(disk), disk, bs, old(alloc.View()), alloc.View(), d.list)
      ensures ok ==> Holds(n, d') && Appended(records[n], old(disk), disk, bs, old(alloc.View()), alloc.View(), d, d', e)
      ensures ok ==> n in old(records)
      ensures records == if ok then old(records)[n := records[n]] else old(records)
      ensures !ok && n in records && !old(RepackDue(n, d, e)) ==> Holds(n, d)
      ensures ok <==> n in old(records) && Takes(old(records[n]), old(alloc.View()), d, e, bs, recSize)
      ensures n in old(records) && old(RepackDue(n, d, e)) ==> (ok <==> old(RepackFits(n, d)))
      ensures !ok && n in records && old(RepackDue(n, d, e)) ==> MovedAway(old(disk), disk, bs, old(alloc.View()), alloc.View(), d, e)
      ensures !ok && n in records && old(RepackDue(n, d, e)) ==> (Holds(n, d) <==> StillReads(old(alloc.View()), d, e))
    {
      hide *;
      d' := d;
      ghost var bits := alloc.View();
      TakenSpares(disk, bs, bits, bits, d.list);
      if n !in records {
        return false, d';
      }
      var rec := records[n];
      HoldsFacts(n, d);
      TakesIs(rec, bits, d, e, bs, recSize);
      if Get(rec, AllocKind).Some? {
        ok, d' := AppendEntryToIndexAlloc(n, e, d);
        return;
      }
      DueFacts(n, d, e);
      NotDue(rec, bits, d, e, bs, recSize);
      RootFacts(rec, disk, bs, bits, d);
      var root := Get(rec, RootKind).value;
      InsertFacts(rec, root, d.root, e);
      var newHdr := InsertIndexEntry(root.hdr, e);
      if newHdr.None? {
        return false, d';
      }
      RootIff(rec, root, e, newHdr.value, recSize);
      var projectedUsed := End(rec) + 8 - root.size + Round8(40 + 16 + |newHdr.value|);
      if projectedUsed + 8 <= recSize {
        ValidFacts();
        ProjectedCovers(rec, root, newHdr.value);
        RewrittenLength(rec, root, root.kind, newHdr.value, e, recSize);
        InlineAppends(rec, disk, bs, bits, d, e);
        d' := d.(root := d.root + [e]);
        var r' := Replace(rec, NamedRoot(root.kind, newHdr.value));
        AppendedIsThere(r', disk, disk, bs, bits, bits, d, d', e);
        RootFits(d.root, e, bs);
        ok := PutRecord(n, r');
        HoldsFacts(n, d');
        return;
      }
      ok, d' := Spill(n, e, d);
    }

    /** The next entry will make the driver repack directory n. */
    ghost predicate RepackDue(n: nat, d: Dir, e: Entry)
      reads `records, alloc.bitmap
    {
      n in records && MustRepack(records[n], alloc.View(), d, e, bs, recSize)
    }

    ghost predicate RepackFits(n: nat, d: Dir)
      reads `records, alloc.bitmap
    {
      n in records && CompactFits(records[n], alloc.View(), d, recSize)
    }

    lemma DueFacts(n: nat, d: Dir, e: Entry)
      ensures RepackDue(n, d, e) <==> n in records && MustRepack(records[n], alloc.View(), d, e, bs, recSize)
      ensures RepackFits(n, d) <==> n in records && CompactFits(records[n], alloc.View(), d, recSize)
    {
    }

    lemma HoldsFacts(n: nat, d: Dir)
      ensures Holds(n, d) <==> n in records && DirAt(records[n], disk, bs, alloc.View(), d) && EntriesFit(d.root, bs)
    {
    }
  }

  lemma RootFacts(rec: Record, disk: seq<byte>, bs: nat, bits: seq<bool>, d: Dir)
    requires DirAt(rec, disk, bs, bits, d)
    ensures Get(rec, RootKind).Some? && Get(rec, RootKind).value.IndexRoot? && RawEntries(Get(rec, RootKind).value.hdr) == d.root
    ensures AllEntries(d.root) && RootAt(rec, d.root)
  {
    EntriesOfHeader(Get(rec, RootKind).value.hdr, d.root);
  }

  /** The packed blocks hold the root's entries and the new one, and fit. */
  lemma PackedBlocks(root: seq<Entry>, e: Entry, bs: nat, blocks: seq<seq<Entry>>)
    requires AllEntries(root) && IsEntry(e) && EntriesFit(root, bs) && |e| <= Usable(bs) && blocks == Pack(root + [e], [], Usable(bs))
    ensures blocks != [] && Concat(blocks) == root + [e]
    ensures forall i :: 0 <= i < |blocks| ==> AllEntries(blocks[i]) && |Concat(blocks[i])| <= Usable(bs)
  {
    hide IsEntry, Usable, Pack, Concat;
    var all := root + [e];
    PackKeepsOrder(all, [], Usable(bs));
    assert [] + all == all;
    assert Concat<byte>([]) == [] by { NoBytes(); }
    PackFits(all, [], Usable(bs));
    AllInConcat(blocks);
  }

  lemma NoBytes()
    ensures Concat<byte>([]) == []
  {
  }

  lemma {:induction false} AllInConcat(blocks: seq<seq<Entry>>)
    requires AllEntries(Concat(blocks))
    ensures forall i :: 0 <= i < |blocks| ==> AllEntries(blocks[i])
  {
    hide IsEntry;
    if blocks != [] {
      var c, t := Concat(blocks), Concat(blocks[1..]);
      assert forall i :: 0 <= i < |t| ==> t[i] == c[|blocks[0]| + i];
      assert forall i :: 0 <= i < |blocks[0]| ==> blocks[0][i] == c[i];
      AllInConcat(blocks[1..]);
      assert forall i :: 1 <= i < |blocks| ==> blocks[i] == blocks[1..][i - 1];
    }
  }

  lemma ManyBlocks(bits: seq<bool>, cs: seq<int>)
    requires Fresh(bits, cs) && |bits| < TWO63
    ensures |cs| < 0x1_0000_0000_0000_0000
  {
    LeftOver(bits, cs);
    FreeCard(bits);
  }

  lemma {:induction false} FreeCard(bits: seq<bool>)
    ensures |FreeSet(bits)| <= |bits|
  {
    if bits != [] {
      var k := |bits| - 1;
      FreeCard(bits[..k]);
      assert FreeSet(bits) == if k >= 1 && !bits[k] then FreeSet(bits[..k]) + {k} else FreeSet(bits[..k]);
    }
  }

  lemma AppendedIsThere(r: Record, disk: seq<byte>, disk': seq<byte>, bs: nat, bits: seq<bool>, bits': seq<bool>, d: Dir, d': Dir, e: Entry)
    requires Appended(r, disk, disk', bs, bits, bits', d, d', e)
    ensures DirAt(r, disk', bs, bits', d') && Spared(disk, disk', bs, bits, bits', d.list)
  {
  }

  lemma SavedBlocks(disk: seq<byte>, bs: nat, list: seq<int>, blocks: seq<seq<Entry>>, saved: seq<seq<byte>>)
    requires BlocksAt(disk, bs, list, blocks) && |saved| == |list| && AllHeld(disk, bs, list)
    requires forall j :: 0 <= j < |list| ==> saved[j] == Cluster(disk, bs, list[j])
    ensures forall j :: 0 <= j < |saved| ==> DiskBlock(saved[j], blocks[j], bs)
  {
    hide DiskBlock, Cluster, Held;
  }

  lemma TakenTwice(a: seq<bool>, b: seq<bool>, c: seq<bool>)
    requires OnlyTaken(a, b) && OnlyTaken(b, c)
    ensures OnlyTaken(a, c)
  {
  }

  lemma OneEntryFits(e: Entry, bs: nat)
    requires IsEntry(e) && |e| <= Usable(bs)
    ensures AllEntries([e]) && Concat([e]) == e && TWO63 < 0x1_0000_0000_0000_0000
  {
    ConcatOne(e);
  }

  lemma AfterBoot(disk: seq<byte>, bs: nat, bits: seq<bool>, cs: seq<int>, after: seq<bool>)
    requires Boot(after) == Boot(Marked(bits, cs, true))
    ensures OnlyTaken(bits, after)
  {
    assert |after| == |Boot(after)| == |bits|;
    forall k | k in FreeSet(after) ensures k in FreeSet(bits) {
      assert after[k] == Boot(after)[k] == Boot(Marked(bits, cs, true))[k];
    }
  }

  lemma DirFacts(rec: Record, disk: seq<byte>, bs: nat, bits: seq<bool>, d: Dir)
    requires DirAt(rec, disk, bs, bits, d)
    ensures BlocksAt(disk, bs, d.list, d.blocks) && Claimed(bits, d.list) && |d.blocks| == |d.list| && Simple(rec)
  {
  }

  lemma AllocFacts(rec: Record, disk: seq<byte>, bs: nat, bits: seq<bool>, d: Dir)
    requires DirAt(rec, disk, bs, bits, d) && Get(rec, AllocKind).Some?
    ensures d.list != [] && BlocksAt(disk, bs, d.list, d.blocks) && Get(rec, AllocKind).value.IndexAlloc?
    ensures var a := Get(rec, AllocKind).value; a.totalBytes == Times(|d.list|, bs)
    ensures var r := Decode(Get(rec, AllocKind).value.runlist, 0, 0); r.Ok? && Positive(r.value) && Clusters(r.value) == d.list
  {
  }

  lemma FewerFree(bits: seq<bool>, after: seq<bool>)
    requires OnlyTaken(bits, after)
    ensures |FreeSet(after)| <= |FreeSet(bits)|
  {
    assert FreeSet(bits) == FreeSet(after) + (FreeSet(bits) - FreeSet(after));
  }

  lemma OneVisible(es: seq<Entry>, e: Entry)
    requires IsEntry(e)
    ensures |e| >= 16 && Visible(es + [e]) == Visible(es) + ParseAt(e, 0)
  {
    VisibleAppend(es, [e]);
    assert [e][1..] == [] && Visible([e][1..]) == [] && ParseAt(e, 0) + [] == ParseAt(e, 0);
  }

  lemma SizePositive(bs: nat)
    requires SizeOk(bs)
    ensures bs > 0
  {
  }

  lemma SameLength(bits: seq<bool>, cs: seq<int>, after: seq<bool>)
    requires Boot(after) == Boot(Marked(bits, cs, true))
    ensures |after| == |bits|
  {
    assert |after| == |Boot(after)| == |bits|;
  }

  lemma ClaimedCount(bits: seq<bool>, list: seq<int>)
    requires Claimed(bits, list)
    ensures |list| <= |bits|
  {
    var clear := seq(|bits|, k requires 0 <= k < |bits| => false);
    assert Fresh(clear, list);
    LeftOver(clear, list);
    FreeCard(clear);
  }

  lemma InsertFacts(rec: Record, root: Attr, es: seq<Entry>, e: Entry)
    requires RootAt(rec, es) && Get(rec, RootKind) == Some(root) && IsEntry(e)
    ensures root.IndexRoot? && |root.kind| == 16 && |root.hdr| >= 12 && InsertIndexEntry(root.hdr, e).Some?
    ensures |InsertIndexEntry(root.hdr, e).value| == |root.hdr| + |e|
  {
    InsertAppends(root.hdr, es, e);
  }

  lemma ProjectedCovers(rec: Record, root: Attr, hdr: seq<byte>)
    requires Get(rec, RootKind) == Some(root)
    ensures |hdr| <= End(rec) - root.size + Round8(40 + 16 + |hdr|)
  {
    RemoveLength(rec, RootKind);
  }

  lemma InlineAppends(r: Record, disk: seq<byte>, bs: nat, bits: seq<bool>, d: Dir, e: Entry)
    requires DirAt(r, disk, bs, bits, d) && IsEntry(e) && Get(r, AllocKind).None? && |Get(r, RootKind).value.hdr| + |e| < 0x8000_0000
    ensures var a := Get(r, RootKind).value;
            var h := InsertIndexEntry(a.hdr, e);
            h.Some? && KindOf(NamedRoot(a.kind, h.value)).Some?
            && Appended(Replace(r, NamedRoot(a.kind, h.value)), disk, disk, bs, bits, bits, d, d.(root := d.root + [e]), e)
  {
    hide DirAt, Listing, InsertIndexEntry, Replace, Spared, FreeSet;
    InlineStep(r, disk, bs, bits, d, e);
    TakenSpares(disk, bs, bits, bits, d.list);
  }

  lemma RootFits(root: seq<Entry>, e: Entry, bs: nat)
    requires EntriesFit(root, bs) && |e| <= Usable(bs)
    ensures EntriesFit(root + [e], bs)
  {
  }

  ghost predicate Apart(a: Dir, b: Dir) {
    forall x :: x in a.list ==> x !in b.list
  }

  /** A directory apart from the changed one is as before, and still apart from it. */
  lemma OtherDir(r: Record, disk: seq<byte>, disk': seq<byte>, bs: nat, bits: seq<bool>, bits': seq<bool>, d: Dir, d': Dir, x: Dir)
    requires DirAt(r, disk, bs, bits, x) && Spared(disk, disk', bs, bits, bits', d.list) && Apart(x, d)
    requires forall k :: k in d'.list ==> k in d.list || k in FreeSet(bits)
    ensures DirAt(r, disk', bs, bits', x) && Apart(x, d')
  {
    SparedDir(r, disk, disk', bs, bits, bits', d.list, x);
    hide Spared, BlocksAt, RootAt, AllocAt, Simple;
    forall k | k in x.list ensures k !in d'.list {
      var i :| 0 <= i < |x.list| && x.list[i] == k;
      assert bits[k] && k !in FreeSet(bits);
    }
  }

  lemma AppendedListing(r: Record, disk: seq<byte>, disk': seq<byte>, bs: nat, bits: seq<bool>, bits': seq<bool>, d: Dir, d': Dir, e: Entry)
    requires Appended(r, disk, disk', bs, bits, bits', d, d', e)
    ensures Listing(d') == Listing(d) + [e] && forall k :: k in d'.list ==> k in d.list || k in FreeSet(bits)
  {
  }

  lemma KeptLength(disk: seq<byte>, disk': seq<byte>, bs: nat, list: seq<int>)
    requires OthersKept(disk, disk', bs, list)
    ensures |disk'| == |disk|
  {
  }

  lemma AttrKinds(n: nat, kind: seq<byte>)
    ensures NamedBitmap(n).IndexBitmap? && NamedRoot(kind, EmptyHeader()).IndexRoot?
  {
  }

  lemma NothingFits(bs: nat)
    ensures EntriesFit([], bs)
  {
  }

  ghost predicate EntriesFit(es: seq<Entry>, bs: nat) {
    forall i :: 0 <= i < |es| ==> |es[i]| <= Usable(bs)
  }

  lemma BlockCount(disk: seq<byte>, bs: nat, list: seq<int>, blocks: seq<seq<Entry>>)
    requires BlocksAt(disk, bs, list, blocks)
    ensures |list| == |blocks| && AllHeld(disk, bs, list)
  {
  }
}
