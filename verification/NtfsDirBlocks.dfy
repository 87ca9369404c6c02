/** Index blocks on the device: runlists walked, blocks built, read, grown and written. */
module NtfsDirBlocks {
  import opened Bytes
  import opened Chunks
  import opened NtfsRunlist
  import opened NtfsAllocator
  import opened NtfsStore
  import opened NtfsFixup
  import opened NtfsIndex
  import opened NtfsIndexBlock
  import opened NtfsDirectory

  /** Runs of any kind, sparse ones (LCN -1) and empty ones included. */
  predicate Lengths(runs: seq<Run>) {
    forall i :: 0 <= i < |runs| ==> runs[i].length >= 0
  }

  lemma PositiveLengths(runs: seq<Run>)
    requires Positive(runs)
    ensures Lengths(runs)
  {
  }

  lemma ClustersStep(runs: seq<Run>, i: nat)
    requires i < |runs|
    ensures Clusters(runs[..i + 1]) == Clusters(runs[..i]) + Extent(runs[i])
  {
    hide Clusters;
    assert runs[..i + 1] == runs[..i] + [runs[i]];
    ClustersAppend(runs[..i], [runs[i]]);
    OneRun(runs[i]);
  }

  /** The cluster that holds block `vcn` of a runlist, or -1; block k of a sparse run counts up from -1 as well. */
  method LcnOfVcn(runs: seq<Run>, vcn: int) returns (lcn: int)
    requires Lengths(runs)
    ensures lcn == if 0 <= vcn < |Clusters(runs)| then Clusters(runs)[vcn] else -1
  {
    var off := 0;
    assert runs[..0] == [] && Clusters([]) == [];
    hide Clusters;
    for i := 0 to |runs|
      invariant off == |Clusters(runs[..i])| && (vcn < 0 || off <= vcn)
    {
      var r := runs[i];
      ClustersStep(runs, i);
      if off <= vcn < off + r.length {
        ClusterPosition(runs, i, vcn - off);
        return r.lcn + (vcn - off);
      }
      off := off + r.length;
    }
    assert runs[..|runs|] == runs;
    return -1;
  }

  lemma MergeOne(runs: seq<Run>, r: Run)
    ensures Clusters(runs + [r]) == Clusters(runs) + Extent(r)
    ensures runs != [] && runs[|runs| - 1].length >= 0 && r.length >= 0 && runs[|runs| - 1].lcn + runs[|runs| - 1].length == r.lcn ==>
      Clusters(runs[|runs| - 1 := runs[|runs| - 1].(length := runs[|runs| - 1].length + r.length)]) == Clusters(runs) + Extent(r)
  {
    hide Clusters;
    ClustersAppend(runs, [r]);
    OneRun(r);
    if runs != [] && runs[|runs| - 1].length >= 0 && r.length >= 0 && runs[|runs| - 1].lcn + runs[|runs| - 1].length == r.lcn {
      var k := |runs| - 1;
      var last := runs[k];
      var longer := last.(length := last.length + r.length);
      assert runs == runs[..k] + [last] && runs[k := longer] == runs[..k] + [longer];
      ClustersAppend(runs[..k], [last]);
      ClustersAppend(runs[..k], [longer]);
      OneRun(last);
      OneRun(longer);
      assert Extent(longer) == Extent(last) + Extent(r);
    }
  }

  function Merge(existing: seq<Run>, added: seq<Run>): seq<Run> {
    if added == [] then existing else MergeRun(Merge(existing, added[..|added| - 1]), added[|added| - 1])
  }

  /** Merging concatenates the cluster lists. */
  lemma {:induction false} MergeClusters(existing: seq<Run>, added: seq<Run>)
    requires Lengths(existing) && Lengths(added)
    ensures Lengths(Merge(existing, added)) && Clusters(Merge(existing, added)) == Clusters(existing) + Clusters(added)
    ensures Positive(existing) && Positive(added) ==> Positive(Merge(existing, added))
  {
    hide Clusters, MergeRun, Positive, Lengths;
    if added == [] {
      NoClusters();
      assert Clusters(existing) + [] == Clusters(existing);
    } else {
      var k := |added| - 1;
      LengthsPrefix(added, k);
      MergeClusters(existing, added[..k]);
      ClustersStep(added, k);
      assert added[..k + 1] == added;
      MergeRunClusters(Merge(existing, added[..k]), added[k]);
    }
  }

  lemma LengthsPrefix(runs: seq<Run>, k: nat)
    requires Lengths(runs) && k < |runs|
    ensures Lengths(runs[..k]) && runs[k].length >= 0
    ensures Positive(runs) ==> Positive(runs[..k]) && runs[k].lcn >= 1 && runs[k].length >= 1
  {
  }

  lemma MergeRunClusters(r: seq<Run>, nr: Run)
    requires Lengths(r) && nr.length >= 0
    ensures Lengths(MergeRun(r, nr)) && Clusters(MergeRun(r, nr)) == Clusters(r) + Extent(nr)
    ensures Positive(r) && nr.lcn >= 1 && nr.length >= 1 ==> Positive(MergeRun(r, nr))
  {
    hide Clusters;
    MergeOne(r, nr);
  }

  lemma NoClusters()
    ensures Clusters([]) == []
  {
  }

  /** Appends runs, joining neighbours: the cluster list is the concatenation. */
  method MergeRuns(existing: seq<Run>, added: seq<Run>) returns (r: seq<Run>)
    requires Lengths(existing) && Lengths(added)
    ensures r == Merge(existing, added) && Clusters(r) == Clusters(existing) + Clusters(added)
    ensures Positive(existing) && Positive(added) ==> Positive(r)
  {
    MergeClusters(existing, added);
    r := existing;
    assert added[..0] == [];
    hide Clusters;
    for i := 0 to |added|
      invariant r == Merge(existing, added[..i])
    {
      var nr := added[i];
      assert added[..i + 1][..i] == added[..i];
      if |r| > 0 && r[|r| - 1].lcn + r[|r| - 1].length == nr.lcn {
        r := r[|r| - 1 := r[|r| - 1].(length := r[|r| - 1].length + nr.length)];
      } else {
        r := r + [nr];
      }
    }
    assert added[..|added|] == added;
  }

  /** Newly allocated clusters join those a directory holds already. */
  lemma ClaimedMore(bits: seq<bool>, after: seq<bool>, list: seq<int>, cs: seq<int>)
    requires Claimed(bits, list) && Fresh(bits, cs) && Boot(after) == Boot(Marked(bits, cs, true))
    ensures Claimed(after, list + cs) && Claimed(after, cs)
  {
    assert |after| == |Boot(after)| == |bits|;
    var all := list + cs;
    forall i | 0 <= i < |all| ensures 1 <= all[i] < |after| && after[all[i]] {
      var x := all[i];
      assert i >= |list| ==> x == cs[i - |list|] && x in cs;
      assert after[x] == Boot(after)[x] == Boot(Marked(bits, cs, true))[x] == Marked(bits, cs, true)[x];
    }
    forall i, j | 0 <= i < j < |all| ensures all[i] != all[j] {
      if i < |list| <= j { assert bits[all[i]] && cs[j - |list|] in FreeSet(bits); }
    }
    forall i | 0 <= i < |cs| ensures 1 <= cs[i] < |after| && after[cs[i]] {
      assert all[|list| + i] == cs[i];
    }
  }

  /** Writing fresh clusters disturbs nobody. */
  lemma FreshDisturbsNobody(disk: seq<byte>, disk': seq<byte>, bs: nat, bits: seq<bool>, cs: seq<int>, list: seq<int>)
    requires Fresh(bits, cs) && OthersKept(disk, disk', bs, cs)
    ensures Bystanders(disk, disk', bs, bits, list)
  {
    forall m | 0 <= m < |bits| && bits[m] ensures m !in cs {
      assert m in cs ==> m in FreeSet(bits);
    }
  }

  /** Blocks whose clusters are kept are kept. */
  lemma BlocksKept(disk: seq<byte>, disk': seq<byte>, bs: nat, bits: seq<bool>, list: seq<int>, blocks: seq<seq<Entry>>, cs: seq<int>)
    requires BlocksAt(disk, bs, list, blocks) && Claimed(bits, list) && Fresh(bits, cs) && OthersKept(disk, disk', bs, cs)
    ensures BlocksAt(disk', bs, list, blocks)
  {
    hide DiskBlock, Cluster;
    forall j | 0 <= j < |list| ensures Held(disk', bs, list[j]) && DiskBlock(Cluster(disk', bs, list[j]), blocks[j], bs) {
      assert list[j] in cs ==> list[j] in FreeSet(bits);
    }
  }

  /** Chunks stored on the clusters of a list make its blocks. */
  lemma StoredBlocks(disk: seq<byte>, disk': seq<byte>, bs: nat, list: seq<int>, chunks: seq<seq<byte>>, blocks: seq<seq<Entry>>)
    requires Stored(disk, disk', bs, list, |list|, chunks) && |blocks| == |chunks|
    requires forall j :: 0 <= j < |chunks| ==> DiskBlock(chunks[j], blocks[j], bs)
    ensures BlocksAt(disk', bs, list, blocks) && OthersKept(disk, disk', bs, list)
  {
    hide DiskBlock, Cluster;
  }

  lemma DiskBlockSize(raw: seq<byte>, es: seq<Entry>, bs: nat)
    requires DiskBlock(raw, es, bs)
    ensures |raw| == bs
  {
  }

  /** Builds one stamped block for each packed group. */
  method BuildBlocks(blocks: seq<seq<Entry>>, bs: nat) returns (chunks: seq<seq<byte>>)
    requires SizeOk(bs) && |blocks| < 0x1_0000_0000_0000_0000
    requires forall i :: 0 <= i < |blocks| ==> AllEntries(blocks[i]) && |Concat(blocks[i])| <= Usable(bs)
    ensures |chunks| == |blocks|
    ensures forall j :: 0 <= j < |chunks| ==> DiskBlock(chunks[j], blocks[j], bs) && |chunks[j]| == bs
  {
    hide DiskBlock, Concat, SizeOk, Usable, AllEntries;
    chunks := [];
    for i := 0 to |blocks|
      invariant |chunks| == i && forall j :: 0 <= j < i ==> DiskBlock(chunks[j], blocks[j], bs) && |chunks[j]| == bs
    {
      var b := BuildINDXBlock(i, Concat(blocks[i]), bs, blocks[i]);
      DiskBlockSize(b, blocks[i], bs);
      chunks := chunks + [b];
    }
  }

  /** Reads the first n blocks of a runlist. */
  method ReadBlocks(disk: seq<byte>, bs: nat, runs: seq<Run>, n: nat) returns (chunks: seq<seq<byte>>)
    requires Positive(runs) && n <= |Clusters(runs)| && AllHeld(disk, bs, Clusters(runs))
    ensures |chunks| == n && forall j :: 0 <= j < n ==> |chunks[j]| == bs && chunks[j] == Cluster(disk, bs, Clusters(runs)[j])
  {
    hide Clusters, Positive;
    chunks := [];
    for i := 0 to n
      invariant |chunks| == i
      invariant forall j :: 0 <= j < i ==> |chunks[j]| == bs && chunks[j] == Cluster(disk, bs, Clusters(runs)[j])
    {
      PositiveLengths(runs);
      var lcn := LcnOfVcn(runs, i);
      assert Held(disk, bs, lcn);
      chunks := chunks + [disk[Times(lcn, bs)..Times(lcn, bs) + bs]];
    }
  }

  /** Writes one chunk a cluster, cluster by cluster of the runlist. */
  method WriteBlocks(disk: seq<byte>, bs: nat, runs: seq<Run>, chunks: seq<seq<byte>>) returns (d: seq<byte>)
    requires Positive(runs) && AllHeld(disk, bs, Clusters(runs)) && Distinct(Clusters(runs)) && |chunks| == |Clusters(runs)|
    requires forall j :: 0 <= j < |chunks| ==> |chunks[j]| == bs
    ensures Stored(disk, d, bs, Clusters(runs), |chunks|, chunks)
  {
    d := disk;
    assert Stored(disk, d, bs, Clusters(runs), 0, chunks);
    hide *;
    for k := 0 to |chunks|
      invariant Stored(disk, d, bs, Clusters(runs), k, chunks)
    {
      var lcn := LcnOfVcn(runs, k);
      StoredStep(disk, d, bs, Clusters(runs), k, chunks);
      d := Splice(d, Times(lcn, bs), chunks[k]);
    }
  }

  /** Adds an entry to one block of the device, if there is room. */
  method AddToBlock(disk: seq<byte>, bs: nat, lcn: int, e: Entry, ghost es: seq<Entry>) returns (ok: bool, d: seq<byte>)
    requires Held(disk, bs, lcn) && DiskBlock(Cluster(disk, bs, lcn), es, bs) && IsEntry(e)
    ensures ok <==> |Concat(es)| + |e| <= Usable(bs)
    ensures ok ==> |d| == |disk| && Held(d, bs, lcn) && DiskBlock(Cluster(d, bs, lcn), es + [e], bs) && OthersKept(disk, d, bs, [lcn])
    ensures !ok ==> d == disk
  {
    hide *;
    HeldBounds(disk, bs, lcn);
    var off := Times(lcn, bs);
    var raw := disk[off..off + bs];
    ClusterIs(disk, bs, lcn);
    DiskBlockFacts(raw, es, bs);
    var buf := new byte[bs](i requires 0 <= i < |raw| => raw[i]);
    assert buf[..] == raw;
    ApplyUsa(buf);
    FixedIs(raw);
    ok := false;
    if buf[..4] == INDX {
      ok := AddEntryToINDXBlock(buf, e, bs, es);
    }
    d := disk;
    if ok {
      StampedIsDiskBlock(buf[..], es + [e], bs);
      RestampedIs(buf[..]);
      RoomForNumber(buf[..]);
      StampUsa(buf, bs / 512);
      d := Splice(disk, off, buf[..]);
      OneClusterWritten(disk, bs, lcn, buf[..]);
    }
  }

  lemma ClusterIs(disk: seq<byte>, cs: nat, k: int)
    requires Held(disk, cs, k)
    ensures k >= 0 && Times(k, cs) + cs <= |disk| && Cluster(disk, cs, k) == disk[Times(k, cs)..Times(k, cs) + cs]
  {
  }

  lemma DiskBlockFacts(raw: seq<byte>, es: seq<Entry>, bs: nat)
    requires DiskBlock(raw, es, bs)
    ensures |raw| == bs && UsaInside(raw) && Active(raw) && raw[..4] == INDX && bs / 512 == |raw| / 512
    ensures WellBlock(Applied(raw, Guarded(raw)), es, bs)
  {
  }

  lemma OneClusterWritten(disk: seq<byte>, cs: nat, k: int, chunk: seq<byte>)
    requires Held(disk, cs, k) && |chunk| == cs && Times(k, cs) + cs <= |disk|
    ensures var d := Splice(disk, Times(k, cs), chunk);
            |d| == |disk| && Held(d, cs, k) && Cluster(d, cs, k) == chunk && OthersKept(disk, d, cs, [k])
  {
    hide Cluster, Times;
    var d := Splice(disk, Times(k, cs), chunk);
    ClusterWritten(disk, cs, k, chunk, k);
    forall m | m !in [k] && Held(disk, cs, m) ensures Held(d, cs, m) && Cluster(d, cs, m) == Cluster(disk, cs, m) {
      ClusterWritten(disk, cs, k, chunk, m);
    }
  }
}
