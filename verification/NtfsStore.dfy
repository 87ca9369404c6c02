/** Allocating clusters for a file's data and writing it there. */
module NtfsStore {
  import opened Wrappers
  import opened Bytes
  import opened Chunks
  import opened NtfsRunlist
  import opened NtfsAllocator
  import opened NtfsRuns

  ghost predicate Held(disk: seq<byte>, cs: nat, k: int) {
    k >= 0 && Times(k, cs) + cs <= |disk|
  }

  ghost function Cluster(disk: seq<byte>, cs: nat, k: int): (d: seq<byte>)
    requires Held(disk, cs, k)
    ensures |d| == cs
  {
    disk[Times(k, cs)..Times(k, cs) + cs]
  }

  ghost predicate AllHeld(disk: seq<byte>, cs: nat, list: seq<int>) {
    forall i :: 0 <= i < |list| ==> Held(disk, cs, list[i])
  }

  ghost predicate Distinct(list: seq<int>) {
    forall i, j :: 0 <= i < j < |list| ==> list[i] != list[j]
  }

  /** The bytes of a list of clusters. */
  ghost function ListData(disk: seq<byte>, cs: nat, list: seq<int>): seq<byte>
    requires AllHeld(disk, cs, list)
  {
    if list == [] then [] else ListData(disk, cs, list[..|list| - 1]) + Cluster(disk, cs, list[|list| - 1])
  }

  lemma ListDataSnoc(disk: seq<byte>, cs: nat, list: seq<int>, x: int)
    requires AllHeld(disk, cs, list) && Held(disk, cs, x)
    ensures AllHeld(disk, cs, list + [x]) && ListData(disk, cs, list + [x]) == ListData(disk, cs, list) + Cluster(disk, cs, x)
  {
    assert (list + [x])[..|list|] == list;
  }

  lemma {:induction false} ListDataAppend(disk: seq<byte>, cs: nat, a: seq<int>, b: seq<int>)
    requires AllHeld(disk, cs, a) && AllHeld(disk, cs, b)
    ensures AllHeld(disk, cs, a + b) && ListData(disk, cs, a + b) == ListData(disk, cs, a) + ListData(disk, cs, b)
  {
    hide Cluster, Held;
    if b == [] {
      assert a + b == a;
    } else {
      var k := |b| - 1;
      ListDataAppend(disk, cs, a, b[..k]);
      ListDataSnoc(disk, cs, a + b[..k], b[k]);
      assert a + b == a + b[..k] + [b[k]];
    }
  }

  /** A run is the list of its clusters. */
  lemma {:induction false} RunIsClusters(disk: seq<byte>, cs: nat, lcn: nat, n: nat)
    requires OnDisk(disk, cs, Run(lcn, n))
    ensures AllHeld(disk, cs, Extent(Run(lcn, n)))
    ensures RunData(disk, cs, Run(lcn, n)) == ListData(disk, cs, Extent(Run(lcn, n)))
    decreases n
  {
    var list := Extent(Run(lcn, n));
    if n > 0 {
      TimesAdd(lcn, n - 1, cs);
      RunIsClusters(disk, cs, lcn, n - 1);
      assert list[..n - 1] == Extent(Run(lcn, n - 1));
      forall i | 0 <= i < n ensures Held(disk, cs, list[i]) {
        assert i < n - 1 ==> list[i] == list[..n - 1][i];
      }
    }
  }

  lemma {:induction false} RunsAreClusters(disk: seq<byte>, cs: nat, runs: seq<Run>)
    requires AllOnDisk(disk, cs, runs) && Positive(runs)
    ensures AllHeld(disk, cs, Clusters(runs)) && AllData(disk, cs, runs) == ListData(disk, cs, Clusters(runs))
  {
    if runs != [] {
      var k := |runs| - 1;
      RunsAreClusters(disk, cs, runs[..k]);
      assert runs == runs[..k] + [runs[k]] && runs[k] == Run(runs[k].lcn, runs[k].length);
      ClustersAppend(runs[..k], [runs[k]]);
      OneRun(runs[k]);
      RunIsClusters(disk, cs, runs[k].lcn, runs[k].length);
      ListDataAppend(disk, cs, Clusters(runs[..k]), Extent(runs[k]));
    }
  }

  /** Runs whose clusters are all on the device are on the device. */
  lemma HeldRuns(disk: seq<byte>, cs: nat, runs: seq<Run>)
    requires Positive(runs) && AllHeld(disk, cs, Clusters(runs))
    ensures AllOnDisk(disk, cs, runs)
  {
    forall i | 0 <= i < |runs| ensures OnDisk(disk, cs, runs[i]) {
      var r := runs[i];
      ClusterPosition(runs, i, r.length - 1);
      TimesAdd(r.lcn, r.length - 1, cs);
    }
  }

  /** Cluster c of run i has its place in the cluster list. */
  lemma ClusterPosition(runs: seq<Run>, i: nat, c: nat)
    requires i < |runs| && c < runs[i].length
    ensures |Clusters(runs[..i])| + c < |Clusters(runs)| && Clusters(runs)[|Clusters(runs[..i])| + c] == runs[i].lcn + c
    ensures |Clusters(runs[..i + 1])| == |Clusters(runs[..i])| + runs[i].length
  {
    assert runs == runs[..i] + ([runs[i]] + runs[i + 1..]) && runs[..i + 1] == runs[..i] + [runs[i]];
    ClustersAppend(runs[..i], [runs[i]] + runs[i + 1..]);
    ClustersAppend([runs[i]], runs[i + 1..]);
    ClustersAppend(runs[..i], [runs[i]]);
    OneRun(runs[i]);
  }

  /** The first `k` clusters of the list hold the first chunks; clusters off the list are as before. */
  ghost predicate Stored(disk: seq<byte>, disk': seq<byte>, cs: nat, list: seq<int>, k: nat, chunks: seq<seq<byte>>) {
    && |disk'| == |disk| && k <= |list| == |chunks| && AllHeld(disk, cs, list)
    && (forall j :: 0 <= j < |chunks| ==> |chunks[j]| == cs)
    && (forall j :: 0 <= j < k ==> Held(disk', cs, list[j]) && Cluster(disk', cs, list[j]) == chunks[j])
    && (forall m :: m !in list && Held(disk, cs, m) ==> Held(disk', cs, m) && Cluster(disk', cs, m) == Cluster(disk, cs, m))
  }

  /** `data` cut into n zero-padded clusters. */
  ghost function Pieces(data: seq<byte>, n: nat, cs: nat): (r: seq<seq<byte>>)
    ensures |r| == n && forall j :: 0 <= j < n ==> r[j] == Piece(data, j, cs)
  {
    seq(n, j requires 0 <= j < n => Piece(data, j, cs))
  }

  lemma ClusterWritten(disk: seq<byte>, cs: nat, k: int, chunk: seq<byte>, m: int)
    requires Held(disk, cs, k) && Held(disk, cs, m) && |chunk| == cs
    ensures Cluster(Splice(disk, Times(k, cs), chunk), cs, m) == if m == k then chunk else Cluster(disk, cs, m)
  {
    if m < k { TimesMonotone(m, k, cs); } else { TimesMonotone(k, m, cs); }
  }

  lemma StoredStep(disk: seq<byte>, disk': seq<byte>, cs: nat, list: seq<int>, k: nat, chunks: seq<seq<byte>>)
    requires Stored(disk, disk', cs, list, k, chunks) && k < |list| && Distinct(list)
    ensures Held(disk', cs, list[k]) && |chunks| == |list| && |chunks[k]| == cs
    ensures Stored(disk, Splice(disk', Times(list[k], cs), chunks[k]), cs, list, k + 1, chunks)
  {
    hide Cluster, Times;
    assert Held(disk, cs, list[k]) && Held(disk', cs, list[k]);
    var r := Splice(disk', Times(list[k], cs), chunks[k]);
    forall j | 0 <= j < k + 1 ensures Held(r, cs, list[j]) && Cluster(r, cs, list[j]) == chunks[j] {
      assert Held(disk, cs, list[j]);
      ClusterWritten(disk', cs, list[k], chunks[k], list[j]);
    }
    forall m | m !in list && Held(disk, cs, m) ensures Held(r, cs, m) && Cluster(r, cs, m) == Cluster(disk, cs, m) {
      ClusterWritten(disk', cs, list[k], chunks[k], m);
    }
  }

  lemma {:induction false} StoredData(disk: seq<byte>, disk': seq<byte>, cs: nat, list: seq<int>, k: nat, data: seq<byte>)
    requires Stored(disk, disk', cs, list, k, Pieces(data, |list|, cs)) && (k > 0 ==> Times(k - 1, cs) <= |data|)
    ensures AllHeld(disk', cs, list[..k]) && ListData(disk', cs, list[..k]) == PadTake(data, Times(k, cs))
    decreases k
  {
    hide *;
    if k == 0 {
      NoData(disk', cs, list, data);
    } else {
      StoredLast(disk, disk', cs, list, k, data);
      if k > 1 { TimesMonotone(k - 2, k - 1, cs); }
      StoredData(disk, disk', cs, list, k - 1, data);
      assert list[..k] == list[..k - 1] + [list[k - 1]];
      ListDataSnoc(disk', cs, list[..k - 1], list[k - 1]);
      LastPiece(data, k - 1, cs);
    }
  }

  lemma NoData(disk: seq<byte>, cs: nat, list: seq<int>, data: seq<byte>)
    ensures AllHeld(disk, cs, list[..0]) && ListData(disk, cs, list[..0]) == PadTake(data, Times(0, cs))
  {
  }

  lemma StoredLast(disk: seq<byte>, disk': seq<byte>, cs: nat, list: seq<int>, k: nat, data: seq<byte>)
    requires Stored(disk, disk', cs, list, k, Pieces(data, |list|, cs)) && k > 0
    ensures k <= |list| && Stored(disk, disk', cs, list, k - 1, Pieces(data, |list|, cs))
    ensures Held(disk', cs, list[k - 1]) && Cluster(disk', cs, list[k - 1]) == Piece(data, k - 1, cs)
  {
    hide Cluster, Held, AllHeld, Piece;
  }

  lemma LastPiece(data: seq<byte>, j: nat, cs: nat)
    requires Times(j, cs) <= |data|
    ensures PadTake(data, Times(j, cs)) + Piece(data, j, cs) == PadTake(data, Times(j + 1, cs))
  {
    PadTakeExtend(data, Times(j, cs), cs);
  }

  lemma StoredStart(disk: seq<byte>, cs: nat, runs: seq<Run>, data: seq<byte>)
    requires AllHeld(disk, cs, Clusters(runs)) && Positive(runs)
    ensures runs[..0] == [] && Clusters([]) == []
    ensures Stored(disk, disk, cs, Clusters(runs), 0, Pieces(data, |Clusters(runs)|, cs))
    ensures forall i :: 0 <= i < |runs| ==> runs[i].lcn >= 1 && runs[i].length >= 1
  {
  }

  /** Writes `data` over the clusters of `runs`, one zero-padded piece a cluster. */
  method WriteRuns(disk: seq<byte>, cs: nat, runs: seq<Run>, data: seq<byte>) returns (d: seq<byte>)
    requires Positive(runs) && AllHeld(disk, cs, Clusters(runs))
    requires Distinct(Clusters(runs))
    requires Clusters(runs) != [] ==> Times(|Clusters(runs)| - 1, cs) <= |data|
    ensures Stored(disk, d, cs, Clusters(runs), |Clusters(runs)|, Pieces(data, |Clusters(runs)|, cs))
  {
    hide *;
    d := disk;
    ghost var list := Clusters(runs);
    ghost var pieces := Pieces(data, |list|, cs);
    var written := 0;
    StoredStart(disk, cs, runs, data);
    for i := 0 to |runs|
      invariant written == |Clusters(runs[..i])| <= |list| && Stored(disk, d, cs, list, written, pieces)
    {
      var r := runs[i];
      ghost var base := written;
      for c := 0 to r.length
        invariant written == base + c && Stored(disk, d, cs, list, written, pieces)
      {
        ClusterPosition(runs, i, c);
        StoredStep(disk, d, cs, list, written, pieces);
        TimesMonotone(written, |list| - 1, cs);
        var off := Times(written, cs);
        var n := if off + cs > |data| then |data| - off else cs;
        PieceIsCopy(data, written, cs);
        HeldBounds(d, cs, r.lcn + c);
        d := Splice(d, Times(r.lcn + c, cs), Splice(Zeros(cs), 0, data[off..off + n]));
        written := written + 1;
      }
      ClusterPosition(runs, i, r.length - 1);
    }
    assert runs[..|runs|] == runs;
  }

  lemma HeldBounds(disk: seq<byte>, cs: nat, k: int)
    requires Held(disk, cs, k)
    ensures k >= 0 && Times(k, cs) + cs <= |disk|
  {
  }

  class Volume {
    const alloc: Allocator
    const clusterSize: nat
    var disk: seq<byte>

    constructor (alloc: Allocator, clusterSize: nat, disk: seq<byte>)
      ensures this.alloc == alloc && this.clusterSize == clusterSize && this.disk == disk
    {
      this.alloc, this.clusterSize, this.disk := alloc, clusterSize, disk;
    }

    /** Every cluster that may be handed out lies on the device. */
    ghost predicate Valid()
      reads this, alloc.bitmap
    {
      && clusterSize > 0 && |alloc.View()| < TWO63
      && FreeHeld(disk, clusterSize, alloc.View())
    }

    /** Allocates clusters for `data` and writes it: read through its runlist it is the data again, and
        no cluster but the allocated ones changes. */
    method AllocAndWrite(data: seq<byte>) returns (r: Option<seq<Run>>)
      requires Valid()
      modifies `disk, alloc.bitmap
      ensures Valid()
      ensures r.Some? <==> Ceil(|data|, clusterSize) <= |FreeSet(old(alloc.View()))|
      ensures r.Some? ==> Positive(r.value) && Fresh(old(alloc.View()), Clusters(r.value))
      ensures r.Some? ==> Boot(alloc.View()) == Boot(Marked(old(alloc.View()), Clusters(r.value), true))
      ensures r.Some? ==> Placed(old(disk), disk, clusterSize, r.value, data)
      ensures r.None? ==> disk == old(disk)
    {
      hide *;
      ghost var bits := alloc.View();
      ValidFacts();
      var n := Ceil(|data|, clusterSize);
      r := alloc.AllocContiguousClusters(n);
      if r.Some? {
        FreshHeld(disk, clusterSize, bits, Clusters(r.value));
        CeilBounds(|data|, clusterSize);
        var d := WriteRuns(disk, clusterSize, r.value, data);
        StoredIsPlaced(disk, d, clusterSize, r.value, data);
        StillHeld(disk, d, clusterSize, bits, alloc.View());
        disk := d;
      } else {
        StillHeld(disk, disk, clusterSize, bits, alloc.View());
      }
      ValidFacts();
    }

    lemma ValidFacts()
      ensures Valid() <==> clusterSize > 0 && |alloc.View()| < TWO63 && FreeHeld(disk, clusterSize, alloc.View())
    {
    }
  }

  ghost predicate FreeHeld(disk: seq<byte>, cs: nat, bits: seq<bool>) {
    forall k :: k in FreeSet(bits) ==> Held(disk, cs, k)
  }

  lemma FreshHeld(disk: seq<byte>, cs: nat, bits: seq<bool>, list: seq<int>)
    requires FreeHeld(disk, cs, bits) && Fresh(bits, list)
    ensures AllHeld(disk, cs, list) && Distinct(list)
  {
  }

  lemma StillHeld(disk: seq<byte>, disk': seq<byte>, cs: nat, bits: seq<bool>, after: seq<bool>)
    requires FreeHeld(disk, cs, bits) && |disk'| == |disk| && OnlyTaken(bits, after)
    ensures FreeHeld(disk', cs, after) && |after| == |bits|
  {
  }

  ghost predicate OthersKept(disk: seq<byte>, disk': seq<byte>, cs: nat, list: seq<int>) {
    && |disk'| == |disk|
    && forall m :: m !in list && Held(disk, cs, m) ==> Held(disk', cs, m) && Cluster(disk', cs, m) == Cluster(disk, cs, m)
  }

  /** `runs` holds `data` and nothing else was written: the clusters described by the runlist are the data
      padded to whole clusters, and every other cluster is as before. */
  ghost predicate Placed(disk: seq<byte>, disk': seq<byte>, cs: nat, runs: seq<Run>, data: seq<byte>) {
    && AllOnDisk(disk', cs, runs) && OthersKept(disk, disk', cs, Clusters(runs))
    && AllData(disk', cs, runs) == PadTake(data, Times(|Clusters(runs)|, cs))
    && |data| <= Times(|Clusters(runs)|, cs)
  }

  lemma StoredIsPlaced(disk: seq<byte>, d: seq<byte>, cs: nat, runs: seq<Run>, data: seq<byte>)
    requires Positive(runs) && Stored(disk, d, cs, Clusters(runs), |Clusters(runs)|, Pieces(data, |Clusters(runs)|, cs))
    requires |data| <= Times(|Clusters(runs)|, cs) && (Clusters(runs) != [] ==> Times(|Clusters(runs)| - 1, cs) <= |data|)
    ensures |d| == |disk| && Placed(disk, d, cs, runs, data)
  {
    var list := Clusters(runs);
    assert list[..|list|] == list;
    StoredData(disk, d, cs, list, |list|, data);
    HeldRuns(d, cs, runs);
    RunsAreClusters(d, cs, runs);
  }

  /** From the data through the allocator, the stored runlist bytes and back: what is read is what was written. */
  lemma PlacedReadsBack(disk: seq<byte>, disk': seq<byte>, cs: nat, runs: seq<Run>, data: seq<byte>, padding: seq<byte>)
    requires Placed(disk, disk', cs, runs, data) && AllStorable(runs)
    ensures var r := Decode(Encode(runs, 0) + padding, 0, 0);
            r.Ok? && AllOnDisk(disk', cs, r.value) && PadTake(AllData(disk', cs, r.value), |data|) == data
  {
    DecodeEncode(runs, padding);
    PadTakeTwice(data, Times(|Clusters(runs)|, cs), |data|);
    assert data[..|data|] == data;
  }

  /** Fresh clusters are numbers a runlist can store. */
  lemma FreshStorable(bits: seq<bool>, runs: seq<Run>)
    requires |bits| < TWO63 && Positive(runs) && Fresh(bits, Clusters(runs))
    ensures AllStorable(runs)
  {
    forall i | 0 <= i < |runs| ensures Storable(runs[i]) {
      ClusterPosition(runs, i, 0);
      ClusterPosition(runs, i, runs[i].length - 1);
    }
  }

  /** A positioned read gives the matching slice of the whole read. */
  lemma PositionedIsSlice(all: seq<byte>, size: nat, at: nat, want: nat, got: seq<byte>)
    requires Slice(all, at, want, got) && at + want <= size && size <= |all|
    ensures got == PadTake(all, size)[at..at + want]
  {
  }
}
