/** Sector images of a FAT partition: cluster contents, file contents and what a flush owes the device. */
module FatImage {
  import opened Bytes
  import opened Chunks
  import opened FatTable
  import opened FatChains
  import opened FatGeometry
  import opened FatEntry

  /** The device with the staged sectors laid over it. */
  ghost function Overlay(disk: seq<seq<byte>>, dirty: map<nat, seq<byte>>): (r: seq<seq<byte>>)
    ensures |r| == |disk|
    ensures forall s :: 0 <= s < |disk| ==> r[s] == if s in dirty then dirty[s] else disk[s]
  {
    seq(|disk|, s requires 0 <= s < |disk| => if s in dirty then dirty[s] else disk[s])
  }

  /** The bytes of cluster `n` in a sector image. */
  ghost function ClusterBytes(g: Geometry, img: seq<seq<byte>>, n: nat): seq<byte>
    requires n >= 2 && g.ClusterSec(n) + g.secPerClus <= |img|
  {
    Concat(img[g.ClusterSec(n)..g.ClusterSec(n) + g.secPerClus])
  }

  ghost predicate SectorsSized(g: Geometry, img: seq<seq<byte>>) {
    forall s :: 0 <= s < |img| ==> |img[s]| == g.bytesPerSec
  }

  lemma ClusterBytesLength(g: Geometry, img: seq<seq<byte>>, n: nat)
    requires SectorsSized(g, img) && n >= 2 && g.ClusterSec(n) + g.secPerClus <= |img|
    ensures |ClusterBytes(g, img, n)| == g.ClusterSize()
  {
    ConcatLength(img[g.ClusterSec(n)..g.ClusterSec(n) + g.secPerClus], g.bytesPerSec);
  }

  /** The image after cluster `n` is overwritten with `data`. */
  ghost function WithCluster(g: Geometry, img: seq<seq<byte>>, n: nat, data: seq<byte>): seq<seq<byte>>
    requires n >= 2 && g.ClusterSec(n) + g.secPerClus <= |img| && |data| == g.ClusterSize()
  {
    Splice(img, g.ClusterSec(n), Chop(data, g.bytesPerSec, g.secPerClus))
  }

  lemma WithClusterSame(g: Geometry, img: seq<seq<byte>>, n: nat, data: seq<byte>)
    requires n >= 2 && g.ClusterSec(n) + g.secPerClus <= |img| && |data| == g.ClusterSize()
    ensures ClusterBytes(g, WithCluster(g, img, n, data), n) == data
  {
    var r := WithCluster(g, img, n, data);
    var cs := Chop(data, g.bytesPerSec, g.secPerClus);
    assert r[g.ClusterSec(n)..g.ClusterSec(n) + g.secPerClus] == cs;
    ConcatChop(data, g.bytesPerSec, g.secPerClus);
  }

  lemma WithClusterOther(g: Geometry, img: seq<seq<byte>>, n: nat, data: seq<byte>, m: nat)
    requires n >= 2 && g.ClusterSec(n) + g.secPerClus <= |img| && |data| == g.ClusterSize()
    requires m >= 2 && g.ClusterSec(m) + g.secPerClus <= |img| && m != n
    ensures ClusterBytes(g, WithCluster(g, img, n, data), m) == ClusterBytes(g, img, m)
  {
    var r := WithCluster(g, img, n, data);
    ClustersApart(g, n, m);
    var a, b := g.ClusterSec(m), g.ClusterSec(m) + g.secPerClus;
    assert r[a..b] == img[a..b];
  }

  /** Clusters on the device, ready to be read. */
  ghost predicate Readable(g: Geometry, img: seq<seq<byte>>, c: Chain) {
    forall i :: 0 <= i < |c| ==> c[i] >= 2 && g.ClusterSec(c[i]) + g.secPerClus <= |img|
  }

  /** The bytes stored along a chain. */
  ghost function ChainBytes(g: Geometry, img: seq<seq<byte>>, c: Chain): seq<byte>
    requires Readable(g, img, c)
  {
    if c == [] then [] else ClusterBytes(g, img, c[0]) + ChainBytes(g, img, c[1..])
  }

  lemma {:induction false} ChainBytesSnoc(g: Geometry, img: seq<seq<byte>>, c: Chain, n: nat)
    requires Readable(g, img, c + [n])
    ensures Readable(g, img, c) && n >= 2 && g.ClusterSec(n) + g.secPerClus <= |img|
    ensures ChainBytes(g, img, c + [n]) == ChainBytes(g, img, c) + ClusterBytes(g, img, n)
  {
    var d := c + [n];
    assert forall i :: 0 <= i < |c| ==> d[i] == c[i];
    assert d[|c|] == n;
    if c == [] {
      assert d[1..] == [];
      assert ChainBytes(g, img, d[1..]) == [];
    } else {
      assert d[1..] == c[1..] + [n];
      ChainBytesSnoc(g, img, c[1..], n);
    }
  }

  lemma {:induction false} ChainBytesLength(g: Geometry, img: seq<seq<byte>>, c: Chain)
    requires Readable(g, img, c) && SectorsSized(g, img)
    ensures |ChainBytes(g, img, c)| == Times(|c|, g.ClusterSize())
  {
    if c != [] {
      ClusterBytesLength(g, img, c[0]);
      ChainBytesLength(g, img, c[1..]);
    }
  }

  lemma {:induction false} ChainBytesFrame(g: Geometry, img: seq<seq<byte>>, img': seq<seq<byte>>, c: Chain)
    requires Readable(g, img, c) && |img'| == |img|
    requires forall i :: 0 <= i < |c| ==> c[i] >= 2 && ClusterBytes(g, img', c[i]) == ClusterBytes(g, img, c[i])
    ensures ChainBytes(g, img', c) == ChainBytes(g, img, c)
  {
    if c != [] {
      ChainBytesFrame(g, img, img', c[1..]);
    }
  }

  lemma {:induction false} ChainBytesSplit(g: Geometry, img: seq<seq<byte>>, c: Chain, k: nat)
    requires Readable(g, img, c) && k <= |c|
    ensures Readable(g, img, c[..k]) && Readable(g, img, c[k..])
    ensures ChainBytes(g, img, c) == ChainBytes(g, img, c[..k]) + ChainBytes(g, img, c[k..])
  {
    hide ClusterBytes;
    if k == 0 {
      assert c[..0] == [] && c[0..] == c;
    } else {
      ChainBytesSplit(g, img, c[1..], k - 1);
      assert c[..k][1..] == c[1..][..k - 1] && c[k..] == c[1..][k - 1..];
    }
  }

  lemma {:induction false} PiecesMakeData(g: Geometry, img: seq<seq<byte>>, c: Chain, data: seq<byte>)
    requires Readable(g, img, c)
    requires forall j :: 0 <= j < |c| ==> ClusterBytes(g, img, c[j]) == Piece(data, j, g.ClusterSize())
    requires c != [] ==> Times(|c| - 1, g.ClusterSize()) <= |data|
    ensures ChainBytes(g, img, c) == PadTake(data, Times(|c|, g.ClusterSize()))
  {
    if c != [] {
      var k, size := |c| - 1, g.ClusterSize();
      assert c == c[..k] + [c[k]];
      ChainBytesSnoc(g, img, c[..k], c[k]);
      if k > 0 { TimesMonotone(k - 1, k, size); }
      PiecesMakeData(g, img, c[..k], data);
      PadTakeExtend(data, Times(k, size), size);
    }
  }

  /** A file with a first cluster has a chain that starts there; one without has no chain. */
  ghost predicate OwnsChain(chains: map<nat, Chain>, id: nat, cluster: nat) {
    if cluster < 2 then id !in chains else id in chains && |chains[id]| > 0 && chains[id][0] == cluster
  }

  /** Nobody lost a cluster, and at most file `id` gained some. */
  ghost predicate OnlyExtended(before: map<nat, Chain>, after: map<nat, Chain>, id: nat) {
    && (forall k :: k in before ==> k in after && if k == id then before[k] <= after[k] else after[k] == before[k])
    && (forall k :: k in after && k != id ==> k in before)
  }

  /** File `c` has exactly the clusters `data` needs, and reading it back along its entry gives `data`. */
  ghost predicate FileHolds(g: Geometry, img: seq<seq<byte>>, c: Chain, e: ShortEntry, data: seq<byte>) {
    && g.ClusterSize() > 0 && e.size == |data| % 0x1_0000_0000
    && |c| == Needed(e.size, g.ClusterSize()) && c[0] == e.cluster
    && Readable(g, img, c) && PadTake(ChainBytes(g, img, c), e.size) == data[..e.size]
  }

  lemma HoldsNow(g: Geometry, img: seq<seq<byte>>, c: Chain, e: ShortEntry, data: seq<byte>)
    requires g.ClusterSize() > 0 && e.size == |data| % 0x1_0000_0000
    requires |c| == Needed(e.size, g.ClusterSize()) && c[0] == e.cluster
    requires Readable(g, img, c) && PadTake(ChainBytes(g, img, c), e.size) == data[..e.size]
    ensures FileHolds(g, img, c, e, data)
  {
  }

  /** Clusters needed for `size` bytes: never fewer than one. */
  function Needed(size: nat, clusterSize: nat): (k: nat)
    requires clusterSize > 0
    ensures k >= 1 && Times(k - 1, clusterSize) <= size <= Times(k, clusterSize)
    ensures k == 1 || Times(k - 1, clusterSize) < size
  {
    var k := (size + clusterSize - 1) / clusterSize;
    CeilBounds(size, clusterSize);
    TimesIsProduct(1, clusterSize);
    if k == 0 then 1 else k
  }

  /** Every cluster outside `touched` reads the same in both images. */
  ghost predicate OthersKept(g: Geometry, img: seq<seq<byte>>, img': seq<seq<byte>>, touched: set<nat>) {
    && |img'| == |img|
    && forall m :: 2 <= m && m !in touched && g.ClusterSec(m) + g.secPerClus <= |img| ==>
         ClusterBytes(g, img', m) == ClusterBytes(g, img, m)
  }

  /** One directory slot was rewritten: the rest of its cluster and every other cluster are as before. */
  ghost predicate SlotWritten(g: Geometry, img: seq<seq<byte>>, img': seq<seq<byte>>, n: nat, off: nat, slot: seq<byte>) {
    && OthersKept(g, img, img', {n})
    && n >= 2 && g.ClusterSec(n) + g.secPerClus <= |img| && off + |slot| <= |ClusterBytes(g, img, n)|
    && ClusterBytes(g, img', n) == Splice(ClusterBytes(g, img, n), off, slot)
  }

  lemma SlotStep(g: Geometry, img: seq<seq<byte>>, n: nat, off: nat, slot: seq<byte>)
    requires n >= 2 && g.ClusterSec(n) + g.secPerClus <= |img| && SectorsSized(g, img)
    requires off + |slot| <= g.ClusterSize() && |ClusterBytes(g, img, n)| == g.ClusterSize()
    ensures SlotWritten(g, img, WithCluster(g, img, n, Splice(ClusterBytes(g, img, n), off, slot)), n, off, slot)
  {
    hide ClusterBytes, WithCluster;
    var data := Splice(ClusterBytes(g, img, n), off, slot);
    WithClusterSame(g, img, n, data);
    WithClusterLength(g, img, n, data);
    forall m | 2 <= m && m !in {n} && g.ClusterSec(m) + g.secPerClus <= |img|
      ensures ClusterBytes(g, WithCluster(g, img, n, data), m) == ClusterBytes(g, img, m)
    {
      WithClusterOther(g, img, n, data, m);
    }
  }

  /** A file was written: only its own clusters changed, and one slot of one directory cluster. */
  ghost predicate FileWritten(g: Geometry, img: seq<seq<byte>>, img': seq<seq<byte>>, own: set<nat>, n: nat, off: nat, slot: seq<byte>)
  {
    && n !in own && OthersKept(g, img, img', own + {n})
    && n >= 2 && g.ClusterSec(n) + g.secPerClus <= |img| && off + |slot| <= |ClusterBytes(g, img, n)|
    && ClusterBytes(g, img', n) == Splice(ClusterBytes(g, img, n), off, slot)
  }

  lemma FileWrittenBy(g: Geometry, img: seq<seq<byte>>, mid: seq<seq<byte>>, img': seq<seq<byte>>, c: Chain, n: nat, off: nat, slot: seq<byte>)
    requires OthersKept(g, img, mid, Members(c)) && n !in c && SlotWritten(g, mid, img', n, off, slot)
    requires Readable(g, mid, c)
    ensures FileWritten(g, img, img', Members(c), n, off, slot)
    ensures Readable(g, img', c) && ChainBytes(g, img', c) == ChainBytes(g, mid, c)
  {
    hide ClusterBytes, ChainBytes;
    forall i | 0 <= i < |c| ensures c[i] >= 2 && ClusterBytes(g, img', c[i]) == ClusterBytes(g, mid, c[i]) {
      assert c[i] !in {n};
    }
    ChainBytesFrame(g, mid, img', c);
  }

  /** A reader of the slot gets the entry `e`. */
  ghost predicate SlotShows(g: Geometry, img: seq<seq<byte>>, n: nat, off: nat, e: ShortEntry) {
    && n >= 2 && g.ClusterSec(n) + g.secPerClus <= |img| && off + 32 <= |ClusterBytes(g, img, n)|
    && Decode(ClusterBytes(g, img, n)[off..off + 32]) == e
  }

  lemma SlotDecodes(g: Geometry, img: seq<seq<byte>>, img': seq<seq<byte>>, own: set<nat>, n: nat, off: nat, e: ShortEntry)
    requires e.InRange() && |img'| == |img| && FileWritten(g, img, img', own, n, off, Encode(e))
    ensures SlotShows(g, img', n, off, e)
  {
    DecodeEncode(e);
    hide Encode, Decode, ClusterBytes;
    assert ClusterBytes(g, img', n)[off..off + 32] == Encode(e);
  }

  /** The writer has stored the first `k` pieces and touched nothing off the chain. */
  ghost predicate PiecesWritten(g: Geometry, img: seq<seq<byte>>, img': seq<seq<byte>>, c: Chain, k: nat, data: seq<byte>) {
    && k <= |c| && Readable(g, img, c) && OthersKept(g, img, img', Members(c))
    && forall j :: 0 <= j < k ==>
         c[j] >= 2 && g.ClusterSec(c[j]) + g.secPerClus <= |img'| && ClusterBytes(g, img', c[j]) == Piece(data, j, g.ClusterSize())
  }

  lemma PiecesStart(g: Geometry, img: seq<seq<byte>>, t: seq<nat>, c: Chain, data: seq<byte>)
    requires g.Fits(|img|) && |t| == g.cntClusters + 2 && IsChain(g.ft, t, c)
    ensures PiecesWritten(g, img, img, c, 0, data)
    ensures c != [] && forall i :: 0 <= i < |c| ==> 2 <= c[i] < g.cntClusters + 2
  {
    ChainReadable(g, img, t, c);
  }

  lemma PieceStep(g: Geometry, img: seq<seq<byte>>, img': seq<seq<byte>>, c: Chain, k: nat, data: seq<byte>)
    requires PiecesWritten(g, img, img', c, k, data) && k < |c| && Distinct(c)
    ensures c[k] >= 2 && g.ClusterSec(c[k]) + g.secPerClus <= |img'|
    ensures PiecesWritten(g, img, WithCluster(g, img', c[k], Piece(data, k, g.ClusterSize())), c, k + 1, data)
  {
    hide ClusterBytes, WithCluster, Piece;
    var p := Piece(data, k, g.ClusterSize());
    var r := WithCluster(g, img', c[k], p);
    WithClusterSame(g, img', c[k], p);
    WithClusterLength(g, img', c[k], p);
    forall j | 0 <= j < k ensures ClusterBytes(g, r, c[j]) == Piece(data, j, g.ClusterSize()) {
      WithClusterOther(g, img', c[k], p, c[j]);
    }
    forall m | 2 <= m && m !in Members(c) && g.ClusterSec(m) + g.secPerClus <= |img|
      ensures ClusterBytes(g, r, m) == ClusterBytes(g, img, m)
    {
      WithClusterOther(g, img', c[k], p, m);
    }
  }

  lemma WithClusterLength(g: Geometry, img: seq<seq<byte>>, n: nat, data: seq<byte>)
    requires n >= 2 && g.ClusterSec(n) + g.secPerClus <= |img| && |data| == g.ClusterSize()
    ensures |WithCluster(g, img, n, data)| == |img|
  {
  }

  lemma PiecesDone(g: Geometry, img: seq<seq<byte>>, img': seq<seq<byte>>, c: Chain, data: seq<byte>)
    requires PiecesWritten(g, img, img', c, |c|, data) && c != [] && Times(|c| - 1, g.ClusterSize()) <= |data|
    ensures Readable(g, img', c) && OthersKept(g, img, img', Members(c))
    ensures ChainBytes(g, img', c) == PadTake(data, Times(|c|, g.ClusterSize()))
  {
    PiecesMakeData(g, img', c, data);
  }

  /** The reader has copied the first `k` clusters. */
  ghost predicate ReadSoFar(g: Geometry, img: seq<seq<byte>>, c: Chain, k: nat, size: nat, buf: seq<byte>, off: nat) {
    && k <= |c| && Readable(g, img, c[..k])
    && var read := ChainBytes(g, img, c[..k]);
       buf == PadTake(read, size) && off == if |read| < size then |read| else size
  }

  lemma ReadStart(g: Geometry, img: seq<seq<byte>>, t: seq<nat>, c: Chain, first: nat, size: nat)
    requires g.Fits(|img|) && |t| == g.cntClusters + 2 && IsTrace(g.ft, t, first, c)
    ensures g.secPerClus > 0 && g.bytesPerSec > 0
    ensures Readable(g, img, c) && ReadSoFar(g, img, c, 0, size, Zeros(size), 0)
    ensures forall i :: 0 <= i < |c| ==> 2 <= c[i] < |t| && g.ClusterSec(c[i]) + g.secPerClus <= |img|
    ensures size == 0 ==> PadTake(ChainBytes(g, img, c), size) == []
  {
    forall i | 0 <= i < |c| ensures c[i] >= 2 && g.ClusterSec(c[i]) + g.secPerClus <= |img| {
      ClusterOnDevice(g, |img|, c[i]);
    }
  }

  lemma TraceStart(ft: FatType, t: seq<nat>, first: nat, c: Chain, size: nat, cs: nat)
    requires IsTrace(ft, t, first, c) && size > 0 && (Complete(ft, t, first, c) || size <= Times(|c|, cs))
    ensures if c == [] then first < 2 else c[0] == first
  {
    hide IsEoc;
  }

  /** A trace that is long enough has been read to the end of the file. */
  lemma ReadEnough(g: Geometry, img: seq<seq<byte>>, c: Chain, size: nat, buf: seq<byte>, off: nat)
    requires Readable(g, img, c) && SectorsSized(g, img) && ReadSoFar(g, img, c, |c|, size, buf, off) && size <= Times(|c|, g.ClusterSize())
    ensures off >= size
  {
    assert c[..|c|] == c;
    ChainBytesLength(g, img, c);
  }

  lemma ReadStep(g: Geometry, img: seq<seq<byte>>, c: Chain, k: nat, size: nat, buf: seq<byte>, off: nat)
    requires Readable(g, img, c) && SectorsSized(g, img) && g.secPerClus > 0 && g.bytesPerSec > 0
    requires ReadSoFar(g, img, c, k, size, buf, off) && k < |c| && off < size
    requires c[k] >= 2 && g.ClusterSec(c[k]) + g.secPerClus <= |img|
    ensures var clus := ClusterBytes(g, img, c[k]);
            var n := if off + |clus| > size then size - off else |clus|;
            0 < n <= |clus| && off + n <= |buf| && ReadSoFar(g, img, c, k + 1, size, Splice(buf, off, clus[..n]), off + n)
  {
    var read := ChainBytes(g, img, c[..k]);
    var clus := ClusterBytes(g, img, c[k]);
    assert c[..k + 1] == c[..k] + [c[k]];
    ChainBytesSnoc(g, img, c[..k], c[k]);
    ClusterBytesLength(g, img, c[k]);
    ClusterSizePositive(g);
    PadTakeSnoc(read, clus, size);
  }

  lemma ReadDone(g: Geometry, img: seq<seq<byte>>, c: Chain, k: nat, size: nat, buf: seq<byte>, off: nat)
    requires Readable(g, img, c) && ReadSoFar(g, img, c, k, size, buf, off) && (k == |c| || off >= size)
    ensures buf == PadTake(ChainBytes(g, img, c), size)
  {
    ChainBytesSplit(g, img, c, k);
    if k < |c| {
      PadTakePrefix(ChainBytes(g, img, c[..k]), ChainBytes(g, img, c[k..]), size);
    } else {
      assert c[..k] == c;
    }
  }

  /** The sectors in front of the FAT copies that a flush may rewrite: the two FSInfo sectors of FAT32. */
  predicate IsInfoSector(g: Geometry, s: nat) {
    g.ft == FAT32 && (s == 1 || s == 7)
  }

  /** What a flush owes the device: every FAT copy holds the cached table, every sector behind the FAT copies reads as the
      overlaid image did, and the reserved sectors are untouched but for FSInfo. */
  ghost predicate Flushed(g: Geometry, img: seq<seq<byte>>, disk: seq<seq<byte>>, fat: seq<byte>) {
    && |disk| == |img| && g.rsvdSecCnt + g.fatSz <= |disk|
    && (forall j :: 0 <= j < g.numFATs ==> CopyAt(disk, g.rsvdSecCnt + Times(j, g.fatSz), g.fatSz, fat))
    && (forall s :: g.FatEnd() <= s < |disk| ==> disk[s] == img[s])
    && (forall s :: 0 <= s < g.rsvdSecCnt && !IsInfoSector(g, s) ==> disk[s] == img[s])
  }

  ghost predicate CopyAt(disk: seq<seq<byte>>, at: nat, count: nat, fat: seq<byte>) {
    at + count <= |disk| && Concat(disk[at..at + count]) == fat
  }

  /** The number of free clusters, and the first of them if there is one. */
  ghost predicate FsInfo(sec: seq<byte>, t: seq<nat>) {
    && |sec| >= 512
    && Le32(sec, 0) == 0x4161_5252 && Le32(sec, 484) == 0x6141_7272 && Le32(sec, 508) == 0xAA55_0000
    && Le32(sec, 488) == |FreeBelow(t, |t|)|
    && if Full(t) then Le32(sec, 492) == 0xFFFF_FFFF else LowestFree(t, Le32(sec, 492))
  }

  lemma ClusterSizePositive(g: Geometry)
    requires g.secPerClus > 0 && g.bytesPerSec > 0
    ensures g.ClusterSize() > 0
  {
  }

  lemma ChainReadable(g: Geometry, img: seq<seq<byte>>, t: seq<nat>, c: Chain)
    requires g.Fits(|img|) && |t| == g.cntClusters + 2
    requires c == [] || IsChain(g.ft, t, c)
    ensures Readable(g, img, c)
  {
    forall i | 0 <= i < |c| ensures c[i] >= 2 && g.ClusterSec(c[i]) + g.secPerClus <= |img| {
      ClusterOnDevice(g, |img|, c[i]);
    }
  }

  /** Chunks `first ..` of the device, the first `i` of them already replaced by staged sectors. */
  ghost function HalfOverlaid(disk: seq<seq<byte>>, dirty: map<nat, seq<byte>>, first: nat, count: nat, i: nat): (cs: seq<seq<byte>>)
    requires first + count <= |disk|
    ensures |cs| == count
    ensures forall k :: 0 <= k < count ==> cs[k] == if k < i && first + k in dirty then dirty[first + k] else disk[first + k]
  {
    seq(count, k requires 0 <= k < count => if k < i && first + k in dirty then dirty[first + k] else disk[first + k])
  }

  lemma HalfStep(disk: seq<seq<byte>>, dirty: map<nat, seq<byte>>, first: nat, count: nat, i: nat)
    requires first + count <= |disk| && i < count
    ensures var cs, cs' := HalfOverlaid(disk, dirty, first, count, i), HalfOverlaid(disk, dirty, first, count, i + 1);
            cs' == if first + i in dirty then cs[i := dirty[first + i]] else cs
  {
  }

  lemma OverlayStep(disk: seq<seq<byte>>, dirty: map<nat, seq<byte>>, size: nat, first: nat, count: nat, i: nat)
    requires first + count <= |disk| && i < count
    requires forall s :: 0 <= s < |disk| ==> |disk[s]| == size
    requires forall s :: s in dirty ==> |dirty[s]| == size
    ensures var cs, cs' := HalfOverlaid(disk, dirty, first, count, i), HalfOverlaid(disk, dirty, first, count, i + 1);
            if first + i in dirty
            then Times(i, size) + size <= |Concat(cs)| && Concat(cs') == Splice(Concat(cs), Times(i, size), dirty[first + i])
            else cs' == cs
  {
    hide Concat, Times, Splice;
    HalfStep(disk, dirty, first, count, i);
    if first + i in dirty {
      ConcatUpdate(HalfOverlaid(disk, dirty, first, count, i), size, i, dirty[first + i]);
    }
  }

  method OverlaidSectors(disk: seq<seq<byte>>, dirty: map<nat, seq<byte>>, size: nat, first: nat, count: nat)
    returns (buf: seq<byte>)
    requires first + count <= |disk|
    requires forall s :: 0 <= s < |disk| ==> |disk[s]| == size
    requires forall s :: s in dirty ==> |dirty[s]| == size
    ensures buf == Concat(Overlay(disk, dirty)[first..first + count])
  {
    buf := Concat(disk[first..first + count]);
    assert HalfOverlaid(disk, dirty, first, count, 0) == disk[first..first + count];
    for i := 0 to count
      invariant buf == Concat(HalfOverlaid(disk, dirty, first, count, i))
    {
      OverlayStep(disk, dirty, size, first, count, i);
      if first + i in dirty {
        buf := Splice(buf, Times(i, size), dirty[first + i]);
      }
    }
    assert HalfOverlaid(disk, dirty, first, count, count) == Overlay(disk, dirty)[first..first + count];
  }

  method StagedSectors(dirty: map<nat, seq<byte>>, data: seq<byte>, size: nat, first: nat, count: nat)
    returns (r: map<nat, seq<byte>>)
    requires |data| == Times(count, size)
    ensures forall s :: s in r <==> s in dirty || first <= s < first + count
    ensures forall s :: s in r ==> r[s] == if first <= s < first + count then Chop(data, size, count)[s - first] else dirty[s]
  {
    r := dirty;
    for i := 0 to count
      invariant forall s :: s in r <==> s in dirty || first <= s < first + i
      invariant forall s :: s in r ==> r[s] == if first <= s < first + i then Chop(data, size, count)[s - first] else dirty[s]
    {
      ChopAt(data, size, count, i);
      var off := Times(i, size);
      r := r[first + i := data[off..off + size]];
    }
  }

  ghost function FreeBelow(t: seq<nat>, n: nat): set<nat> {
    set m: nat | 2 <= m < n && m < |t| && t[m] == 0
  }

  lemma FreeBelowStep(t: seq<nat>, n: nat)
    requires 2 <= n < |t|
    ensures |FreeBelow(t, n + 1)| == |FreeBelow(t, n)| + (if t[n] == 0 then 1 else 0)
    ensures t[n] != 0 ==> FreeBelow(t, n + 1) == FreeBelow(t, n)
    ensures t[n] == 0 ==> FreeBelow(t, n + 1) != {} && (FreeBelow(t, n) == {} ==> LowestFree(t, n))
  {
    var a, b := FreeBelow(t, n), FreeBelow(t, n + 1);
    if t[n] == 0 {
      assert b == a + {n} && n !in a && n in b;
      assert a == {} ==> forall m :: 2 <= m < n && t[m] == 0 ==> m in a;
    } else {
      assert b == a;
    }
  }

  /** Clusters a file has. */
  ghost function Clusters(chains: map<nat, Chain>, id: nat): nat {
    if id in chains then |chains[id]| else 0
  }

  /** Number of free entries. */
  ghost function Spare(t: seq<nat>): nat {
    |FreeBelow(t, |t|)|
  }

  lemma FullIsNoSpare(t: seq<nat>)
    ensures Full(t) <==> Spare(t) == 0
  {
    FullMeansNoneFree(t);
  }

  /** A free entry is put to use. */
  lemma OneTaken(t: seq<nat>, n: nat, v: nat)
    requires LowestFree(t, n) && v != 0
    ensures Spare(t) >= 1 && Spare(t[n := v]) == Spare(t) - 1
  {
    var a, b := FreeBelow(t, |t|), FreeBelow(t[n := v], |t|);
    assert n in a && b == a - {n};
  }

  /** A chain's last entry is turned into a link. */
  lemma OneLinked(t: seq<nat>, last: nat, n: nat)
    requires last < |t| && t[last] != 0 && n != 0
    ensures Spare(t[last := n]) == Spare(t)
  {
    assert FreeBelow(t[last := n], |t|) == FreeBelow(t, |t|);
  }

  lemma LastInTable(ft: FatType, t: seq<nat>, c: Chain)
    requires IsChain(ft, t, c)
    ensures |c| > 0 && c[|c| - 1] < |t|
  {
  }

  /** One more cluster at the end of a chain. */
  lemma SpareAppend(ft: FatType, t: seq<nat>, c: Chain, n: nat)
    requires IsChain(ft, t, c) && LowestFree(t, n)
    ensures Spare(t) >= 1 && c[|c| - 1] < |t| && Spare(t[n := EocValue(ft)][c[|c| - 1] := n]) == Spare(t) - 1
  {
    OneTaken(t, n, EocValue(ft));
    OneLinked(t[n := EocValue(ft)], c[|c| - 1], n);
  }

  lemma FullMeansNoneFree(t: seq<nat>)
    ensures Full(t) <==> FreeBelow(t, |t|) == {}
  {
    if FreeBelow(t, |t|) == {} {
      assert forall m :: 2 <= m < |t| && t[m] == 0 ==> m in FreeBelow(t, |t|);
    }
  }

  function InfoBytes(size: nat, free: nat, hint: nat): (sec: seq<byte>)
    requires size >= 512
    ensures |sec| == size
  {
    var s0 := Splice(Zeros(size), 0, Put32(0x4161_5252));
    var s1 := Splice(s0, 484, Put32(0x6141_7272));
    var s2 := Splice(s1, 488, Put32(free));
    var s3 := Splice(s2, 492, Put32(hint));
    Splice(s3, 508, Put32(0xAA55_0000))
  }

  lemma InfoBytesHold(size: nat, free: nat, hint: nat, t: seq<nat>)
    requires size >= 512 && free < 0x1_0000_0000 && hint < 0x1_0000_0000 && free == |FreeBelow(t, |t|)|
    requires if FreeBelow(t, |t|) == {} then hint == 0xFFFF_FFFF else LowestFree(t, hint)
    ensures FsInfo(InfoBytes(size, free, hint), t)
  {
    hide Splice, Put32, Le32, LowestFree, Full;
    var s0 := Splice(Zeros(size), 0, Put32(0x4161_5252));
    var s1 := Splice(s0, 484, Put32(0x6141_7272));
    var s2 := Splice(s1, 488, Put32(free));
    var s3 := Splice(s2, 492, Put32(hint));
    SplicedLe32(Zeros(size), 0, Put32(0x4161_5252));
    SplicedLe32(s0, 484, Put32(0x6141_7272));
    SplicedLe32(s1, 488, Put32(free));
    SplicedLe32(s2, 492, Put32(hint));
    SplicedLe32(s3, 508, Put32(0xAA55_0000));
    OutsideLe32(s0, 484, Put32(0x6141_7272), 0);
    OutsideLe32(s1, 488, Put32(free), 0);
    OutsideLe32(s1, 488, Put32(free), 484);
    OutsideLe32(s2, 492, Put32(hint), 0);
    OutsideLe32(s2, 492, Put32(hint), 484);
    OutsideLe32(s2, 492, Put32(hint), 488);
    OutsideLe32(s3, 508, Put32(0xAA55_0000), 0);
    OutsideLe32(s3, 508, Put32(0xAA55_0000), 484);
    OutsideLe32(s3, 508, Put32(0xAA55_0000), 488);
    OutsideLe32(s3, 508, Put32(0xAA55_0000), 492);
    FullMeansNoneFree(t);
  }

  /** `r` is `disk` with `i` copies of `cs` written behind one another at `start`. */
  ghost predicate CopiesDone(disk: seq<seq<byte>>, r: seq<seq<byte>>, start: nat, cs: seq<seq<byte>>, i: nat, size: nat) {
    && |r| == |disk|
    && (forall s :: 0 <= s < |disk| ==> |r[s]| == size)
    && (forall s :: 0 <= s < |disk| && !(start <= s < start + Times(i, |cs|)) ==> r[s] == disk[s])
    && (forall j :: 0 <= j < i ==> SectorsAt(r, start + Times(j, |cs|), cs))
  }

  method WriteCopies(disk: seq<seq<byte>>, start: nat, cs: seq<seq<byte>>, copies: nat, size: nat) returns (r: seq<seq<byte>>)
    requires start + Times(copies, |cs|) <= |disk|
    requires (forall s :: 0 <= s < |disk| ==> |disk[s]| == size) && (forall k :: 0 <= k < |cs| ==> |cs[k]| == size)
    ensures CopiesDone(disk, r, start, cs, copies, size)
  {
    hide *;
    r := disk;
    NoCopies(disk, start, cs, size);
    for i := 0 to copies
      invariant |r| == |disk| && CopiesDone(disk, r, start, cs, i, size)
    {
      TimesMonotone(i, copies, |cs|);
      CopyStep(disk, r, start, cs, i, size);
      r := Splice(r, start + Times(i, |cs|), cs);
    }
  }

  lemma NoCopies(disk: seq<seq<byte>>, start: nat, cs: seq<seq<byte>>, size: nat)
    requires start <= |disk| && forall s :: 0 <= s < |disk| ==> |disk[s]| == size
    ensures CopiesDone(disk, disk, start, cs, 0, size)
  {
  }

  lemma CopyStep(disk: seq<seq<byte>>, r: seq<seq<byte>>, start: nat, cs: seq<seq<byte>>, i: nat, size: nat)
    requires CopiesDone(disk, r, start, cs, i, size) && start + Times(i, |cs|) + |cs| <= |disk|
    requires forall k :: 0 <= k < |cs| ==> |cs[k]| == size
    ensures CopiesDone(disk, Splice(r, start + Times(i, |cs|), cs), start, cs, i + 1, size)
  {
    hide SectorsAt, Times;
    var at := start + Times(i, |cs|);
    TimesStep(i, |cs|);
    forall j | 0 <= j < i + 1 ensures SectorsAt(Splice(r, at, cs), start + Times(j, |cs|), cs) {
      TimesMonotone(j, i, |cs|);
      if j < i { EarlierCopyKept(r, start + Times(j, |cs|), at, cs); } else { CopyWritten(Splice(r, at, cs), at, cs); }
    }
  }

  lemma EarlierCopyKept(disk: seq<seq<byte>>, at: nat, next: nat, cs: seq<seq<byte>>)
    requires SectorsAt(disk, at, cs) && at + |cs| <= next && next + |cs| <= |disk|
    ensures SectorsAt(Splice(disk, next, cs), at, cs)
  {
  }

  lemma CopyWritten(r: seq<seq<byte>>, at: nat, cs: seq<seq<byte>>)
    requires at + |cs| <= |r| && forall i :: at <= i < at + |cs| ==> r[i] == cs[i - at]
    ensures SectorsAt(r, at, cs)
  {
    forall k | 0 <= k < |cs| ensures r[at + k] == cs[k] {
      assert r[at + k] == cs[at + k - at];
    }
  }

  ghost predicate SectorsAt(disk: seq<seq<byte>>, at: nat, cs: seq<seq<byte>>) {
    at + |cs| <= |disk| && forall k {:trigger cs[k]} :: 0 <= k < |cs| ==> disk[at + k] == cs[k]
  }

  /** Writes the staged sectors, in whatever order they come. */
  method WriteStaged(disk: seq<seq<byte>>, dirty: map<nat, seq<byte>>) returns (r: seq<seq<byte>>)
    requires forall s :: s in dirty ==> s < |disk|
    ensures r == Overlay(disk, dirty)
  {
    r := disk;
    var left := dirty.Keys;
    while left != {}
      invariant left <= dirty.Keys && |r| == |disk|
      invariant forall s :: 0 <= s < |disk| ==> r[s] == if s in dirty && s !in left then dirty[s] else disk[s]
      decreases left
    {
      var s :| s in left;
      r := r[s := dirty[s]];
      left := left - {s};
    }
  }

  /** The FAT copies and the staged sectors go out; together they make the device coherent. */
  method FlushSectors(g: Geometry, disk: seq<seq<byte>>, dirty: map<nat, seq<byte>>, fat: seq<byte>) returns (d: seq<seq<byte>>)
    requires g.Fits(|disk|) && |fat| == Times(g.fatSz, g.bytesPerSec) && SectorsSized(g, disk)
    requires forall s :: s in dirty ==> g.FatEnd() <= s < |disk| && |dirty[s]| == g.bytesPerSec
    ensures SectorsSized(g, d) && Flushed(g, Overlay(disk, dirty), d, fat)
    ensures |d| == |disk| && forall s :: 0 <= s < g.rsvdSecCnt ==> d[s] == disk[s]
  {
    hide SectorsAt, CopyAt, Times;
    var cs := Chop(fat, g.bytesPerSec, g.fatSz);
    var mid := WriteCopies(disk, g.rsvdSecCnt, cs, g.numFATs, g.bytesPerSec);
    d := WriteStaged(mid, dirty);
    CopiesSurvive(g, mid, dirty, d, fat);
  }

  lemma CopiesSurvive(g: Geometry, mid: seq<seq<byte>>, dirty: map<nat, seq<byte>>, d: seq<seq<byte>>, fat: seq<byte>)
    requires g.Fits(|mid|) && |fat| == Times(g.fatSz, g.bytesPerSec) && d == Overlay(mid, dirty)
    requires forall s :: s in dirty ==> g.FatEnd() <= s
    requires forall j :: 0 <= j < g.numFATs ==> SectorsAt(mid, g.rsvdSecCnt + Times(j, g.fatSz), Chop(fat, g.bytesPerSec, g.fatSz))
    ensures g.rsvdSecCnt + g.fatSz <= |d|
    ensures forall j :: 0 <= j < g.numFATs ==> CopyAt(d, g.rsvdSecCnt + Times(j, g.fatSz), g.fatSz, fat)
  {
    hide SectorsAt, CopyAt, Times;
    var cs := Chop(fat, g.bytesPerSec, g.fatSz);
    ConcatChop(fat, g.bytesPerSec, g.fatSz);
    TimesMonotone(0, g.numFATs, g.fatSz);
    forall j | 0 <= j < g.numFATs ensures CopyAt(d, g.rsvdSecCnt + Times(j, g.fatSz), g.fatSz, fat) {
      TimesMonotone(j, g.numFATs, g.fatSz);
      CopyOverlaid(mid, dirty, g.FatEnd(), g.rsvdSecCnt + Times(j, g.fatSz), cs, fat);
    }
  }

  lemma CopyOverlaid(mid: seq<seq<byte>>, dirty: map<nat, seq<byte>>, end: nat, at: nat, cs: seq<seq<byte>>, fat: seq<byte>)
    requires SectorsAt(mid, at, cs) && at + |cs| <= end && Concat(cs) == fat
    requires forall s :: s in dirty ==> end <= s
    ensures CopyAt(Overlay(mid, dirty), at, |cs|, fat)
  {
    assert Overlay(mid, dirty)[at..at + |cs|] == cs;
  }

  /** Writing the FSInfo sectors spoils a flush if and only if one of them is not reserved, unless it happened to hold the
      same bytes: sector 7 is in the first FAT copy, or behind it, when fewer than eight sectors are reserved. */
  lemma InfoExact(g: Geometry, img: seq<seq<byte>>, d: seq<seq<byte>>, fat: seq<byte>, sec: seq<byte>)
    requires Flushed(g, img, d, fat) && SectorsSized(g, d) && |d| >= 8 && g.ft == FAT32 && |sec| == g.bytesPerSec
    ensures Flushed(g, img, d[1 := sec][7 := sec], fat)
      <==> (g.rsvdSecCnt >= 2 || d[1] == sec) && (g.rsvdSecCnt >= 8 || d[7] == sec)
  {
    hide Concat, CopyAt;
    var r := d[1 := sec][7 := sec];
    if (g.rsvdSecCnt >= 2 || d[1] == sec) && (g.rsvdSecCnt >= 8 || d[7] == sec) {
      forall j | 0 <= j < g.numFATs ensures CopyAt(r, g.rsvdSecCnt + Times(j, g.fatSz), g.fatSz, fat) {
        CopyApart(d, r, g.rsvdSecCnt + Times(j, g.fatSz), g.fatSz, fat);
      }
    }
    if Flushed(g, img, r, fat) {
      if g.rsvdSecCnt < 2 { HeldTwice(g, img, d, r, fat, 1); }
      if g.rsvdSecCnt < 8 { HeldTwice(g, img, d, r, fat, 7); }
    }
  }

  /** Two flushed devices have the same sectors from the first FAT copy on. */
  lemma HeldTwice(g: Geometry, img: seq<seq<byte>>, d: seq<seq<byte>>, r: seq<seq<byte>>, fat: seq<byte>, s: nat)
    requires Flushed(g, img, d, fat) && Flushed(g, img, r, fat) && SectorsSized(g, d) && SectorsSized(g, r)
    requires g.rsvdSecCnt <= s < |d|
    ensures d[s] == r[s]
  {
    hide Concat, CopyAt, Times;
    if s < g.FatEnd() {
      var j := CopyWith(s - g.rsvdSecCnt, g.fatSz, g.numFATs);
      var at := g.rsvdSecCnt + Times(j, g.fatSz);
      assert CopyAt(d, at, g.fatSz, fat) && CopyAt(r, at, g.fatSz, fat);
      OneCopy(g, d, r, at, fat, s);
    }
  }

  /** Which copy holds sector x of the FAT copies. */
  lemma CopyWith(x: nat, size: nat, copies: nat) returns (j: nat)
    requires x < Times(copies, size)
    ensures j < copies && Times(j, size) <= x < Times(j, size) + size
    decreases copies
  {
    j := copies - 1;
    if x < Times(copies - 1, size) { j := CopyWith(x, size, copies - 1); }
  }

  lemma OneCopy(g: Geometry, d: seq<seq<byte>>, r: seq<seq<byte>>, at: nat, fat: seq<byte>, s: nat)
    requires CopyAt(d, at, g.fatSz, fat) && CopyAt(r, at, g.fatSz, fat) && SectorsSized(g, d) && SectorsSized(g, r) && at <= s < at + g.fatSz
    ensures s < |d| && s < |r| && d[s] == r[s]
  {
    hide *;
    CopyCut(g, d, at, fat);
    CopyCut(g, r, at, fat);
    assert d[at..at + g.fatSz][s - at] == d[s] && r[at..at + g.fatSz][s - at] == r[s];
  }

  /** The sectors of a copy are the FAT, cut up again. */
  lemma CopyCut(g: Geometry, d: seq<seq<byte>>, at: nat, fat: seq<byte>)
    requires CopyAt(d, at, g.fatSz, fat) && SectorsSized(g, d)
    ensures at + g.fatSz <= |d| && |fat| == Times(g.fatSz, g.bytesPerSec) && d[at..at + g.fatSz] == Chop(fat, g.bytesPerSec, g.fatSz)
  {
    hide Concat, Chop;
    ChopConcat(d[at..at + g.fatSz], g.bytesPerSec);
  }

  /** A volume with seven reserved sectors and a FAT that does not begin like an FSInfo sector: the flush overwrites the
      start of the FAT. */
  lemma InfoOverFat(g: Geometry, img: seq<seq<byte>>, d: seq<seq<byte>>, fat: seq<byte>, sec: seq<byte>, t: seq<nat>)
    requires Flushed(g, img, d, fat) && SectorsSized(g, d) && |d| >= 8 && g.ft == FAT32 && |sec| == g.bytesPerSec && FsInfo(sec, t)
    requires g.rsvdSecCnt == 7 && g.numFATs >= 1 && g.fatSz >= 1 && |fat| >= 4 && Le32(fat, 0) != 0x4161_5252
    ensures !Flushed(g, img, d[1 := sec][7 := sec], fat)
  {
    assert CopyAt(d, 7 + Times(0, g.fatSz), g.fatSz, fat);
    var c := d[7..7 + g.fatSz];
    assert c[0] == d[7] && fat == c[0] + Concat(c[1..]);
    hide Le32, Flushed, FsInfo, CopyAt, Concat;
    InfoExact(g, img, d, fat, sec);
  }

  lemma CopyApart(d: seq<seq<byte>>, r: seq<seq<byte>>, at: nat, count: nat, fat: seq<byte>)
    requires CopyAt(d, at, count, fat) && |r| == |d| && forall s :: at <= s < |d| ==> r[s] == d[s]
    ensures CopyAt(r, at, count, fat)
  {
    assert r[at..at + count] == d[at..at + count];
  }

  /** Every other file reads back the same after a write, except a directory whose cluster holds the slot. */
  lemma OtherFilesUnchanged(g: Geometry, s: State, img: seq<seq<byte>>, img': seq<seq<byte>>,
                            id: nat, k: nat, n: nat, off: nat, slot: seq<byte>)
    requires Inv(s) && g.ft == s.ft && g.Fits(|img|) && |s.t| == g.cntClusters + 2
    requires id in s.chains && k in s.chains && k != id && n !in s.chains[k]
    requires FileWritten(g, img, img', Members(s.chains[id]), n, off, slot)
    ensures Readable(g, img, s.chains[k]) && Readable(g, img', s.chains[k])
    ensures ChainBytes(g, img', s.chains[k]) == ChainBytes(g, img, s.chains[k])
  {
    hide ClusterBytes, FreeExact, LostApart;
    var c := s.chains[k];
    assert IsChain(s.ft, s.t, c) && Disjoint(c, s.chains[id]);
    ChainReadable(g, img, s.t, c);
    forall i | 0 <= i < |c| ensures c[i] >= 2 && ClusterBytes(g, img', c[i]) == ClusterBytes(g, img, c[i]) {
      assert c[i] in c;
    }
    ChainBytesFrame(g, img, img', c);
  }

  /** Every cluster lies on both devices and holds the same bytes. */
  ghost predicate SameClusters(g: Geometry, img: seq<seq<byte>>, img': seq<seq<byte>>) {
    && |img'| == |img|
    && forall n :: 2 <= n < g.cntClusters + 2 ==>
         g.ClusterSec(n) + g.secPerClus <= |img| && ClusterBytes(g, img', n) == ClusterBytes(g, img, n)
  }

  /** Sectors that survive a flush carry every cluster with them. */
  lemma ClustersSurvive(g: Geometry, img: seq<seq<byte>>, disk: seq<seq<byte>>, fat: seq<byte>)
    requires g.Fits(|img|) && Flushed(g, img, disk, fat)
    ensures SameClusters(g, img, disk)
  {
    forall n | 2 <= n < g.cntClusters + 2
      ensures g.ClusterSec(n) + g.secPerClus <= |img| && ClusterBytes(g, disk, n) == ClusterBytes(g, img, n)
    {
      ClusterOnDevice(g, |img|, n);
      var a, b := g.ClusterSec(n), g.ClusterSec(n) + g.secPerClus;
      assert disk[a..b] == img[a..b];
    }
  }

  lemma FirstCopy(g: Geometry, img: seq<seq<byte>>, disk: seq<seq<byte>>, fat: seq<byte>)
    requires Flushed(g, img, disk, fat) && g.numFATs > 0
    ensures CopyAt(disk, g.rsvdSecCnt, g.fatSz, fat)
  {
    assert CopyAt(disk, g.rsvdSecCnt + Times(0, g.fatSz), g.fatSz, fat);
  }
}
