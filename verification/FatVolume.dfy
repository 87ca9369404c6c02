/** A mounted FAT volume: the cached table, the dirty-sector overlay and the device below it. */
module FatVolume {
  import opened Wrappers
  import opened Bytes
  import opened Chunks
  import opened FatTable
  import opened FatChains
  import opened FatGeometry
  import opened FatEntry
  import opened FatImage

  /** A directory entry held in memory, with the place of its slot on disk. */
  class DirEntry {
    var short: ShortEntry
    const dirCluster: nat
    const dirOffset: nat
  }

  class Volume {
    const g: Geometry
    const fat1: array<byte>
    var dirty: map<nat, seq<byte>>
    var disk: seq<seq<byte>>
    /** The chain of every live file and directory, and the used clusters that belong to none. */
    ghost var chains: map<nat, Chain>
    ghost var lost: set<nat>

    /** Mounts a partition: caches its first FAT copy. */
    constructor (g: Geometry, disk: seq<seq<byte>>, ghost chains: map<nat, Chain>, ghost lost: set<nat>)
      requires g.rsvdSecCnt + g.fatSz <= |disk| && SectorsSized(g, disk)
      ensures this.g == g && this.disk == disk && dirty == map[] && this.chains == chains && this.lost == lost
      ensures fresh(fat1) && (Shape() <==> g.Fits(|disk|)) && CopyAt(disk, g.rsvdSecCnt, g.fatSz, fat1[..])
    {
      var fat := Concat(disk[g.rsvdSecCnt..g.rsvdSecCnt + g.fatSz]);
      ConcatLength(disk[g.rsvdSecCnt..g.rsvdSecCnt + g.fatSz], g.bytesPerSec);
      this.g, this.disk, this.dirty, this.chains, this.lost := g, disk, map[], chains, lost;
      fat1 := new byte[|fat|](i requires 0 <= i < |fat| => fat[i]);
      new;
      assert fat1[..] == fat;
    }

    ghost predicate Shape()
      reads `disk, `dirty
    {
      && g.Fits(|disk|)
      && fat1.Length == Times(g.fatSz, g.bytesPerSec)
      && SectorsSized(g, disk)
      && (forall s :: s in dirty ==> g.FatEnd() <= s < |disk| && |dirty[s]| == g.bytesPerSec)
    }

    ghost function Table(): (t: seq<nat>)
      reads `disk, `dirty, fat1
      requires Shape()
      ensures |t| == g.cntClusters + 2
    {
      LastHeld(g.ft, fat1[..], g.cntClusters + 2);
      View(g.ft, fat1[..], g.cntClusters + 2)
    }

    ghost function Image(): (r: seq<seq<byte>>)
      reads `disk, `dirty
      ensures |r| == |disk|
    {
      Overlay(disk, dirty)
    }

    ghost function Abs(): State
      reads this, fat1
      requires Shape()
    {
      State(g.ft, Table(), chains, lost)
    }

    ghost predicate Valid()
      reads this, fat1
    {
      Shape() && Inv(Abs())
    }

    lemma ValidFacts()
      ensures Valid() <==> Shape() && Inv(State(g.ft, Table(), chains, lost))
    {
    }

    lemma ShapeFits()
      requires Shape()
      ensures g.Fits(|disk|) && SectorsSized(g, Image())
    {
    }

    lemma ShapeBounds()
      requires Shape()
      ensures g.cntClusters + 2 < 0x1000_0000
    {
    }

    function FatEntry(n: nat): (v: nat)
      reads `disk, `dirty, fat1
      requires Shape() && n < g.cntClusters + 2
      ensures v == Table()[n]
    {
      LastHeld(g.ft, fat1[..], g.cntClusters + 2);
      Entry(g.ft, fat1[..], n)
    }

    method SetFatEntry(n: nat, val: nat)
      requires Shape() && n < g.cntClusters + 2 && val < Modulus(g.ft)
      modifies fat1
      ensures Table() == old(Table())[n := val]
    {
      LastHeld(g.ft, fat1[..], g.cntClusters + 2);
      ViewOfSetEntry(g.ft, fat1[..], g.cntClusters + 2, n, val);
      var off := EntryOffset(g.ft, n);
      var t := EntryBytes(g.ft, fat1[..], n, val);
      ghost var before := fat1[..];
      StoreBytes(fat1, off, t);
      assert fat1[..] == SetEntry(g.ft, before, n, val);
    }

    /** Finds the lowest free cluster and marks it the end of a chain. */
    method AllocCluster() returns (r: Option<nat>)
      requires Shape()
      modifies fat1
      ensures r.Some? ==> LowestFree(old(Table()), r.value) && Table() == old(Table())[r.value := EocValue(g.ft)]
      ensures r.None? ==> Full(old(Table())) && Table() == old(Table())
    {
      var n := 2;
      while n < g.cntClusters + 2
        invariant 2 <= n <= g.cntClusters + 2
        invariant Table() == old(Table())
        invariant forall m :: 2 <= m < n ==> old(Table())[m] != 0
      {
        if FatEntry(n) == 0 {
          SetFatEntry(n, EocValue(g.ft));
          return Some(n);
        }
        n := n + 1;
      }
      return None;
    }

    /** Allocates a cluster and links it behind `last`. */
    method AppendCluster(last: nat) returns (r: Option<nat>)
      requires Shape() && last < g.cntClusters + 2
      modifies fat1
      ensures r.Some? ==> LowestFree(old(Table()), r.value)
                          && Table() == old(Table())[r.value := EocValue(g.ft)][last := r.value]
      ensures r.None? ==> Full(old(Table())) && Table() == old(Table())
    {
      r := AllocCluster();
      if r.Some? {
        SetFatEntry(last, r.value);
      }
    }

    /** Frees every cluster reachable from `first`, and no other; terminates on cyclic tables too. */
    method FreeChain(first: nat, ghost region: set<nat>) returns (ghost path: Chain)
      requires Shape() && Closed(g.ft, Table(), region) && (first < 2 || first in region)
      modifies fat1
      ensures IsOrbit(g.ft, old(Table()), first, path)
      ensures Table() == Zeroed(old(Table()), path)
    {
      hide *;
      ghost var t0 := Table();
      path := [];
      var cur: nat := first;
      WalkStart(g.ft, t0, region, first);
      while cur >= 2 && !IsEoc(g.ft, FatEntry(cur))
        invariant Shape() && cur < g.cntClusters + 2 && (cur < 2 || cur in region)
        invariant Walked(t0, first, path, cur) && Table() == Zeroed(t0, path)
        decreases UsedSet(Table()), cur
      {
        var next := FatEntry(cur);
        WalkStep(g.ft, t0, region, first, path, cur);
        ZeroedVisit(t0, path, cur);
        SetFatEntry(cur, 0);
        path := Visit(path, cur);
        cur := next;
      }
      WalkEnd(g.ft, t0, first, path, cur);
      if cur >= 2 {
        ZeroedVisit(t0, path, cur);
        SetFatEntry(cur, 0);
        path := Visit(path, cur);
      }
    }

    /** Lists an intact chain from its head. */
    method ClusterChain(first: nat, ghost c: Chain) returns (r: seq<nat>)
      requires Shape() && IsTrace(g.ft, Table(), first, c) && Complete(g.ft, Table(), first, c)
      ensures r == c
    {
      r := [];
      var cur := first;
      while cur >= 2
        invariant |r| <= |c| && r == c[..|r|] && if cur >= 2 then |r| < |c| && cur == c[|r|] else |r| == |c|
        decreases |c| - |r|
      {
        TraceNext(g.ft, Table(), first, c, |r|);
        r := r + [cur];
        var next := FatEntry(cur);
        if IsEoc(g.ft, next) {
          break;
        }
        cur := next;
      }
    }

    /** Frees the chain of a live file and drops the file. */
    method FreeFile(first: nat, ghost id: nat)
      requires Valid() && id in chains && |chains[id]| > 0 && chains[id][0] == first
      modifies this, fat1
      ensures Valid() && Abs() == Apply(Free(id), old(Abs()))
      ensures disk == old(disk) && dirty == old(dirty)
    {
      hide Inv, IsOrbit, Closed, Enabled, Table, Shape;
      ghost var s0 := Abs();
      FileClosed(s0, id);
      ghost var path := FreeChain(first, Members(chains[id]));
      OrbitFreesFile(s0, id, path);
      chains := chains - {id};
    }

    /** Reads cluster `n`: the device, then whatever sectors of it are staged. */
    method ReadCluster(n: nat) returns (r: Option<seq<byte>>)
      requires Shape() && n < g.cntClusters + 2
      ensures r.None? <==> n < 2
      ensures n >= 2 ==> g.ClusterSec(n) + g.secPerClus <= |Image()| && r.value == ClusterBytes(g, Image(), n)
    {
      if n < 2 {
        return None;
      }
      ClusterOnDevice(g, |disk|, n);
      var buf := OverlaidSectors(disk, dirty, g.bytesPerSec, g.ClusterSec(n), g.secPerClus);
      return Some(buf);
    }

    /** Stages every sector of cluster `n`. */
    method WriteCluster(n: nat, data: seq<byte>)
      requires Shape() && 2 <= n < g.cntClusters + 2 && |data| == g.ClusterSize()
      modifies this`dirty
      ensures Shape() && g.ClusterSec(n) + g.secPerClus <= |disk| && Table() == old(Table())
      ensures Image() == WithCluster(g, old(Image()), n, data)
    {
      ClusterOnDevice(g, |disk|, n);
      dirty := StagedSectors(dirty, data, g.bytesPerSec, g.ClusterSec(n), g.secPerClus);
      assert Image() == WithCluster(g, old(Image()), n, data);
    }

    /** Extends a file's chain until it has `needed` clusters, or the disk is full. */
    method GrowChain(clusters: Chain, needed: nat, ghost id: nat) returns (ok: bool, r: Chain)
      requires Valid() && id in chains && chains[id] == clusters && |clusters| > 0
      modifies fat1, `chains
      ensures Valid() && chains == old(chains)[id := r]
      ensures clusters <= r && |r| > 0
      ensures ok <==> needed <= |clusters| + Spare(old(Table()))
      ensures ok ==> |r| == if |clusters| < needed then needed else |clusters|
      ensures !ok ==> Full(Table())
    {
      hide Inv, LowestFree, Shape, Table, Distinct, IsChain, Full;
      r := clusters;
      while |r| < needed
        invariant Valid() && id in chains && chains == old(chains)[id := r]
        invariant clusters <= r && |r| > 0
        invariant |r| <= needed || r == clusters
        invariant |r| + Spare(Table()) == |clusters| + Spare(old(Table()))
      {
        ghost var s := Abs();
        FileChain(s, id);
        FullIsNoSpare(s.t);
        LastInTable(s.ft, s.t, r);
        var next := AppendCluster(r[|r| - 1]);
        if next.None? {
          return false, r;
        }
        SpareAppend(s.ft, s.t, r, next.value);
        AppendStep(s, id, next.value);
        r := r + [next.value];
        chains := chains[id := r];
      }
      ok := true;
    }

    method FreeAll(cs: Chain)
      requires Shape() && forall i :: 0 <= i < |cs| ==> cs[i] < g.cntClusters + 2
      modifies fat1
      ensures Table() == Zeroed(old(Table()), cs)
    {
      ghost var t := Table();
      assert Zeroed(t, cs[..0]) == t;
      hide Shape, Table;
      for i := 0 to |cs|
        invariant Table() == Zeroed(t, cs[..i])
      {
        ZeroedSnoc(t, cs[..i], cs[i]);
        assert cs[..i + 1] == cs[..i] + [cs[i]];
        SetFatEntry(cs[i], 0);
      }
      assert cs[..|cs|] == cs;
    }

    /** Ends a file's chain after `needed` clusters and frees the rest. */
    method ShrinkChain(clusters: Chain, needed: nat, ghost id: nat) returns (r: Chain)
      requires Valid() && id in chains && chains[id] == clusters && 0 < needed < |clusters|
      modifies fat1, `chains
      ensures Valid() && chains == old(chains)[id := r] && r == clusters[..needed]
    {
      hide Inv, Shape;
      ghost var s := Abs();
      FileChain(s, id);
      TruncateStep(s, id, needed);
      hide Distinct;
      SetFatEntry(clusters[needed - 1], EocValue(g.ft));
      FreeAll(clusters[needed..]);
      r := clusters[..needed];
      chains := chains[id := r];
    }

    /** Stores `data` along a chain, one zero-padded piece a cluster. */
    method WriteChainData(c: Chain, data: seq<byte>)
      requires Shape() && IsChain(g.ft, Table(), c) && Distinct(c)
      requires Times(|c| - 1, g.ClusterSize()) <= |data|
      modifies `dirty
      ensures Shape() && Table() == old(Table())
      ensures Readable(g, Image(), c)
      ensures ChainBytes(g, Image(), c) == PadTake(data, Times(|c|, g.ClusterSize()))
      ensures OthersKept(g, old(Image()), Image(), Members(c))
    {
      hide *;
      ghost var img, t := Image(), Table();
      ShapeFits();
      PiecesStart(g, img, t, c, data);
      for i := 0 to |c|
        invariant Shape() && Table() == t
        invariant PiecesWritten(g, img, Image(), c, i, data)
      {
        var size := g.ClusterSize();
        TimesMonotone(i, |c| - 1, size);
        PieceStep(g, img, Image(), c, i, data);
        var off := Times(i, size);
        var n := if off + size > |data| then |data| - off else size;
        var buf := Splice(Zeros(size), 0, data[off..off + n]);
        PieceIsCopy(data, i, size);
        WriteCluster(c[i], buf);
      }
      PiecesDone(g, img, Image(), c, data);
    }

    /** Rewrites the 32-byte slot of `e` inside its directory cluster. */
    method WriteDirEntry(e: DirEntry)
      requires Shape() && 2 <= e.dirCluster < g.cntClusters + 2
      requires e.dirOffset + 32 <= g.ClusterSize() && |e.short.shortName| == 11
      modifies `dirty
      ensures Shape() && Table() == old(Table())
      ensures SlotWritten(g, old(Image()), Image(), e.dirCluster, e.dirOffset, Encode(e.short))
    {
      hide *;
      ghost var img := Image();
      ShapeFits();
      var r := ReadCluster(e.dirCluster);
      ClusterBytesLength(g, img, e.dirCluster);
      SlotStep(g, img, e.dirCluster, e.dirOffset, Encode(e.short));
      WriteCluster(e.dirCluster, Splice(r.value, e.dirOffset, Encode(e.short)));
    }

    /** The chain of `e`, allocated if it has none. */
    method OpenChain(e: DirEntry, ghost id: nat) returns (ok: bool, r: Chain)
      requires Valid() && OwnsChain(chains, id, e.short.cluster)
      modifies fat1, `chains, e
      ensures Valid() && e.short == old(e.short).(cluster := e.short.cluster) && (old(e.short).InRange() ==> e.short.InRange())
      ensures !ok ==> Full(Table()) && chains == old(chains)
      ensures ok ==> chains == old(chains)[id := r] && OwnsChain(chains, id, e.short.cluster) && e.short.cluster >= 2
      ensures ok && id in old(chains) ==> r == old(chains[id])
      ensures ok <==> 1 <= Clusters(old(chains), id) + Spare(old(Table()))
      ensures ok ==> |r| + Spare(Table()) == Clusters(old(chains), id) + Spare(old(Table()))
    {
      hide Inv, Shape, LowestFree, Table, Distinct, Full;
      FullIsNoSpare(Table());
      ghost var s := Abs();
      if e.short.cluster < 2 {
        var first := AllocCluster();
        if first.None? {
          return false, [];
        }
        AllocStep(s, id, first.value);
        OneTaken(s.t, first.value, EocValue(s.ft));
        assert 2 <= first.value < 0x1_0000_0000 by {
          LowestFreeIsCluster(s.t, first.value);
          ShapeBounds();
        }
        e.short := e.short.(cluster := first.value);
        r := [first.value];
        chains := chains[id := r];
      } else {
        FileChain(s, id);
        ChainIsTrace(g.ft, Table(), chains[id]);
        r := ClusterChain(e.short.cluster, chains[id]);
        assert chains == chains[id := r];
      }
      ok := true;
    }

    /** Gives `e` a chain of exactly `needed` clusters, unless the disk fills up. */
    method FitChain(e: DirEntry, needed: nat, ghost id: nat) returns (ok: bool, r: Chain)
      requires Valid() && OwnsChain(chains, id, e.short.cluster) && needed > 0
      modifies fat1, `chains, e
      ensures Valid() && e.short == old(e.short).(cluster := e.short.cluster) && (old(e.short).InRange() ==> e.short.InRange())
      ensures !ok ==> Full(Table()) && OnlyExtended(old(chains), chains, id)
      ensures ok ==> |r| == needed && chains == old(chains)[id := r] && r[0] == e.short.cluster
      ensures ok <==> needed <= Clusters(old(chains), id) + Spare(old(Table()))
    {
      hide Inv, Shape, Table, Full;
      ok, r := OpenChain(e, id);
      if ok {
        ok, r := GrowChain(r, needed, id);
        if ok && |r| > needed {
          r := ShrinkChain(r, needed, id);
        }
      }
    }

    /** Makes `data` the content of file `id`, growing or shrinking its chain, then updates its directory
        slot. It succeeds exactly if the file's clusters and the free ones are enough. A size of 2^32 bytes or more wraps,
        as the 32-bit size field does. */
    method WriteFileData(e: DirEntry, data: seq<byte>, date: nat, time: nat, ghost id: nat, ghost dirId: nat) returns (ok: bool)
      requires Valid() && OwnsChain(chains, id, e.short.cluster)
      requires dirId in chains && dirId != id && e.dirCluster in chains[dirId]
      requires e.dirOffset + 32 <= g.ClusterSize() && |e.short.shortName| == 11
      modifies fat1, `dirty, `chains, e
      ensures Valid()
      ensures ok <==> Needed(|data| % 0x1_0000_0000, g.ClusterSize()) <= Clusters(old(chains), id) + Spare(old(Table()))
      ensures !ok ==> Full(Table()) && dirty == old(dirty) && OnlyExtended(old(chains), chains, id)
      ensures ok ==> id in chains && chains == old(chains)[id := chains[id]] && FileHolds(g, Image(), chains[id], e.short, data)
      ensures e.short == if ok then old(e.short).(cluster := chains[id][0], size := |data| % 0x1_0000_0000, wrtDate := date, wrtTime := time)
                         else old(e.short).(cluster := e.short.cluster)
      ensures ok ==> FileWritten(g, old(Image()), Image(), Members(chains[id]), e.dirCluster, e.dirOffset, Encode(e.short))
      ensures ok && old(e.short).InRange() && date < 0x1_0000 && time < 0x1_0000 ==>
                SlotShows(g, Image(), e.dirCluster, e.dirOffset, e.short)
    {
      hide *;
      var size := |data| % 0x1_0000_0000;
      var needed := Needed(size, g.ClusterSize());
      var c: Chain;
      ValidFacts();
      ShapeFits();
      ok, c := FitChain(e, needed, id);
      if ok {
        StoreFile(e, data, c, size, date, time, id, dirId);
      }
    }

    /** Fills the clusters of the chain and rewrites the slot. */
    method StoreFile(e: DirEntry, data: seq<byte>, c: Chain, size: nat, date: nat, time: nat, ghost id: nat, ghost dirId: nat)
      requires Valid() && id in chains && chains[id] == c && |c| == Needed(size, g.ClusterSize()) && c[0] == e.short.cluster
      requires size == |data| % 0x1_0000_0000 && dirId in chains && dirId != id && e.dirCluster in chains[dirId]
      requires e.dirOffset + 32 <= g.ClusterSize() && |e.short.shortName| == 11
      modifies `dirty, e
      ensures Valid() && Table() == old(Table())
      ensures e.short == old(e.short).(size := size, wrtDate := date, wrtTime := time)
      ensures FileHolds(g, Image(), c, e.short, data)
      ensures FileWritten(g, old(Image()), Image(), Members(c), e.dirCluster, e.dirOffset, Encode(e.short))
      ensures old(e.short).InRange() && date < 0x1_0000 && time < 0x1_0000 ==>
                SlotShows(g, Image(), e.dirCluster, e.dirOffset, e.short)
    {
      hide *;
      ghost var img := Image();
      ValidFacts();
      ShapeFits();
      ghost var s := State(g.ft, Table(), chains, lost);
      FileChain(s, id);
      SlotApart(s, id, dirId, e.dirCluster);
      WriteChainData(c, data);
      ghost var mid := Image();
      StaysInRange(e.short, size, date, time);
      e.short := e.short.(size := size, wrtDate := date, wrtTime := time);
      WriteDirEntry(e);
      FileWrittenBy(g, img, mid, Image(), c, e.dirCluster, e.dirOffset, Encode(e.short));
      PadTakeTwice(data, Times(|c|, g.ClusterSize()), size);
      HoldsNow(g, Image(), c, e.short, data);
      if e.short.InRange() { SlotDecodes(g, img, Image(), Members(c), e.dirCluster, e.dirOffset, e.short); }
      ValidFacts();
    }

    /** Writes every FAT copy, then the staged sectors in any order, and then, over whatever is there, the FAT32
        statistics into sectors 1 and 7. With at least eight reserved sectors that is a proper flush. */
    method Flush() returns (ghost clean: seq<seq<byte>>)
      requires Shape() && (g.ft == FAT32 ==> |disk| >= 8 && g.bytesPerSec >= 512)
      modifies `disk, `dirty
      ensures Shape() && dirty == map[] && Table() == old(Table()) && |disk| == |clean| == |old(disk)|
      ensures Flushed(g, old(Image()), clean, fat1[..]) && SectorsSized(g, clean)
      ensures disk == if g.ft == FAT32 then clean[1 := disk[1]][7 := disk[7]] else clean
      ensures g.ft == FAT32 ==> FsInfo(disk[1], Table()) && disk[7] == disk[1]
      ensures g.ft != FAT32 || g.rsvdSecCnt >= 8 ==> Flushed(g, old(Image()), disk, fat1[..])
    {
      ghost var img := Image();
      var d := FlushSectors(g, disk, dirty, fat1[..]);
      clean := d;
      if g.ft == FAT32 {
        var sec := FsInfoSector();
        InfoExact(g, img, d, fat1[..], sec);
        d := d[1 := sec][7 := sec];
      }
      hide Flushed, FsInfo, Image;
      disk, dirty := d, map[];
    }

    /** A volume fresh from its image: the geometry of the boot sector, the first FAT copy, nothing staged. */
    ghost predicate MountedFrom(image: seq<byte>)
      reads `disk, `dirty, fat1
    {
      && GeometryOf(image) == Some(g) && g.bytesPerSec > 0 && disk == SectorsOf(image, g.bytesPerSec) && dirty == map[]
      && (Shape() <==> g.Fits(|disk|)) && CopyAt(disk, g.rsvdSecCnt, g.fatSz, fat1[..])
    }

    /** The geometry is the one the boot sector of the device says. */
    ghost predicate BootedFrom()
      reads `disk
    {
      |disk| > 0 && |disk[0]| >= 512 && g.rsvdSecCnt >= 1 && Derive(ReadBpb(disk[0])) == Some(g)
    }

    /** Unmounting and mounting the bytes of the device again: a fresh mount derives the same geometry from the boot
        sector and, unless FSInfo sectors are not reserved, has the same table, files and cluster contents. */
    method Remount() returns (v: Option<Volume>)
      requires Valid() && BootedFrom() && (g.ft == FAT32 ==> |disk| >= 8)
      modifies `disk, `dirty
      ensures v.Some? && v.value.g == g && v.value.Shape() && v.value.BootedFrom()
      ensures g.ft != FAT32 || g.rsvdSecCnt >= 8 ==> v.value.Valid() && v.value.Abs() == old(Abs()) && SameClusters(g, old(Image()), v.value.Image())
    {
      hide *;
      ghost var img := Image();
      BootIs();
      ghost var clean := Flush();
      Parts();
      BootKept(g, img, clean, fat1[..]);
      RemountedBytes(g, img, disk);
      v := Mount(Concat(disk), chains, lost);
      Alike(v.value, img);
      if g.ft != FAT32 || g.rsvdSecCnt >= 8 {
        FlushedFacts(g, img, disk, fat1[..]);
        SameState(v.value, img);
      }
    }

    lemma BootIs()
      requires Valid() && BootedFrom()
      ensures Shape() && Booted(g, Image()) && g.bytesPerSec >= 512
      ensures Inv(State(g.ft, Table(), chains, lost)) && Abs() == State(g.ft, Table(), chains, lost)
    {
      hide Inv, Derive, ReadBpb;
      assert |disk[0]| == g.bytesPerSec;
    }

    lemma Parts()
      requires Shape()
      ensures g.Fits(|disk|) && SectorsSized(g, disk) && Abs() == State(g.ft, Table(), chains, lost)
    {
    }

    /** The volume mounted from the bytes of this one, after a flush of what was `img`. */
    lemma Alike(v: Volume, img: seq<seq<byte>>)
      requires Shape() && Booted(g, img) && v.MountedFrom(Concat(disk))
      requires GeometryOf(Concat(disk)) == Some(g) && SectorsOf(Concat(disk), g.bytesPerSec) == disk && |disk| == |img| && disk[0] == img[0]
      ensures v.g == g && v.Shape() && v.BootedFrom() && v.Image() == disk && CopyAt(disk, g.rsvdSecCnt, g.fatSz, v.fat1[..])
    {
      hide GeometryOf, SectorsOf, Derive, ReadBpb, Concat, Chop;
      assert v.Image() == disk;
    }

    lemma SameState(v: Volume, img: seq<seq<byte>>)
      requires Shape() && Inv(State(g.ft, Table(), chains, lost)) && v.g == g && v.Shape() && v.chains == chains && v.lost == lost
      requires CopyAt(disk, g.rsvdSecCnt, g.fatSz, v.fat1[..]) && CopyAt(disk, g.rsvdSecCnt, g.fatSz, fat1[..])
      ensures v.Valid() && v.Abs() == State(g.ft, Table(), chains, lost)
    {
      hide Inv, View, Concat;
      assert v.fat1[..] == fat1[..];
    }

    /** The FSInfo sector for the current table. */
    method FsInfoSector() returns (sec: seq<byte>)
      requires Shape() && g.bytesPerSec >= 512
      ensures |sec| == g.bytesPerSec && (g.ft == FAT32 ==> FsInfo(sec, Table()))
    {
      var free, hint, n: nat := 0, 0xFFFF_FFFF, 2;
      ghost var t := Table();
      while n < g.cntClusters + 2
        invariant 2 <= n <= g.cntClusters + 2
        invariant free == |FreeBelow(t, n)| && free <= n - 2
        invariant if FreeBelow(t, n) == {} then hint == 0xFFFF_FFFF else hint < n && LowestFree(t, hint)
      {
        FreeBelowStep(t, n);
        if FatEntry(n) == 0 {
          free := free + 1;
          if hint == 0xFFFF_FFFF {
            hint := n;
          }
        }
        n := n + 1;
      }
      sec := InfoBytes(g.bytesPerSec, free, hint);
      InfoBytesHold(g.bytesPerSec, free, hint, t);
    }

    /** Reads a file: `size` bytes along the walk from its first cluster, zero beyond a walk that ends too early. */
    method ReadAllClusters(first: nat, size: nat, ghost c: Chain) returns (buf: seq<byte>)
      requires Shape() && IsTrace(g.ft, Table(), first, c)
      requires Complete(g.ft, Table(), first, c) || size <= Times(|c|, g.ClusterSize())
      ensures Readable(g, Image(), c)
      ensures buf == PadTake(ChainBytes(g, Image(), c), size)
    {
      hide *;
      ghost var img := Image();
      ShapeFits();
      ReadStart(g, img, Table(), c, first, size);
      if size == 0 {
        return [];
      }
      buf := Zeros(size);
      var off, cur: nat := 0, first;
      ghost var k := 0;
      TraceStart(g.ft, Table(), first, c, size, g.ClusterSize());
      while cur >= 2 && off < size
        invariant k <= |c| && ReadSoFar(g, img, c, k, size, buf, off)
        invariant k < |c| ==> cur == c[k]
        invariant k == |c| ==> cur < 2 || off >= size
        decreases size - off
      {
        var r := ReadCluster(cur);
        var clus := r.value;
        ReadStep(g, img, c, k, size, buf, off);
        TraceNext(g.ft, Table(), first, c, k);
        var n := if off + |clus| > size then size - off else |clus|;
        buf := Splice(buf, off, clus[..n]);
        off := off + n;
        var next := FatEntry(cur);
        k := k + 1;
        if k == |c| && !Complete(g.ft, Table(), first, c) { ReadEnough(g, img, c, size, buf, off); }
        if IsEoc(g.ft, next) {
          break;
        }
        cur := next;
      }
      ReadDone(g, img, c, k, size, buf, off);
    }
  }

  /** A device image cut into whole sectors. */
  function SectorsOf(image: seq<byte>, size: nat): (r: seq<seq<byte>>)
    requires size > 0
    ensures |r| == SectorCount(image, size) && forall s :: 0 <= s < |r| ==> |r[s]| == size
  {
    WholeSectors(|image|, size);
    Chop(image[..Times(SectorCount(image, size), size)], size, SectorCount(image, size))
  }

  function SectorCount(image: seq<byte>, size: nat): nat
    requires size > 0
  {
    |image| / size
  }

  lemma WholeSectors(n: nat, size: nat)
    requires size > 0
    ensures Times(n / size, size) <= n
  {
    TimesIsProduct(n / size, size);
  }

  /** Gluing sectors together and cutting the bytes again gives the sectors. */
  lemma WholeDevice(disk: seq<seq<byte>>, size: nat)
    requires size >= 512 && |disk| > 0 && forall s :: 0 <= s < |disk| ==> |disk[s]| == size
    ensures |Concat(disk)| >= 512 && Concat(disk)[..512] == disk[0][..512]
    ensures SectorCount(Concat(disk), size) == |disk| && SectorsOf(Concat(disk), size) == disk
  {
    ChopConcat(disk, size);
    TimesIsProduct(|disk|, size);
    DivMod(|disk|, 0, size);
    var image := Concat(disk);
    assert image[..|image|] == image;
    assert image == disk[0] + Concat(disk[1..]);
  }

  /** The geometry an image's boot sector names, if it has one. */
  function GeometryOf(image: seq<byte>): (g: Option<Geometry>)
    ensures g.Some? ==> g.value.bytesPerSec > 0
  {
    if |image| < 512 then None else Derive(ReadBpb(image))
  }

  /** The first sector of a device is a boot sector that names this geometry. */
  ghost predicate Booted(g: Geometry, img: seq<seq<byte>>) {
    |img| > 0 && |img[0]| >= 512 && g.rsvdSecCnt >= 1 && Derive(ReadBpb(img[0])) == Some(g)
  }

  lemma BootKept(g: Geometry, img: seq<seq<byte>>, disk: seq<seq<byte>>, fat: seq<byte>)
    requires Flushed(g, img, disk, fat) && Booted(g, img)
    ensures |disk| == |img| > 0 && disk[0] == img[0] && |disk[0]| >= 512
  {
    hide Derive, ReadBpb, CopyAt;
  }

  /** The bytes of a device with the same boot sector: cut into sectors they are the device again, and the boot sector names
      the same geometry. */
  lemma RemountedBytes(g: Geometry, img: seq<seq<byte>>, disk: seq<seq<byte>>)
    requires Booted(g, img) && |disk| == |img| && disk[0] == img[0] && g.Fits(|disk|) && SectorsSized(g, disk)
    ensures GeometryOf(Concat(disk)) == Some(g) && FatOn(g, Concat(disk)) && SectorsOf(Concat(disk), g.bytesPerSec) == disk
  {
    SizedFacts(g, disk);
    hide *;
    WholeDevice(disk, g.bytesPerSec);
    SameBpb(Concat(disk), img[0]);
    NamesGeometry(g, Concat(disk), img[0]);
    FatInside(g, Concat(disk), |disk|);
  }

  lemma FlushedFacts(g: Geometry, img: seq<seq<byte>>, disk: seq<seq<byte>>, fat: seq<byte>)
    requires Flushed(g, img, disk, fat) && g.Fits(|disk|)
    ensures CopyAt(disk, g.rsvdSecCnt, g.fatSz, fat) && SameClusters(g, img, disk)
  {
    hide CopyAt, SameClusters, Concat;
    FirstCopy(g, img, disk, fat);
    ClustersSurvive(g, img, disk, fat);
  }

  lemma SizedFacts(g: Geometry, disk: seq<seq<byte>>)
    requires g.Fits(|disk|) && SectorsSized(g, disk) && |disk| > 0 && |disk[0]| >= 512
    ensures g.bytesPerSec >= 512 && g.numFATs > 0 && forall s :: 0 <= s < |disk| ==> |disk[s]| == g.bytesPerSec
  {
  }

  lemma NamesGeometry(g: Geometry, image: seq<byte>, boot: seq<byte>)
    requires |image| >= 512 && |boot| >= 512 && ReadBpb(image) == ReadBpb(boot) && Derive(ReadBpb(boot)) == Some(g)
    ensures GeometryOf(image) == Some(g)
  {
    hide ReadBpb, Derive;
  }

  /** The first FAT copy lies on the image. */
  ghost predicate FatOn(g: Geometry, image: seq<byte>)
    requires g.bytesPerSec > 0
  {
    Times(g.rsvdSecCnt, g.bytesPerSec) < |image| && g.rsvdSecCnt + g.fatSz <= SectorCount(image, g.bytesPerSec)
  }

  lemma FatInside(g: Geometry, image: seq<byte>, n: nat)
    requires g.bytesPerSec > 0 && SectorCount(image, g.bytesPerSec) == n && g.Fits(n)
    ensures FatOn(g, image)
  {
    TimesMonotone(1, g.numFATs, g.fatSz);
    WholeSectors(|image|, g.bytesPerSec);
    TimesMonotone(g.rsvdSecCnt + 1, n, g.bytesPerSec);
  }

  /** Mounts an image: the geometry comes from its boot sector, the table from its first FAT copy. Fails on an image
      without a boot sector or with one that names no sector or cluster size, and where the first copy is not on the image.
      Nothing else is checked; the volume is fit for use exactly if its geometry fits. */
  method Mount(image: seq<byte>, ghost chains: map<nat, Chain>, ghost lost: set<nat>) returns (r: Option<Volume>)
    ensures r.Some? <==> GeometryOf(image).Some? && FatOn(GeometryOf(image).value, image)
    ensures r.Some? ==> r.value.MountedFrom(image) && r.value.chains == chains && r.value.lost == lost
    ensures r.Some? ==> fresh(r.value) && fresh(r.value.fat1)
  {
    hide Derive, ReadBpb, Times;
    if |image| < 512 {
      return None;
    }
    var g := Derive(ReadBpb(image));
    if g.None? {
      return None;
    }
    var size := g.value.bytesPerSec;
    if Times(g.value.rsvdSecCnt, size) >= |image| || g.value.rsvdSecCnt + g.value.fatSz > SectorCount(image, size) {
      return None;
    }
    var v := new Volume(g.value, SectorsOf(image, size), chains, lost);
    return Some(v);
  }
}
