/** The BPB-derived geometry of a FAT partition. */
module FatGeometry {
  import opened Wrappers
  import opened Bytes
  import opened Chunks
  import opened FatTable

  /** The boot-sector fields the driver reads. */
  datatype Bpb = Bpb(bytesPerSec: nat, secPerClus: nat, rsvdSecCnt: nat, numFATs: nat, rootEntCnt: nat,
                     totSec16: nat, fatSz16: nat, fatSz32: nat, rootClus: nat, totSec32: nat)
  {
    predicate InRange() {
      && bytesPerSec < 0x1_0000 && secPerClus < 0x100 && rsvdSecCnt < 0x1_0000 && numFATs < 0x100
      && rootEntCnt < 0x1_0000 && totSec16 < 0x1_0000 && fatSz16 < 0x1_0000
      && fatSz32 < 0x1_0000_0000 && rootClus < 0x1_0000_0000 && totSec32 < 0x1_0000_0000
    }
  }

  datatype Geometry = Geometry(ft: FatType, bytesPerSec: nat, secPerClus: nat, rsvdSecCnt: nat, numFATs: nat,
                               fatSz: nat, rootDirSec: nat, firstDataSec: nat, cntClusters: nat)
  {
    function ClusterSize(): nat {
      Times(secPerClus, bytesPerSec)
    }

    /** First sector after the last FAT copy. */
    function FatEnd(): nat {
      rsvdSecCnt + Times(numFATs, fatSz)
    }

    function ClusterSec(n: nat): nat
      requires n >= 2
    {
      firstDataSec + Times(n - 2, secPerClus)
    }

    /** What the driver relies on: the FAT holds an entry for every cluster, no cluster number reaches
        the end-of-chain marks, and the clusters lie on the device. */
    ghost predicate Fits(sectors: nat) {
      && bytesPerSec > 0 && secPerClus > 0 && numFATs > 0
      && cntClusters + 2 <= Modulus(ft) - 8
      && EntryOffset(ft, cntClusters + 1) + EntryWidth(ft) <= Times(fatSz, bytesPerSec)
      && FatEnd() + rootDirSec == firstDataSec
      && firstDataSec + Times(cntClusters, secPerClus) <= sectors
    }
  }

  /** A boot sector written out field by field; what the driver does not read is left to the caller. */
  function BootBytes(b: Bpb, jump: seq<byte>, media: byte, tracks: seq<byte>, flags: seq<byte>, rest: seq<byte>): (r: seq<byte>)
    requires b.InRange() && |jump| == 11 && |tracks| == 8 && |flags| == 4
    ensures |r| == 48 + |rest|
  {
    jump + Put16(b.bytesPerSec) + [b.secPerClus] + Put16(b.rsvdSecCnt) + [b.numFATs] + Put16(b.rootEntCnt) + Put16(b.totSec16)
    + [media] + Put16(b.fatSz16) + tracks + Put32(b.totSec32) + Put32(b.fatSz32) + flags + Put32(b.rootClus) + rest
  }

  /** The driver reads back every field. */
  lemma BootReads(b: Bpb, jump: seq<byte>, media: byte, tracks: seq<byte>, flags: seq<byte>, rest: seq<byte>)
    requires b.InRange() && |jump| == 11 && |tracks| == 8 && |flags| == 4 && 48 + |rest| >= 512
    ensures ReadBpb(BootBytes(b, jump, media, tracks, flags, rest)) == b
  {
    hide Put16, Put32, Le16, Le32;
    var r := BootBytes(b, jump, media, tracks, flags, rest);
    HalfAt(r, 11, Put16(b.bytesPerSec));
    HalfAt(r, 14, Put16(b.rsvdSecCnt));
    HalfAt(r, 17, Put16(b.rootEntCnt));
    HalfAt(r, 19, Put16(b.totSec16));
    HalfAt(r, 22, Put16(b.fatSz16));
    WordAt(r, 32, Put32(b.totSec32));
    WordAt(r, 36, Put32(b.fatSz32));
    WordAt(r, 44, Put32(b.rootClus));
  }

  function U32(x: int): nat {
    x % 0x1_0000_0000
  }

  /** The derived fields, computed in uint32 arithmetic as the driver does. */
  function Derive(b: Bpb): (g: Option<Geometry>)
    ensures g.Some? ==> g.value.bytesPerSec > 0 && g.value.secPerClus > 0
  {
    if b.bytesPerSec == 0 || b.secPerClus == 0 then None
    else
      var fatSz := if b.fatSz16 != 0 then b.fatSz16 else b.fatSz32;
      var totSec := if b.totSec16 != 0 then b.totSec16 else b.totSec32;
      var rootDirSec := (b.rootEntCnt * 32 + b.bytesPerSec - 1) / b.bytesPerSec;
      var firstDataSec := U32(b.rsvdSecCnt + U32(b.numFATs * fatSz) + rootDirSec);
      var cnt := U32(totSec - firstDataSec) / b.secPerClus;
      var ft := if cnt < 4085 then FAT12 else if cnt < 65525 then FAT16 else FAT32;
      Some(Geometry(ft, b.bytesPerSec, b.secPerClus, b.rsvdSecCnt, b.numFATs, fatSz, rootDirSec, firstDataSec, cnt))
  }

  /** What is derived of a boot sector whose areas fit: the root directory has the fewest sectors that hold its entries, there are
      as many clusters as fit behind it, and their number alone decides about the type: up to 4084 FAT12, up to 65524 FAT16. */
  lemma DerivedExact(b: Bpb)
    requires b.InRange() && Derive(b).Some? && FrontSectors(b) <= TotalSectors(b)
    ensures var g := Derive(b).value;
            && g.bytesPerSec == b.bytesPerSec && g.secPerClus == b.secPerClus && g.rsvdSecCnt == b.rsvdSecCnt && g.numFATs == b.numFATs
            && g.fatSz == (if b.fatSz16 != 0 then b.fatSz16 else b.fatSz32)
            && b.rootEntCnt * 32 <= g.rootDirSec * b.bytesPerSec < b.rootEntCnt * 32 + b.bytesPerSec
            && g.firstDataSec == b.rsvdSecCnt + b.numFATs * g.fatSz + g.rootDirSec
            && g.firstDataSec + g.cntClusters * b.secPerClus <= TotalSectors(b) < g.firstDataSec + (g.cntClusters + 1) * b.secPerClus
            && (g.ft == FAT12 <==> g.cntClusters <= 4084) && (g.ft == FAT16 <==> 4085 <= g.cntClusters <= 65524)
  {
    var g, tot := Derive(b).value, TotalSectors(b);
    U32Small(b.numFATs * g.fatSz);
    U32Small(b.rsvdSecCnt + b.numFATs * g.fatSz + g.rootDirSec);
    U32Small(tot - g.firstDataSec);
    hide U32;
    CeilOf(b.rootEntCnt * 32, b.bytesPerSec, g.rootDirSec);
    FloorOf(tot - g.firstDataSec, b.secPerClus, g.cntClusters);
  }

  lemma CeilOf(x: nat, d: nat, c: nat)
    requires d > 0 && c == (x + d - 1) / d
    ensures x <= c * d < x + d
  {
    hide *;
    assert x + d - 1 == d * c + (x + d - 1) % d;
  }

  lemma FloorOf(x: nat, d: nat, q: nat)
    requires d > 0 && q == x / d
    ensures q * d <= x < (q + 1) * d
  {
    hide *;
    assert x == d * q + x % d;
    assert (q + 1) * d == q * d + d;
  }

  /** The type thresholds keep every FAT12 and FAT16 cluster number below the end-of-chain marks;
      on FAT32 that is so exactly when the volume has at most 0x0FFFFFF6 clusters. */
  lemma NoClusterLooksLikeEoc(b: Bpb)
    requires Derive(b).Some?
    ensures var g := Derive(b).value;
            (forall n :: 2 <= n < g.cntClusters + 2 ==> !IsEoc(g.ft, n)) <==> (g.ft == FAT32 ==> g.cntClusters <= 0x0FFF_FFF6)
  {
    var g := Derive(b).value;
    if g.ft == FAT32 && g.cntClusters > 0x0FFF_FFF6 {
      assert IsEoc(g.ft, g.cntClusters + 1);
    }
  }

  function TotalSectors(b: Bpb): nat {
    if b.totSec16 != 0 then b.totSec16 else b.totSec32
  }

  /** Sectors in front of the first cluster. */
  function FrontSectors(b: Bpb): nat
    requires Derive(b).Some?
  {
    b.rsvdSecCnt + b.numFATs * Derive(b).value.fatSz + Derive(b).value.rootDirSec
  }

  /** The derived areas lie one behind the other inside the volume if and only if the areas in front of the data fit the
      sector count; otherwise the 32-bit subtraction wraps around. */
  lemma DerivedClustersFit(b: Bpb)
    requires b.InRange() && Derive(b).Some?
    ensures var g := Derive(b).value;
            g.FatEnd() + g.rootDirSec == g.firstDataSec && g.firstDataSec + Times(g.cntClusters, g.secPerClus) <= TotalSectors(b)
            <==> FrontSectors(b) <= TotalSectors(b)
  {
    hide U32, Times;
    var g, tot := Derive(b).value, TotalSectors(b);
    TimesIsProduct(g.numFATs, g.fatSz);
    TimesIsProduct(g.cntClusters, g.secPerClus);
    var copies := b.numFATs * g.fatSz;
    if FrontSectors(b) <= tot {
      U32Small(copies);
      U32Small(b.rsvdSecCnt + copies + g.rootDirSec);
      U32Small(tot - g.firstDataSec);
    }
  }

  /** A boot sector that reserves 100 of 10 sectors: the driver derives some four thousand million clusters. */
  lemma FrontTooLarge()
    ensures var b := Bpb(512, 1, 100, 2, 0, 0, 0, 1, 2, 10);
            && b.InRange() && Derive(b).Some? && FrontSectors(b) > TotalSectors(b)
            && Derive(b).value.cntClusters == 0x1_0000_0000 - 92
  {
  }

  /** What has to be true of a boot sector for everything the driver relies on. */
  ghost predicate Usable(b: Bpb, sectors: nat) {
    && b.InRange() && Derive(b).Some?
    && var g := Derive(b).value;
       && b.numFATs > 0 && FrontSectors(b) <= TotalSectors(b) <= sectors
       && EntryOffset(g.ft, g.cntClusters + 1) + EntryWidth(g.ft) <= Times(g.fatSz, g.bytesPerSec)
       && (g.ft == FAT32 ==> g.cntClusters <= 0x0FFF_FFF6)
  }

  /** The geometry derived from such a boot sector fits the device. */
  lemma DerivedFits(b: Bpb, sectors: nat)
    requires Usable(b, sectors)
    ensures Derive(b).value.Fits(sectors)
  {
    DerivedClustersFit(b);
    hide U32, Times, EntryOffset, EntryWidth;
  }

  /** The boot sector fields at their offsets. */
  function ReadBpb(boot: seq<byte>): (b: Bpb)
    requires |boot| >= 512
    ensures b.InRange()
  {
    Bpb(Le16(boot, 11), boot[13], Le16(boot, 14), boot[16], Le16(boot, 17), Le16(boot, 19), Le16(boot, 22), Le32(boot, 36),
        Le32(boot, 44), Le32(boot, 32))
  }

  /** Only the boot sector counts. */
  lemma SameBpb(a: seq<byte>, b: seq<byte>)
    requires |a| >= 512 && |b| >= 512 && a[..512] == b[..512]
    ensures ReadBpb(a) == ReadBpb(b)
  {
    assert forall i :: 0 <= i < 512 ==> a[i] == a[..512][i] == b[..512][i] == b[i];
  }

  lemma U32Small(x: int)
    requires 0 <= x < 0x1_0000_0000
    ensures U32(x) == x
  {
  }

  /** The sectors of different clusters do not overlap. */
  lemma ClustersApart(g: Geometry, n: nat, m: nat)
    requires n >= 2 && m >= 2 && n != m
    ensures g.ClusterSec(n) + g.secPerClus <= g.ClusterSec(m) || g.ClusterSec(m) + g.secPerClus <= g.ClusterSec(n)
  {
    if n < m { TimesMonotone(n - 2, m - 2, g.secPerClus); } else { TimesMonotone(m - 2, n - 2, g.secPerClus); }
  }

  lemma ClusterOnDevice(g: Geometry, sectors: nat, n: nat)
    requires g.Fits(sectors) && 2 <= n < g.cntClusters + 2
    ensures g.firstDataSec <= g.ClusterSec(n) && g.ClusterSec(n) + g.secPerClus <= sectors
  {
    TimesMonotone(n - 2, g.cntClusters, g.secPerClus);
  }

  /** A FAT32 volume of one-sector clusters with too many of them: cluster 0x0FFFFFF8 exists and is an end mark. */
  lemma TooManyClusters()
    ensures var b := Bpb(512, 1, 32, 2, 0, 0, 0, 0x20_0000, 2, 0x1040_0017);
            && b.InRange() && Derive(b).Some? && Derive(b).value.ft == FAT32
            && Derive(b).value.cntClusters == 0x0FFF_FFF7 && IsEoc(FAT32, Derive(b).value.cntClusters + 1)
  {
  }
}
