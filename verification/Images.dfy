/** Disk images: attached by their partition table, cut into regions, and copied region by region. */
module Images {
  import opened Wrappers
  import opened Bytes
  import opened Regions
  import G = Gpt
  import M = Mbr

  datatype Image = Image(isGPT: bool, spans: seq<Span>, regions: seq<Region>)

  /** The partitions a GPT lists, if there is one. */
  ghost function GptParts(disk: seq<byte>): seq<G.Found> {
    if G.Readable(disk) then G.Collect(G.Area(disk), 0, Le32(disk, 592), Le32(disk, 596)) else []
  }

  /** A partition's bytes, its end computed in 64 bits. */
  function SpanOf(index: nat, start: int, size: int): Span {
    Span(start, AsInt64(start + size), index)
  }

  function GptSpans(parts: seq<G.Found>): (s: seq<Span>)
    ensures |s| == |parts| && forall i :: 0 <= i < |s| ==> s[i] == SpanOf(parts[i].index, parts[i].start, parts[i].size)
  {
    seq(|parts|, i requires 0 <= i < |parts| => SpanOf(parts[i].index, parts[i].start, parts[i].size))
  }

  function MbrSpans(parts: seq<M.Part>): (s: seq<Span>)
    ensures |s| == |parts| && forall i :: 0 <= i < |s| ==> s[i] == SpanOf(parts[i].index, parts[i].start, parts[i].size)
  {
    seq(|parts|, i requires 0 <= i < |parts| => SpanOf(parts[i].index, parts[i].start, parts[i].size))
  }

  /** The partitions of an image: those of the GPT, else those of the MBR, else the whole of it. */
  ghost function SpansOn(disk: seq<byte>): seq<Span>
    requires |disk| >= 512
  {
    if GptParts(disk) != [] then GptSpans(GptParts(disk))
    else if M.Partitions(disk) != [] then MbrSpans(M.Partitions(disk))
    else [SpanOf(1, 0, |disk|)]
  }

  /** A GPT is announced but cannot be read, or there is no boot sector. */
  ghost predicate Unreadable(disk: seq<byte>) {
    |disk| < 512 || (G.Protective(disk) && !G.Readable(disk))
  }

  /** Parses the partition tables and builds the regions. They cover the image unless one reaches below byte 0. */
  method Attach(disk: seq<byte>) returns (r: Option<Image>, ghost sorted: seq<Span>)
    ensures r.None? <==> Unreadable(disk)
    ensures r.Some? ==> |disk| >= 512 && r.value.spans == SpansOn(disk) && (r.value.isGPT <==> GptParts(disk) != [])
    ensures r.Some? ==> Same(sorted, r.value.spans) && Ordered(sorted) && Parts(r.value.regions) == sorted
    ensures r.Some? ==> (Tiles(r.value.regions, 0, |disk|) <==> Chained(sorted, r.value.isGPT) && Reach(r.value.isGPT, sorted) <= Limit(|disk|, r.value.isGPT))
    ensures r.Some? ==> NoneBad(r.value.regions) ==> Covers(r.value.regions, |disk|)
  {
    sorted := [];
    var parsed := G.Parse(disk);
    if parsed.Bad? {
      return None, [];
    }
    var mbr := M.Parse(disk);
    var isGPT := parsed.Parsed? && parsed.parts != [];
    var spans := if isGPT then GptSpans(parsed.parts) else MbrSpans(mbr);
    if |spans| == 0 {
      spans := [SpanOf(1, 0, |disk|)];
    }
    assert spans == SpansOn(disk) && (isGPT <==> GptParts(disk) != []);
    hide *;
    var rs;
    rs, sorted := BuildRegions(spans, |disk|, isGPT);
    r := Some(Image(isGPT, spans, rs));
  }

  /** Writes an image out, region by region: if no read fails, the copy is the image, whatever its partitions are. */
  method Detach(disk: seq<byte>, img: Image) returns (ok: bool, copy: array<byte>)
    requires NoneBad(img.regions) ==> Covers(img.regions, |disk|)
    ensures fresh(copy) && (ok <==> NoneBad(img.regions)) && (ok ==> copy[..] == disk)
  {
    hide *;
    ok, copy := CopyRegions(disk, img.regions);
    if ok {
      CoveredCopy(disk, img.regions, copy[..]);
    }
  }

  lemma CoveredCopy(disk: seq<byte>, rs: seq<Region>, copy: seq<byte>)
    requires Covers(rs, |disk|) && |copy| == |disk| && forall k :: 0 <= k < |disk| ==> copy[k] == if Covered(rs, k) then disk[k] else 0
    ensures copy == disk
  {
    hide Covered;
  }

  /** The byte ranges a commit assigns. */
  ghost function AssignedSpans(parts: seq<G.Part>): (s: seq<Span>)
    ensures |s| == |parts| && forall i :: 0 <= i < |s| ==> s[i] == Span(parts[i].start, parts[i].start + parts[i].size, i + 1)
  {
    seq(|parts|, i requires 0 <= i < |parts| => Span(parts[i].start, parts[i].start + parts[i].size, i + 1))
  }

  lemma {:induction false} ReportedAt(parts: seq<G.Part>, i: nat, k: nat)
    requires i + k <= |parts|
    ensures |G.Reported(parts, i)| == |parts| - i
    ensures i + k < |parts| ==>
      G.Reported(parts, i)[k] == G.Found(i + k + 1, parts[i + k].start, parts[i + k].size, parts[i + k].typeGUID, parts[i + k].name)
    decreases |parts| - i
  {
    hide G.Reported;
    if i == |parts| {
      G.NoneLeft(parts);
    } else {
      G.ReportStep(parts, i);
      ReportedAt(parts, i + 1, if k > 0 then k - 1 else 0);
    }
  }

  lemma ReportedSpans(parts: seq<G.Part>)
    requires G.AllPlaced(parts)
    ensures |G.Reported(parts, 0)| == |parts| && GptSpans(G.Reported(parts, 0)) == AssignedSpans(parts)
  {
    hide G.Reported, AsInt64;
    ReportedAt(parts, 0, 0);
    forall i | 0 <= i < |parts| ensures GptSpans(G.Reported(parts, 0))[i] == AssignedSpans(parts)[i] {
      ReportedAt(parts, 0, i);
      G.PlacedAt(parts, i);
    }
  }

  /** What is attached after a commit: the partitions it assigned. */
  lemma BuiltSpans(disk: seq<byte>, parts: seq<G.Part>)
    requires G.AllPlaced(parts) && G.Primary(disk, G.Table(parts, |parts|)) && G.MbrAt(disk) && |disk| >= 68 * 512
    ensures !Unreadable(disk) && |disk| >= 512 && |GptParts(disk)| == |parts|
    ensures SpansOn(disk) == if parts != [] then AssignedSpans(parts) else [SpanOf(1, 0, |disk|)]
  {
    hide *;
    NoMbrParts(disk);
    G.ParseBack(disk, parts);
    ReportedSpans(parts);
    SpansAre(disk, G.Reported(parts, 0));
  }

  lemma SpansAre(disk: seq<byte>, found: seq<G.Found>)
    requires |disk| >= 512 && G.Readable(disk) && |disk| >= 1024
    requires G.Collect(G.Area(disk), 0, Le32(disk, 592), Le32(disk, 596)) == found && M.Partitions(disk) == []
    ensures !Unreadable(disk) && GptParts(disk) == found
    ensures SpansOn(disk) == if found != [] then GptSpans(found) else [SpanOf(1, 0, |disk|)]
  {
    hide G.Readable, G.Collect, G.Area, Le32, M.Partitions, AsInt64;
  }

  /** The protective entry hides all others. */
  lemma NoMbrParts(disk: seq<byte>)
    requires |disk| >= 68 * 512 && G.MbrAt(disk)
    ensures M.Partitions(disk) == []
  {
    assert M.Protective(disk, 0);
    hide M.Listed;
  }

  /** What is attached of a disk with an ordinary MBR of n partitions: each starts and ends where its entry says, in bytes. */
  lemma MbrAttached(boot: seq<byte>, es: seq<M.Entry>, rest: seq<byte>, n: nat)
    requires |boot| == 446 && |es| == 4 && (forall i :: 0 <= i < 4 ==> M.EntryOk(es[i])) && 1 <= n <= 4
    requires forall i :: 0 <= i < n ==> es[i].kind != 0 && es[i].kind != 0xEE && es[i].count != 0 && es[i].first * 512 < 512 + |rest|
    requires forall i :: n <= i < 4 ==> es[i].kind == 0
    ensures var disk := M.Partitioned(boot, es, rest);
            && !Unreadable(disk) && |SpansOn(disk)| == n && GptParts(disk) == []
            && forall i :: 0 <= i < n ==> SpansOn(disk)[i] == Span(es[i].first * 512, (es[i].first + es[i].count) * 512, i + 1)
  {
    var disk := M.Partitioned(boot, es, rest);
    M.ReadsBack(boot, es, rest);
    M.AllMeant(es, n, |disk|);
    forall i: nat | i < 4 ensures disk[446 + i * 16 + 4] != 0xEE {
      M.EntryReads(boot, es, rest, i);
    }
    hide M.Partitioned, M.Meant, M.Partitions, G.Collect, G.Area, Le32;
    assert !G.Protective(disk);
  }

  /** Assigned partitions are separate, empty ones at the end of the usable range included, and end before the backup header. */
  lemma BuiltSeparate(parts: seq<G.Part>, out: seq<G.Part>, size: nat)
    requires size >= 68 * 512 && G.AllOk(parts) && G.Fit(parts, |parts|, G.LastUsable(size)) && G.AssignedWith(parts, out, G.LastUsable(size))
    ensures Separate(AssignedSpans(out))
    ensures forall i :: 0 <= i < |out| ==> 34 * 512 <= AssignedSpans(out)[i].start && AssignedSpans(out)[i].end <= Limit(size, true)
  {
    var last := G.LastUsable(size);
    var s := AssignedSpans(out);
    forall i | 0 <= i < |s| ensures 34 * 512 <= s[i].start <= s[i].end <= Limit(size, true) {
      G.AssignedApart(parts, i, i, last);
    }
    forall i, j | 0 <= i < j < |s| ensures Disjoint(s[i], s[j]) {
      G.AssignedApart(parts, i, j, last);
      G.EmptyAtEnd(parts, i, j, last);
    }
  }

  /** Hence the regions of such an image tile it. */
  lemma BuiltTiles(spans: seq<Span>, sorted: seq<Span>, size: nat)
    requires Separate(spans) && Same(sorted, spans) && Ordered(sorted) && size >= 68 * 512
    requires forall i :: 0 <= i < |spans| ==> 34 * 512 <= spans[i].start && spans[i].end <= Limit(size, true)
    ensures Chained(sorted, true) && Reach(true, sorted) <= Limit(size, true)
  {
    forall k | 0 <= k < |sorted| ensures 34 * 512 <= sorted[k].start && sorted[k].end <= Limit(size, true) {
      assert sorted[k] in multiset(sorted) && sorted[k] in multiset(spans);
      var i :| 0 <= i < |spans| && spans[i] == sorted[k];
    }
    SortedChained(spans, sorted, true);
  }

  /** Without partitions the image is one region. */
  lemma WholeTiles(sorted: seq<Span>, size: nat)
    requires Same(sorted, [SpanOf(1, 0, size)]) && size < 0x4000_0000_0000_0000
    ensures Chained(sorted, false) && Reach(false, sorted) <= Limit(size, false)
  {
    assert |sorted| == |multiset(sorted)| == 1;
    assert sorted[0] in multiset(sorted);
    assert Follows(sorted, 0, false);
  }

  lemma {:induction false} TilesNoneBad(rs: seq<Region>, to: int)
    requires Tiles(rs, 0, to)
    ensures NoneBad(rs) && to >= 0
  {
    if rs != [] {
      var k := |rs| - 1;
      TilesNoneBad(rs[..k], rs[k].start);
      assert forall i :: 0 <= i < k ==> rs[..k][i] == rs[i];
    }
  }

  /** An image is built, attached and written out: the attached partitions are the assigned ones, their regions tile the
      image, and the copy is the image. */
  method BuildAndDetach(b: G.Builder) returns (ok: bool, img: Image, copy: array<byte>)
    requires G.AllOk(b.parts) && 68 * 512 <= |b.disk| < 0x4000_0000_0000_0000
    modifies b
    ensures fresh(copy) && (ok <==> G.Fit(old(b.parts), |b.parts|, G.LastUsable(|b.disk|)))
    ensures ok ==> G.AssignedWith(old(b.parts), b.parts, G.LastUsable(|b.disk|))
    ensures ok && b.parts != [] ==> img.isGPT && img.spans == AssignedSpans(b.parts)
    ensures ok ==> Tiles(img.regions, 0, |b.disk|) && copy[..] == b.disk
  {
    hide *;
    ghost var was, guid, at := b.parts, [], 0;
    ok, guid, at := b.Commit();
    img := Image(false, [], []);
    copy := new byte[0];
    if !ok {
      return;
    }
    var attached;
    ghost var sorted;
    BuiltSpans(b.disk, b.parts);
    attached, sorted := Attach(b.disk);
    img := attached.value;
    ghost var last := G.LastUsable(|b.disk|);
    AttachedTiles(was, b.parts, b.disk, img, sorted);
    TilesNoneBad(img.regions, |b.disk|);
    var done;
    done, copy := Detach(b.disk, img);
  }

  lemma AttachedTiles(was: seq<G.Part>, parts: seq<G.Part>, disk: seq<byte>, img: Image, sorted: seq<Span>)
    requires 68 * 512 <= |disk| < 0x4000_0000_0000_0000 && G.AllOk(was) && G.Fit(was, |was|, G.LastUsable(|disk|)) && G.AssignedWith(was, parts, G.LastUsable(|disk|))
    requires img.spans == SpansOn(disk) && (img.isGPT <==> GptParts(disk) != []) && |GptParts(disk)| == |parts|
    requires SpansOn(disk) == (if parts != [] then AssignedSpans(parts) else [SpanOf(1, 0, |disk|)]) && Same(sorted, img.spans) && Ordered(sorted)
    requires Tiles(img.regions, 0, |disk|) <==> Chained(sorted, img.isGPT) && Reach(img.isGPT, sorted) <= Limit(|disk|, img.isGPT)
    ensures Tiles(img.regions, 0, |disk|)
  {
    hide *;
    if parts != [] {
      BuiltSeparate(was, parts, |disk|);
      BuiltTiles(AssignedSpans(parts), sorted, |disk|);
    } else {
      WholeTiles(sorted, |disk|);
    }
  }
}
