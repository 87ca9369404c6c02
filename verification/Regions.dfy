/** Regions of a disk image, and the copy that goes region by region. */
module Regions {
  import opened Bytes

  datatype Kind = Boot | Partition | Gap | Backup

  datatype Region = Region(kind: Kind, start: int, end: int, index: int)

  /** A partition's bytes. */
  datatype Span = Span(start: int, end: int, index: int)

  /** One of them ends at or before the start of the other; if they start together, both are empty. */
  predicate Disjoint(a: Span, b: Span) {
    if a.start < b.start then a.end <= b.start else if b.start < a.start then b.end <= a.start else a.end == a.start == b.end
  }

  /** At or above byte 0, and pairwise disjoint; empty ones are allowed. */
  ghost predicate Separate(spans: seq<Span>) {
    && (forall i :: 0 <= i < |spans| ==> 0 <= spans[i].start <= spans[i].end)
    && (forall i, j :: 0 <= i < j < |spans| ==> Disjoint(spans[i], spans[j]))
  }

  ghost predicate Ordered(spans: seq<Span>) {
    forall i, j :: 0 <= i < j < |spans| ==> spans[i].start <= spans[j].start
  }

  /** The regions cover [from, to) one behind the other. */
  ghost predicate Tiles(rs: seq<Region>, from: int, to: int) {
    if rs == [] then from == to
    else Tiles(rs[..|rs| - 1], from, rs[|rs| - 1].start) && rs[|rs| - 1].start <= rs[|rs| - 1].end == to
  }

  /** Where the regions end, or start if there are none. */
  function Last(rs: seq<Region>, from: int): int {
    if rs == [] then from else rs[|rs| - 1].end
  }

  lemma TilesSnoc(rs: seq<Region>, r: Region, from: int)
    ensures Tiles(rs + [r], from, r.end) <==> Tiles(rs, from, Last(rs, from)) && r.start == Last(rs, from) <= r.end
    ensures Last(rs + [r], from) == r.end
  {
    assert (rs + [r])[..|rs|] == rs;
  }

  /** The partition regions among them, in order. */
  function Parts(rs: seq<Region>): seq<Span> {
    if rs == [] then []
    else
      var k := |rs| - 1;
      if rs[k].kind.Partition? then Parts(rs[..k]) + [Span(rs[k].start, rs[k].end, rs[k].index)] else Parts(rs[..k])
  }

  lemma PartsSnoc(rs: seq<Region>, r: Region)
    ensures Parts(rs + [r]) == if r.kind.Partition? then Parts(rs) + [Span(r.start, r.end, r.index)] else Parts(rs)
  {
    assert (rs + [r])[..|rs|] == rs;
  }

  ghost predicate Same(a: seq<Span>, b: seq<Span>) {
    multiset(a) == multiset(b)
  }

  /** The spans by ascending start. */
  method SortSpans(spans: seq<Span>) returns (s: seq<Span>)
    ensures Same(s, spans) && Ordered(s)
  {
    s := [];
    assert spans[..0] == [];
    hide Ordered, Same;
    for i := 0 to |spans|
      invariant Same(s, spans[..i]) && Ordered(s)
    {
      s := InsertSpan(s, spans[i], spans, i);
    }
    assert spans[..|spans|] == spans;
  }

  method InsertSpan(s: seq<Span>, x: Span, ghost spans: seq<Span>, ghost i: nat) returns (r: seq<Span>)
    requires Ordered(s) && i < |spans| && x == spans[i] && Same(s, spans[..i])
    ensures Same(r, spans[..i + 1]) && Ordered(r)
  {
    hide Ordered, Same;
    var k := 0;
    while k < |s| && s[k].start <= x.start
      invariant 0 <= k <= |s| && forall j :: 0 <= j < k ==> s[j].start <= x.start
    {
      k := k + 1;
    }
    InsertedOrder(s, k, x);
    InsertedMany(s, k, spans, i);
    r := s[..k] + [x] + s[k..];
  }

  lemma InsertedMany(s: seq<Span>, k: nat, spans: seq<Span>, i: nat)
    requires k <= |s| && i < |spans| && Same(s, spans[..i])
    ensures Same(s[..k] + [spans[i]] + s[k..], spans[..i + 1])
  {
    assert s == s[..k] + s[k..];
    assert spans[..i + 1] == spans[..i] + [spans[i]];
  }

  lemma InsertedOrder(s: seq<Span>, k: nat, x: Span)
    requires Ordered(s) && k <= |s| && (forall j :: 0 <= j < k ==> s[j].start <= x.start) && (k < |s| ==> s[k].start > x.start)
    ensures Ordered(s[..k] + [x] + s[k..])
  {
    var r := s[..k] + [x] + s[k..];
    forall j | k <= j < |s| ensures x.start <= s[j].start {
      if j > k { assert s[k].start <= s[j].start; }
    }
    forall i | 0 <= i < |r| ensures r[i] == if i < k then s[i] else if i == k then x else s[i - 1] {
    }
    forall i, j | 0 <= i < j < |r| ensures r[i].start <= r[j].start {
      InsertedPair(s, k, x, i, j);
    }
  }

  lemma InsertedPair(s: seq<Span>, k: nat, x: Span, i: nat, j: nat)
    requires Ordered(s) && k <= |s| && i < j <= |s|
    requires (forall m :: 0 <= m < k ==> s[m].start <= x.start) && (forall m :: k <= m < |s| ==> x.start <= s[m].start)
    ensures (if i < k then s[i] else if i == k then x else s[i - 1]).start <= (if j < k then s[j] else if j == k then x else s[j - 1]).start
  {
  }

  /** Sorted spans that do not overlap follow one another. */
  lemma SortedChained(spans: seq<Span>, s: seq<Span>, isGPT: bool)
    requires Separate(spans) && Same(s, spans) && Ordered(s)
    ensures Chained(s, isGPT)
  {
    forall i | 0 <= i < |s| ensures 0 <= s[i].start <= s[i].end {
      assert s[i] in multiset(s);
      var j :| 0 <= j < |spans| && spans[j] == s[i];
    }
    forall i | 0 < i < |s| ensures s[i - 1].end <= s[i].start {
      TwoPlaces(spans, s, i - 1, i);
    }
  }

  lemma TwoPlaces(spans: seq<Span>, s: seq<Span>, i: nat, j: nat)
    requires Separate(spans) && multiset(s) == multiset(spans) && i < j < |s|
    ensures Disjoint(s[i], s[j]) || Disjoint(s[j], s[i])
  {
    assert s[i] in multiset(s) && s[j] in multiset(s);
    var a :| 0 <= a < |spans| && spans[a] == s[i];
    var b :| 0 <= b < |spans| && spans[b] == s[j];
    if a == b && spans[a].start < spans[a].end {
      Twice(s, i, j);
      OnlyOnce(spans, a);
    }
  }

  lemma Twice(s: seq<Span>, i: nat, j: nat)
    requires i < j < |s| && s[i] == s[j]
    ensures multiset(s)[s[i]] >= 2
  {
    assert s == s[..j] + [s[j]] + s[j + 1..];
    assert s[i] in s[..j];
  }

  lemma OnlyOnce(spans: seq<Span>, a: nat)
    requires Separate(spans) && a < |spans| && spans[a].start < spans[a].end
    ensures multiset(spans)[spans[a]] == 1
  {
    var x, l, r := spans[a], spans[..a], spans[a + 1..];
    assert spans == l + [x] + r;
    forall i | 0 <= i < |l| ensures l[i] != x { assert Disjoint(spans[i], spans[a]); }
    forall i | 0 <= i < |r| ensures r[i] != x { assert Disjoint(spans[a], spans[a + 1 + i]); }
    assert x !in l && x !in r;
  }

  /** Where the boot region ends: one sector, or the whole primary GPT, unless a partition starts before. */
  function BootEnd(isGPT: bool, sorted: seq<Span>): int {
    var b := if isGPT then 34 * 512 else 512;
    if |sorted| > 0 && sorted[0].start < b then sorted[0].start else b
  }

  /** Where the partitions end. */
  function Reach(isGPT: bool, sorted: seq<Span>): int {
    if sorted == [] then BootEnd(isGPT, sorted) else sorted[|sorted| - 1].end
  }

  /** Last byte partitions may reach to: a GPT image ends with the sector of its backup header. */
  function Limit(fileSize: nat, isGPT: bool): int {
    if isGPT && fileSize > 0 then fileSize - 512 else fileSize
  }

  /** A gap has bytes, and no partition number. */
  predicate GapOk(r: Region) {
    r.kind.Gap? ==> r.start < r.end && r.index == 0
  }

  lemma GapIs()
    ensures forall r :: GapOk(r) <==> (r.kind.Gap? ==> r.start < r.end && r.index == 0)
  {
  }

  /** The boot region, if there is one, comes first, and no other region is one; no backup region yet, and no empty gaps. */
  ghost predicate BootFirst(rs: seq<Region>, bootEnd: int) {
    && (bootEnd > 0 ==> rs != [] && rs[0] == Region(Boot, 0, bootEnd, 0))
    && forall i :: 0 <= i < |rs| ==> !rs[i].kind.Backup? && (rs[i].kind.Boot? ==> i == 0) && GapOk(rs[i])
  }

  lemma BootStays(rs: seq<Region>, r: Region, bootEnd: int)
    requires BootFirst(rs, bootEnd) && (r.kind.Gap? || r.kind.Partition?) && GapOk(r)
    ensures BootFirst(rs + [r], bootEnd)
  {
  }

  /** Span k starts at or behind the end of what is in front of it. */
  predicate Follows(s: seq<Span>, k: nat, isGPT: bool)
    requires k < |s|
  {
    (if k == 0 then BootEnd(isGPT, s) else s[k - 1].end) <= s[k].start <= s[k].end
  }

  /** The first i spans follow one another, from byte 0 on. */
  ghost predicate ChainedTo(s: seq<Span>, i: nat, isGPT: bool)
    requires i <= |s|
  {
    BootEnd(isGPT, s) >= 0 && forall k :: 0 <= k < i ==> Follows(s, k, isGPT)
  }

  ghost predicate Chained(s: seq<Span>, isGPT: bool) {
    ChainedTo(s, |s|, isGPT)
  }

  /** A region with bytes below 0: a read there fails. */
  predicate Bad(r: Region) {
    r.start < 0 && r.start < r.end
  }

  ghost predicate NoneBad(rs: seq<Region>) {
    forall i :: 0 <= i < |rs| ==> !Bad(rs[i])
  }

  predicate Inside(r: Region, k: int) {
    r.start <= k < r.end
  }

  /** Byte k lies in a region. */
  ghost predicate Covered(rs: seq<Region>, k: int) {
    exists i :: 0 <= i < |rs| && Inside(rs[i], k)
  }

  ghost predicate Covers(rs: seq<Region>, to: int) {
    forall k :: 0 <= k < to ==> Covered(rs, k)
  }

  lemma CoverSnoc(rs: seq<Region>, r: Region)
    ensures NoneBad(rs + [r]) <==> NoneBad(rs) && !Bad(r)
    ensures forall k :: Covered(rs + [r], k) <==> Covered(rs, k) || Inside(r, k)
  {
    var all := rs + [r];
    assert all[|rs|] == r && forall i :: 0 <= i < |rs| ==> all[i] == rs[i];
    forall k ensures Covered(all, k) <==> Covered(rs, k) || Inside(r, k) {
      if Covered(rs, k) {
        var i :| 0 <= i < |rs| && Inside(rs[i], k);
        assert Inside(all[i], k);
      }
      if Inside(r, k) { assert Inside(all[|rs|], k); }
    }
  }

  /** The regions so far: they tile exactly if the spans follow one another, and unless a read fails they cover everything
      in front of the cursor. */
  ghost predicate Sound(rs: seq<Region>, cursor: int, chained: bool, bootEnd: int) {
    && (rs == [] ==> cursor == bootEnd <= 0) && (rs != [] ==> Last(rs, 0) == cursor)
    && (Tiles(rs, 0, cursor) <==> chained) && (NoneBad(rs) ==> Covers(rs, cursor)) && BootFirst(rs, bootEnd)
  }

  /** One region more, behind the cursor or not. */
  lemma SoundSnoc(rs: seq<Region>, cursor: int, chained: bool, bootEnd: int, r: Region)
    requires Sound(rs, cursor, chained, bootEnd) && (r.kind.Gap? || r.kind.Partition?) && GapOk(r)
    requires r.start <= cursor && (rs == [] ==> r.start == bootEnd && (chained <==> bootEnd >= 0))
    ensures Sound(rs + [r], r.end, chained && r.start == cursor && r.start <= r.end, bootEnd)
  {
    TilesSnoc(rs, r, 0);
    CoverSnoc(rs, r);
    BootStays(rs, r, bootEnd);
    hide Tiles, BootFirst, Covered;
  }

  ghost predicate Walked(rs: seq<Region>, sorted: seq<Span>, i: nat, cursor: int, isGPT: bool) {
    && i <= |sorted| && Parts(rs) == sorted[..i] && Sound(rs, cursor, ChainedTo(sorted, i, isGPT), BootEnd(isGPT, sorted))
    && cursor == (if i == 0 then BootEnd(isGPT, sorted) else sorted[i - 1].end) && (rs == [] ==> i == 0)
  }

  /** Splits the image into regions, whatever the partitions are. The partition regions are the partitions by ascending
      start. All regions tile the image exactly if the partitions follow one another and they, and the boot region, end
      in time. Even if not, every byte lies in a region, unless a region reaches below byte 0. */
  method BuildRegions(spans: seq<Span>, fileSize: nat, isGPT: bool) returns (rs: seq<Region>, ghost sorted: seq<Span>)
    ensures Same(sorted, spans) && Ordered(sorted) && Parts(rs) == sorted
    ensures Tiles(rs, 0, fileSize) <==> Chained(sorted, isGPT) && Reach(isGPT, sorted) <= Limit(fileSize, isGPT)
    ensures NoneBad(rs) ==> Covers(rs, fileSize)
    ensures isGPT && fileSize > 0 ==> rs != [] && BootFirst(rs[..|rs| - 1], BootEnd(isGPT, sorted)) && rs[|rs| - 1] == Region(Backup, fileSize - 512, fileSize, 0)
    ensures !(isGPT && fileSize > 0) ==> BootFirst(rs, BootEnd(isGPT, sorted))
  {
    var s := SortSpans(spans);
    sorted := s;
    hide *;
    rs := [];
    var bootEnd := if isGPT then 34 * 512 else 512;
    if |s| > 0 && s[0].start < bootEnd {
      bootEnd := s[0].start;
    }
    if bootEnd > 0 {
      rs := [Region(Boot, 0, bootEnd, 0)];
    }
    var cursor := bootEnd;
    WalkStarts(rs, s, bootEnd, isGPT);
    for i := 0 to |s|
      invariant Walked(rs, s, i, cursor, isGPT)
    {
      rs, cursor := AddSpan(rs, s, i, cursor, isGPT);
    }
    WalkEnds(rs, s, cursor, isGPT);
    rs := CloseRegions(rs, cursor, fileSize, isGPT, BootEnd(isGPT, s), Chained(s, isGPT));
  }

  lemma WalkStarts(rs: seq<Region>, s: seq<Span>, bootEnd: int, isGPT: bool)
    requires bootEnd == if |s| > 0 && s[0].start < (if isGPT then 34 * 512 else 512) then s[0].start else if isGPT then 34 * 512 else 512
    requires rs == if bootEnd > 0 then [Region(Boot, 0, bootEnd, 0)] else []
    ensures Walked(rs, s, 0, bootEnd, isGPT)
  {
    var boot := Region(Boot, 0, bootEnd, 0);
    TilesSnoc([], boot, 0);
    PartsSnoc([], boot);
    CoverSnoc([], boot);
    assert [] + [boot] == [boot] && s[..0] == [];
    hide Covered;
  }

  lemma WalkEnds(rs: seq<Region>, s: seq<Span>, cursor: int, isGPT: bool)
    requires Walked(rs, s, |s|, cursor, isGPT)
    ensures Parts(rs) == s && cursor == Reach(isGPT, s) && Sound(rs, cursor, Chained(s, isGPT), BootEnd(isGPT, s))
    ensures rs == [] ==> (Chained(s, isGPT) <==> BootEnd(isGPT, s) >= 0)
  {
    hide Sound, Parts;
    assert s[..|s|] == s;
  }

  /** A gap before the next partition, if there is one, and the partition. */
  method AddSpan(rs: seq<Region>, s: seq<Span>, i: nat, cursor: int, isGPT: bool) returns (out: seq<Region>, next: int)
    requires Walked(rs, s, i, cursor, isGPT) && i < |s|
    ensures Walked(out, s, i + 1, next, isGPT)
  {
    hide *;
    GapIs();
    out := rs;
    var to := cursor;
    WalkedIs(rs, s, i, cursor, isGPT);
    if s[i].start > cursor {
      var gap := Region(Gap, cursor, s[i].start, 0);
      SoundSnoc(out, cursor, ChainedTo(s, i, isGPT), BootEnd(isGPT, s), gap);
      PartsSnoc(out, gap);
      out := out + [gap];
      to := s[i].start;
    }
    var r := Region(Partition, s[i].start, s[i].end, s[i].index);
    SoundSnoc(out, to, ChainedTo(s, i, isGPT), BootEnd(isGPT, s), r);
    PartsSnoc(out, r);
    out := out + [r];
    next := s[i].end;
    OneSpanMore(out, s, i, cursor, isGPT);
  }

  lemma WalkedIs(rs: seq<Region>, s: seq<Span>, i: nat, cursor: int, isGPT: bool)
    requires Walked(rs, s, i, cursor, isGPT) && i < |s|
    ensures Sound(rs, cursor, ChainedTo(s, i, isGPT), BootEnd(isGPT, s)) && Parts(rs) == s[..i]
    ensures cursor == if i == 0 then BootEnd(isGPT, s) else s[i - 1].end
    ensures rs == [] ==> s[i].start == cursor == BootEnd(isGPT, s) && (ChainedTo(s, i, isGPT) <==> BootEnd(isGPT, s) >= 0)
  {
    hide Tiles, Parts, BootFirst, NoneBad, Covers;
  }

  lemma OneSpanMore(rs: seq<Region>, s: seq<Span>, i: nat, cursor: int, isGPT: bool)
    requires i < |s| && rs != [] && Parts(rs) == s[..i] + [Span(s[i].start, s[i].end, s[i].index)]
    requires cursor == if i == 0 then BootEnd(isGPT, s) else s[i - 1].end
    requires Sound(rs, s[i].end, ChainedTo(s, i, isGPT) && cursor <= s[i].start <= s[i].end, BootEnd(isGPT, s))
    ensures Walked(rs, s, i + 1, s[i].end, isGPT)
  {
    hide Sound, Parts, BootEnd;
    assert s[..i + 1] == s[..i] + [s[i]];
    ChainMore(s, i, cursor, isGPT);
  }

  lemma ChainMore(s: seq<Span>, i: nat, cursor: int, isGPT: bool)
    requires i < |s| && cursor == if i == 0 then BootEnd(isGPT, s) else s[i - 1].end
    ensures ChainedTo(s, i + 1, isGPT) <==> ChainedTo(s, i, isGPT) && cursor <= s[i].start <= s[i].end
  {
    hide BootEnd;
    assert Follows(s, i, isGPT) <==> cursor <= s[i].start <= s[i].end;
  }

  /** The end of the image: backup header, or what is left. */
  method CloseRegions(rs: seq<Region>, cursor: int, fileSize: nat, isGPT: bool, ghost bootEnd: int, ghost chained: bool) returns (out: seq<Region>)
    requires Sound(rs, cursor, chained, bootEnd) && (rs == [] ==> (chained <==> bootEnd >= 0))
    ensures Parts(out) == Parts(rs)
    ensures Tiles(out, 0, fileSize) <==> chained && cursor <= Limit(fileSize, isGPT)
    ensures NoneBad(out) ==> Covers(out, fileSize)
    ensures isGPT && fileSize > 0 ==> out != [] && BootFirst(out[..|out| - 1], bootEnd) && out[|out| - 1] == Region(Backup, fileSize - 512, fileSize, 0)
    ensures !(isGPT && fileSize > 0) ==> BootFirst(out, bootEnd)
  {
    hide *;
    GapIs();
    out := rs;
    SoundIs(rs, cursor, chained, bootEnd);
    LimitIs(fileSize, isGPT);
    if isGPT && fileSize > 0 {
      var backupStart := fileSize - 512;
      var backup := Region(Backup, backupStart, fileSize, 0);
      if cursor < backupStart {
        var gap := Region(Gap, cursor, backupStart, 0);
        SoundSnoc(out, cursor, chained, bootEnd, gap);
        PartsSnoc(out, gap);
        out := out + [gap];
        SoundIs(out, backupStart, chained, bootEnd);
      }
      PartsSnoc(out, backup);
      BackupSnoc(out, if cursor < backupStart then backupStart else cursor, chained, bootEnd, backup);
      ghost var front := out;
      out := out + [backup];
      assert out[..|out| - 1] == front;
    } else {
      if cursor < fileSize {
        var gap := Region(Gap, cursor, fileSize, 0);
        SoundSnoc(out, cursor, chained, bootEnd, gap);
        PartsSnoc(out, gap);
        out := out + [gap];
        SoundIs(out, fileSize, chained, bootEnd);
      } else {
        SameEnd(out, cursor, fileSize, chained, bootEnd);
      }
    }
  }

  lemma LimitIs(fileSize: nat, isGPT: bool)
    ensures Limit(fileSize, isGPT) == if isGPT && fileSize > 0 then fileSize - 512 else fileSize
  {
  }

  lemma SoundIs(rs: seq<Region>, cursor: int, chained: bool, bootEnd: int)
    requires Sound(rs, cursor, chained, bootEnd)
    ensures (rs == [] ==> cursor == bootEnd <= 0) && (Tiles(rs, 0, cursor) <==> chained) && (NoneBad(rs) ==> Covers(rs, cursor)) && BootFirst(rs, bootEnd)
  {
  }

  lemma BackupSnoc(rs: seq<Region>, cursor: int, chained: bool, bootEnd: int, r: Region)
    requires Sound(rs, cursor, chained, bootEnd) && r.start <= cursor && r.start < r.end && (rs == [] ==> (chained <==> bootEnd >= 0))
    ensures Tiles(rs + [r], 0, r.end) <==> chained && cursor <= r.start
    ensures NoneBad(rs + [r]) ==> Covers(rs + [r], r.end)
  {
    TilesSnoc(rs, r, 0);
    CoverSnoc(rs, r);
    hide BootFirst, Covered;
  }

  lemma SameEnd(rs: seq<Region>, cursor: int, to: nat, chained: bool, bootEnd: int)
    requires Sound(rs, cursor, chained, bootEnd) && cursor >= to && (rs == [] ==> (chained <==> bootEnd >= 0))
    ensures Tiles(rs, 0, to) <==> chained && cursor <= to
    ensures NoneBad(rs) ==> Covers(rs, to)
  {
    hide BootFirst, Covered;
  }

  /** Copies up to `size` bytes through a small buffer: a read may return less than was asked for, ends at the end of the
      image, and fails below byte 0. */
  method CopyRange(src: seq<byte>, dst: array<byte>, from: int, size: int) returns (ok: bool)
    requires |src| == dst.Length
    modifies dst
    ensures ok <==> !(from < 0 < size)
    ensures ok ==> forall k :: 0 <= k < dst.Length ==> dst[k] == if from <= k < from + size then src[k] else old(dst[k])
  {
    var off, left := from, size;
    while left > 0
      invariant left <= size && (left >= 0 || left == size) && off == from + size - left && (from < 0 ==> off == from)
      invariant forall k :: 0 <= k < dst.Length ==> dst[k] == if from <= k < off then src[k] else old(dst[k])
    {
      if off < 0 {
        return false;
      }
      var n := if 32768 > left then left else 32768;
      var rn := ReadAt(src, off, n);
      if rn == 0 {
        break;
      }
      ghost var before := dst[..];
      StoreBytes(dst, off, src[off..off + rn]);
      forall k | 0 <= k < dst.Length ensures dst[k] == if off <= k < off + rn then src[k] else before[k] {
        assert dst[k] == dst[..][k];
      }
      off, left := off + rn, left - rn;
    }
    ok := true;
  }

  /** How many bytes a read returns: none only at the end of the image. */
  method ReadAt(src: seq<byte>, off: nat, n: nat) returns (rn: nat)
    requires n > 0
    ensures rn <= n && (rn == 0 <==> off >= |src|) && (rn > 0 ==> off + rn <= |src|)
  {
    if off >= |src| {
      return 0;
    }
    var most := if n > |src| - off then |src| - off else n;
    rn := *;
    if !(1 <= rn <= most) {
      rn := most;
    }
  }

  /** Copies region by region into a file of zeros. It fails exactly if a region reaches below byte 0. */
  method CopyRegions(src: seq<byte>, rs: seq<Region>) returns (ok: bool, dst: array<byte>)
    ensures fresh(dst) && dst.Length == |src|
    ensures ok <==> NoneBad(rs)
    ensures ok ==> forall k :: 0 <= k < |src| ==> dst[k] == if Covered(rs, k) then src[k] else 0
  {
    dst := new byte[|src|](i => 0);
    hide Covered, Bad, Inside;
    for i := 0 to |rs|
      invariant dst.Length == |src| && NoneBad(rs[..i])
      invariant forall k :: 0 <= k < |src| ==> dst[k] == if Covered(rs[..i], k) then src[k] else 0
    {
      assert rs[..i + 1] == rs[..i] + [rs[i]];
      CoverSnoc(rs[..i], rs[i]);
      ok := CopyRange(src, dst, rs[i].start, rs[i].end - rs[i].start);
      if !ok {
        return;
      }
    }
    assert rs[..|rs|] == rs;
    ok := true;
  }

  /** A GPT partition that reaches into the sector of the backup header: the regions overlap. */
  lemma IntoBackup()
    ensures var spans := [Span(34 * 512, 100 * 512, 1)];
            Separate(spans) && Ordered(spans) && spans[0].end <= 100 * 512 && Reach(true, spans) > Limit(100 * 512, true)
  {
  }

  /** An MBR image shorter than a sector, without partitions: the boot region is longer than the image. */
  lemma ShortImage()
    ensures Separate([]) && Reach(false, []) > Limit(100, false)
  {
  }
}
