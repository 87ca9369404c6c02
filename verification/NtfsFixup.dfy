/** The Update Sequence Array: sector-end words swapped out for a check value and back. */
module NtfsFixup {
  import opened Bytes

  function UsaOff(buf: seq<byte>): nat
    requires |buf| >= 8
  {
    Le16(buf, 4)
  }

  function UsaCnt(buf: seq<byte>): nat
    requires |buf| >= 8
  {
    Le16(buf, 6)
  }

  /** Sectors whose last word is guarded. */
  function Guarded(buf: seq<byte>): nat
    requires |buf| >= 8
  {
    var c := UsaCnt(buf);
    if c == 0 then 0 else if c - 1 <= |buf| / 512 then c - 1 else |buf| / 512
  }

  /** The array lies behind the header fields and in front of the first sector end. */
  predicate UsaInside(buf: seq<byte>) {
    |buf| >= 512 && 8 <= UsaOff(buf) && UsaCnt(buf) >= 1 && UsaOff(buf) + 2 * UsaCnt(buf) <= 510
  }

  /** Byte p is one of the last two of a guarded sector; its saved copy is SavedAt(p). */
  predicate SectorEnd(p: int, guarded: nat) {
    p % 512 >= 510 && 0 <= p / 512 < guarded
  }

  function SavedAt(usaOff: nat, p: nat): nat {
    if p % 512 >= 510 then usaOff + 2 * (p / 512 + 1) + (p % 512 - 510) else 0
  }

  /** The sector-end byte saved in array byte q. */
  function EndOf(usaOff: nat, q: nat): int {
    512 * ((q - usaOff) / 2) - 2 + (q - usaOff) % 2
  }

  function NextSeq(buf: seq<byte>): (s: nat)
    requires |buf| >= 8 && UsaOff(buf) + 2 <= |buf|
    ensures 1 <= s < 0x1_0000
  {
    var s := (Le16(buf, UsaOff(buf)) + 1) % 0x1_0000;
    if s == 0 then 1 else s
  }

  lemma RoomForNumber(buf: seq<byte>)
    requires UsaInside(buf)
    ensures |buf| >= 8 && UsaOff(buf) + 2 <= |buf|
  {
  }

  /** The number goes up by one, and from the highest to 1. */
  lemma SeqStep(buf: seq<byte>)
    requires |buf| >= 8 && UsaOff(buf) + 2 <= |buf|
    ensures var was := Le16(buf, UsaOff(buf)); NextSeq(buf) == if was == 0xFFFF then 1 else was + 1
  {
  }

  ghost function Applied(buf: seq<byte>, k: nat): (r: seq<byte>)
    requires UsaInside(buf) && k <= Guarded(buf)
    ensures |r| == |buf|
    ensures forall p :: 0 <= p < |buf| ==> r[p] == if SectorEnd(p, k) then buf[SavedAt(UsaOff(buf), p)] else buf[p]
  {
    seq(|buf|, p requires 0 <= p < |buf| => if SectorEnd(p, k) then buf[SavedAt(UsaOff(buf), p)] else buf[p])
  }

  ghost function Stamped(buf: seq<byte>, k: nat): (r: seq<byte>)
    requires UsaInside(buf) && k <= Guarded(buf)
    ensures |r| == |buf|
    ensures forall p :: 0 <= p < |buf| ==> r[p] == StampedByte(buf, k, p)
  {
    seq(|buf|, p requires 0 <= p < |buf| => StampedByte(buf, k, p))
  }

  ghost function StampedByte(buf: seq<byte>, k: nat, p: nat): byte
    requires UsaInside(buf) && k <= Guarded(buf) && p < |buf|
  {
    var off, check := UsaOff(buf), Put16(NextSeq(buf));
    if off <= p < off + 2 then check[p - off]
    else if off + 2 <= p < off + 2 + 2 * k then EndInRange(buf, p, k); buf[EndOf(off, p)]
    else if SectorEnd(p, k) then check[p % 512 - 510]
    else buf[p]
  }

  lemma EndInRange(buf: seq<byte>, q: nat, k: nat)
    requires UsaInside(buf) && k <= Guarded(buf) && UsaOff(buf) + 2 <= q < UsaOff(buf) + 2 + 2 * k
    ensures 0 <= EndOf(UsaOff(buf), q) < |buf|
  {
    var i := (q - UsaOff(buf)) / 2;
    assert 1 <= i <= k && 512 * (|buf| / 512) <= |buf|;
  }

  /** Stamping leaves the header fields alone. */
  lemma StampKeepsHeader(buf: seq<byte>, k: nat)
    requires UsaInside(buf) && k <= Guarded(buf)
    ensures var r := Stamped(buf, k); UsaInside(r) && UsaOff(r) == UsaOff(buf) && UsaCnt(r) == UsaCnt(buf)
  {
    var r := Stamped(buf, k);
    assert r[4] == buf[4] && r[5] == buf[5] && r[6] == buf[6] && r[7] == buf[7];
  }

  /** Every guarded sector ends with the new sequence number. */
  lemma StampedEnds(buf: seq<byte>, p: nat)
    requires UsaInside(buf) && p < |buf| && SectorEnd(p, Guarded(buf))
    ensures Stamped(buf, Guarded(buf))[p] == Put16(NextSeq(buf))[p % 512 - 510]
  {
    assert p >= 510;
  }

  /** Applying the fixup to a stamped buffer restores every byte outside the array. */
  lemma StampThenApply(buf: seq<byte>)
    requires UsaInside(buf)
    ensures var r := Stamped(buf, Guarded(buf));
            UsaInside(r) && SameOutsideUsa(buf, Applied(r, Guarded(r)))
  {
    var k, off := Guarded(buf), UsaOff(buf);
    var r := Stamped(buf, k);
    StampKeepsHeader(buf, k);
    var a := Applied(r, k);
    forall p | 0 <= p < |buf| && !(off <= p < off + 2 * UsaCnt(buf)) ensures a[p] == buf[p] {
      if SectorEnd(p, k) { RestoredByte(buf, p); }
    }
  }

  lemma RestoredByte(buf: seq<byte>, p: nat)
    requires UsaInside(buf) && p < |buf| && SectorEnd(p, Guarded(buf))
    ensures var q := SavedAt(UsaOff(buf), p);
            q < |buf| && StampedByte(buf, Guarded(buf), q) == buf[p]
  {
    var off, q := UsaOff(buf), SavedAt(UsaOff(buf), p);
    assert (q - off) / 2 == p / 512 + 1 && (q - off) % 2 == p % 512 - 510;
    assert EndOf(off, q) == p;
  }

  /** Two buffers agree except inside their common update sequence array. */
  ghost predicate SameOutsideUsa(a: seq<byte>, b: seq<byte>) {
    && UsaInside(a) && |a| == |b|
    && forall p :: 0 <= p < |a| && !(UsaOff(a) <= p < UsaOff(a) + 2 * UsaCnt(a)) ==> b[p] == a[p]
  }

  /** The fixup functions do nothing on a buffer whose header names no usable array. */
  predicate Active(buf: seq<byte>) {
    |buf| >= 8 && UsaOff(buf) != 0 && UsaOff(buf) + 2 * UsaCnt(buf) <= |buf|
  }

  /** One sector end given back its saved word, byte by byte. */
  function WordBack(b: seq<byte>, off: nat, i: nat): (r: seq<byte>)
    requires i >= 1 && i * 512 <= |b| && off + i * 2 + 2 <= |b|
    ensures |r| == |b|
  {
    var c := b[i * 512 - 2 := b[off + i * 2]];
    c[i * 512 - 1 := c[off + i * 2 + 1]]
  }

  /** The first k sector ends given back, whatever the array overlaps. */
  function WordsBack(b: seq<byte>, off: nat, k: nat): (r: seq<byte>)
    requires k * 512 <= |b| && (k >= 1 ==> off + k * 2 + 2 <= |b|)
    ensures |r| == |b|
  {
    if k == 0 then b else WordBack(WordsBack(b, off, k - 1), off, k)
  }

  /** What applying the fixup makes of any buffer. */
  function Fixed(buf: seq<byte>): (r: seq<byte>)
    ensures |r| == |buf|
  {
    if Active(buf) then WordsBack(buf, UsaOff(buf), Guarded(buf)) else buf
  }

  /** With the array in front of the first sector end, that is the restored buffer. */
  lemma FixedIs(buf: seq<byte>)
    requires UsaInside(buf)
    ensures Active(buf) && Fixed(buf) == Applied(buf, Guarded(buf))
  {
    WordsAreBack(buf, Guarded(buf));
  }

  lemma {:induction false} WordsAreBack(buf: seq<byte>, k: nat)
    requires UsaInside(buf) && k <= Guarded(buf)
    ensures k * 512 <= |buf| && (k >= 1 ==> UsaOff(buf) + k * 2 + 2 <= |buf|) && WordsBack(buf, UsaOff(buf), k) == Applied(buf, k)
    decreases k
  {
    if k == 0 {
      assert Applied(buf, 0) == buf;
    } else {
      WordsAreBack(buf, k - 1);
      ApplyStep(buf, k, WordBack(Applied(buf, k - 1), UsaOff(buf), k));
    }
  }

  /** Puts the saved words back at the sector ends. */
  method ApplyUsa(buf: array<byte>)
    modifies buf
    ensures buf[..] == Fixed(old(buf[..]))
  {
    if buf.Length < 8 {
      return;
    }
    var off, cnt := UsaOff(buf[..]), UsaCnt(buf[..]);
    if off == 0 || off + cnt * 2 > buf.Length {
      return;
    }
    RestoreSectors(buf, off, cnt, Guarded(buf[..]));
  }

  method RestoreSectors(buf: array<byte>, off: nat, cnt: nat, ghost guarded: nat)
    requires off + 2 * cnt <= buf.Length
    requires guarded == if cnt == 0 then 0 else if cnt - 1 <= buf.Length / 512 then cnt - 1 else buf.Length / 512
    modifies buf
    ensures guarded * 512 <= buf.Length && (guarded >= 1 ==> off + guarded * 2 + 2 <= buf.Length)
    ensures buf[..] == WordsBack(old(buf[..]), off, guarded)
  {
    hide *;
    ghost var start := buf[..];
    var i := 1;
    WordsBackStep(start, off, 0);
    while i < cnt && i * 512 <= buf.Length
      invariant 1 <= i <= guarded + 1 && (i - 1) * 512 <= buf.Length && (i >= 2 ==> off + i * 2 <= buf.Length)
      invariant buf[..] == WordsBack(start, off, i - 1)
    {
      WordsBackStep(start, off, i);
      SwapIn(buf, i * 512 - 2, off + i * 2);
      i := i + 1;
    }
  }

  /** Puts the saved word at q back at a sector end. */
  method SwapIn(buf: array<byte>, pos: nat, q: nat)
    requires q + 2 <= buf.Length && pos + 2 <= buf.Length
    modifies buf
    ensures var a := old(buf[..]);
            var c := a[pos := a[q]];
            buf[..] == c[pos + 1 := c[q + 1]]
  {
    ghost var a := buf[..];
    buf[pos] := buf[q];
    assert buf[..] == a[pos := a[q]];
    ghost var c := buf[..];
    buf[pos + 1] := buf[q + 1];
    assert buf[..] == c[pos + 1 := c[q + 1]];
  }

  lemma WordsBackStep(b: seq<byte>, off: nat, k: nat)
    requires k * 512 <= |b| && (k >= 1 ==> off + k * 2 + 2 <= |b|)
    ensures k == 0 ==> WordsBack(b, off, k) == b
    ensures k >= 1 ==> var a := WordsBack(b, off, k - 1);
                       var c := a[k * 512 - 2 := a[off + k * 2]];
                       WordsBack(b, off, k) == c[k * 512 - 1 := c[off + k * 2 + 1]]
  {
  }

  /** One sector end saved and overwritten, byte by byte. */
  function WordOut(b: seq<byte>, off: nat, i: nat, check: seq<byte>): (r: seq<byte>)
    requires i >= 1 && i * 512 <= |b| && off + i * 2 + 2 <= |b| && |check| == 2
    ensures |r| == |b|
  {
    var c := b[off + i * 2 := b[i * 512 - 2]];
    c[off + i * 2 + 1 := c[i * 512 - 1]][i * 512 - 2 := check[0]][i * 512 - 1 := check[1]]
  }

  function WordsOut(b: seq<byte>, off: nat, k: nat, check: seq<byte>): (r: seq<byte>)
    requires k * 512 <= |b| && (k >= 1 ==> off + k * 2 + 2 <= |b|) && |check| == 2
    ensures |r| == |b|
  {
    if k == 0 then b else WordOut(WordsOut(b, off, k - 1, check), off, k, check)
  }

  /** What stamping makes of any buffer with room for the sequence number. */
  function Restamped(buf: seq<byte>): (r: seq<byte>)
    requires Active(buf) ==> UsaOff(buf) + 2 <= |buf|
    ensures |r| == |buf|
  {
    if !Active(buf) then buf
    else
      var off, check := UsaOff(buf), Put16(NextSeq(buf));
      WordsOut(buf[off := check[0]][off + 1 := check[1]], off, Guarded(buf), check)
  }

  lemma RestampedIs(buf: seq<byte>)
    requires UsaInside(buf)
    ensures Active(buf) && Restamped(buf) == Stamped(buf, Guarded(buf))
  {
    WordsAreOut(buf, Guarded(buf));
  }

  lemma {:induction false} WordsAreOut(buf: seq<byte>, k: nat)
    requires UsaInside(buf) && k <= Guarded(buf)
    ensures k * 512 <= |buf| && (k >= 1 ==> UsaOff(buf) + k * 2 + 2 <= |buf|)
    ensures var off, check := UsaOff(buf), Put16(NextSeq(buf));
            WordsOut(buf[off := check[0]][off + 1 := check[1]], off, k, check) == Stamped(buf, k)
    decreases k
  {
    hide Put16, NextSeq;
    var off, check := UsaOff(buf), Put16(NextSeq(buf));
    if k == 0 {
      StampStart(buf, buf[off := check[0]][off + 1 := check[1]]);
    } else {
      WordsAreOut(buf, k - 1);
      GuardedIs(buf, k);
      StampStep(buf, k, WordOut(Stamped(buf, k - 1), off, k, check));
    }
  }

  /** Bumps the sequence number, saves the sector-end words and stamps the number over them. Without room for the number
      the code panics. */
  method StampUsa(buf: array<byte>, sectors: nat)
    requires sectors == buf.Length / 512 && (Active(buf[..]) ==> UsaOff(buf[..]) + 2 <= buf.Length)
    modifies buf
    ensures buf[..] == Restamped(old(buf[..]))
  {
    if buf.Length < 8 {
      return;
    }
    ghost var before := buf[..];
    var off, cnt := UsaOff(buf[..]), UsaCnt(buf[..]);
    if off == 0 || off + cnt * 2 > buf.Length {
      return;
    }
    var check := Put16(NextSeq(buf[..]));
    buf[off] := check[0];
    buf[off + 1] := check[1];
    assert buf[..] == before[off := check[0]][off + 1 := check[1]];
    StampSectors(buf, off, cnt, sectors, check, Guarded(before));
  }

  method StampSectors(buf: array<byte>, off: nat, cnt: nat, sectors: nat, check: seq<byte>, ghost guarded: nat)
    requires sectors == buf.Length / 512 && off + 2 * cnt <= buf.Length && |check| == 2
    requires guarded == if cnt == 0 then 0 else if cnt - 1 <= sectors then cnt - 1 else sectors
    modifies buf
    ensures guarded * 512 <= buf.Length && (guarded >= 1 ==> off + guarded * 2 + 2 <= buf.Length)
    ensures buf[..] == WordsOut(old(buf[..]), off, guarded, check)
  {
    hide *;
    ghost var start := buf[..];
    var i := 1;
    WordsOutStep(start, off, 0, check);
    while i < cnt && i <= sectors && i * 512 <= buf.Length
      invariant 1 <= i <= guarded + 1 && (i - 1) * 512 <= buf.Length && (i >= 2 ==> off + i * 2 <= buf.Length)
      invariant buf[..] == WordsOut(start, off, i - 1, check)
    {
      WordsOutStep(start, off, i, check);
      SwapOut(buf, i * 512 - 2, off + i * 2, check);
      i := i + 1;
    }
  }

  lemma WordsOutStep(b: seq<byte>, off: nat, k: nat, check: seq<byte>)
    requires k * 512 <= |b| && (k >= 1 ==> off + k * 2 + 2 <= |b|) && |check| == 2
    ensures k == 0 ==> WordsOut(b, off, k, check) == b
    ensures k >= 1 ==> var a := WordsOut(b, off, k - 1, check);
                       var c := a[off + k * 2 := a[k * 512 - 2]];
                       WordsOut(b, off, k, check) == c[off + k * 2 + 1 := c[k * 512 - 1]][k * 512 - 2 := check[0]][k * 512 - 1 := check[1]]
  {
  }

  lemma GuardedIs(buf: seq<byte>, i: nat)
    requires UsaInside(buf) && i >= 1
    ensures |buf| >= 512
    ensures i <= Guarded(buf) <==> i < UsaCnt(buf) && i * 512 <= |buf|
    ensures i < UsaCnt(buf) ==> UsaOff(buf) + i * 2 + 2 <= 510
    ensures i <= |buf| / 512 <==> i * 512 <= |buf|
  {
  }

  /** Saves one sector-end word at q and overwrites it with the check value. */
  method SwapOut(buf: array<byte>, pos: nat, q: nat, check: seq<byte>)
    requires q + 2 <= buf.Length && pos + 2 <= buf.Length && |check| == 2
    modifies buf
    ensures var a := old(buf[..]);
            var c := a[q := a[pos]];
            buf[..] == c[q + 1 := c[pos + 1]][pos := check[0]][pos + 1 := check[1]]
  {
    ghost var a := buf[..];
    buf[q] := buf[pos];
    assert buf[..] == a[q := a[pos]];
    ghost var c := buf[..];
    buf[q + 1] := buf[pos + 1];
    buf[pos] := check[0];
    buf[pos + 1] := check[1];
    assert buf[..] == c[q + 1 := c[pos + 1]][pos := check[0]][pos + 1 := check[1]];
  }

  lemma StampStart(before: seq<byte>, now: seq<byte>)
    requires UsaInside(before)
    requires var off, check := UsaOff(before), Put16(NextSeq(before)); now == before[off := check[0]][off + 1 := check[1]]
    ensures now == Stamped(before, 0)
  {
    hide Put16, NextSeq;
  }

  lemma StampStep(before: seq<byte>, i: nat, now: seq<byte>)
    requires UsaInside(before) && 1 <= i <= Guarded(before) && |now| == |before|
    requires var a, pos, q, check := Stamped(before, i - 1), i * 512 - 2, UsaOff(before) + i * 2, Put16(NextSeq(before));
             pos + 2 <= |before| && now == a[q := a[pos]][q + 1 := a[pos + 1]][pos := check[0]][pos + 1 := check[1]]
    ensures now == Stamped(before, i)
  {
    hide Put16, NextSeq;
    var a, pos, q := Stamped(before, i - 1), i * 512 - 2, UsaOff(before) + i * 2;
    assert a[pos] == before[pos] && a[pos + 1] == before[pos + 1];
    forall p | 0 <= p < |before| ensures now[p] == StampedByte(before, i, p) {
      EndsOf(UsaOff(before), i);
    }
  }

  lemma EndsOf(off: nat, i: nat)
    requires i >= 1
    ensures EndOf(off, off + i * 2) == i * 512 - 2 && EndOf(off, off + i * 2 + 1) == i * 512 - 1
  {
  }

  lemma ApplyStep(before: seq<byte>, i: nat, now: seq<byte>)
    requires UsaInside(before) && 1 <= i <= Guarded(before) && |now| == |before|
    requires var a, pos, q := Applied(before, i - 1), i * 512 - 2, UsaOff(before) + i * 2;
             pos + 2 <= |before| && now == a[pos := a[q]][pos + 1 := a[q + 1]]
    ensures now == Applied(before, i)
  {
    var a, pos, q := Applied(before, i - 1), i * 512 - 2, UsaOff(before) + i * 2;
    assert a[q] == before[q] && a[q + 1] == before[q + 1];
    forall p | 0 <= p < |before| ensures now[p] == Applied(before, i)[p] {
      assert SectorEnd(p, i) <==> SectorEnd(p, i - 1) || p == pos || p == pos + 1;
    }
  }
}
