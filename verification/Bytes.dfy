/** Byte buffers and the little-endian integers packed in them (Go's encoding/binary.LittleEndian). */
module Bytes {

  type byte = x: int | 0 <= x < 256

  const TWO32 := 0x1_0000_0000
  const TWO63 := 0x8000_0000_0000_0000
  const TWO64 := 0x1_0000_0000_0000_0000

  /** Two's-complement wrap-around of Go's int64. */
  function AsInt64(x: int): (r: int)
    ensures -TWO63 <= r < TWO63
    ensures -TWO63 <= x < TWO63 ==> r == x
  {
    (x + TWO63) % TWO64 - TWO63
  }

  /** The sequence `s` with `t` written over it at `off`. */
  function Splice<T>(s: seq<T>, off: nat, t: seq<T>): (r: seq<T>)
    requires off + |t| <= |s|
    ensures |r| == |s|
    ensures forall i {:trigger r[i]} :: 0 <= i < |s| ==> r[i] == if off <= i < off + |t| then t[i - off] else s[i]
  {
    s[..off] + t + s[off + |t|..]
  }

  lemma SubSlice<T>(s: seq<T>, i: nat, j: nat, a: nat, b: nat)
    requires a <= b <= j - i && i <= j <= |s|
    ensures s[i..j][a..b] == s[i + a..i + b]
  {
    var l, r := s[i..j][a..b], s[i + a..i + b];
    assert |l| == |r| && forall k :: 0 <= k < |l| ==> l[k] == s[i + a + k] == r[k];
  }

  function Zeros(n: nat): (r: seq<byte>)
    ensures |r| == n && forall i :: 0 <= i < n ==> r[i] == 0
  {
    seq(n, i => 0)
  }

  /** What a reader of `size` bytes gets from `s`: a prefix, or `s` padded with zeros. */
  function PadTake(s: seq<byte>, size: nat): (r: seq<byte>)
    ensures |r| == size
  {
    if size <= |s| then s[..size] else s + Zeros(size - |s|)
  }

  /** Reading one more cluster into a zeroed buffer. */
  lemma PadTakeSnoc(s: seq<byte>, clus: seq<byte>, size: nat)
    requires |s| < size
    ensures var n := if |s| + |clus| > size then size - |s| else |clus|;
            PadTake(s + clus, size) == Splice(PadTake(s, size), |s|, clus[..n])
  {
  }

  lemma PadTakePrefix(s: seq<byte>, t: seq<byte>, size: nat)
    requires |s| >= size
    ensures PadTake(s + t, size) == PadTake(s, size)
  {
  }

  lemma PadTakeExtend(data: seq<byte>, off: nat, size: nat)
    requires off <= |data|
    ensures PadTake(data, off) + PadTake(data[off..], size) == PadTake(data, off + size)
  {
  }

  /** A short read of a padded buffer is a prefix of the data. */
  lemma PadTakeTwice(data: seq<byte>, cap: nat, size: nat)
    requires size <= |data| && size <= cap
    ensures PadTake(PadTake(data, cap), size) == data[..size]
  {
  }

  function Le16(s: seq<byte>, off: nat): (v: nat)
    requires off + 2 <= |s|
    ensures v < 0x1_0000
  {
    s[off] as int + 0x100 * s[off + 1] as int
  }

  function Le32(s: seq<byte>, off: nat): (v: nat)
    requires off + 4 <= |s|
    ensures v < 0x1_0000_0000
  {
    Le16(s, off) + 0x1_0000 * Le16(s, off + 2)
  }

  function Le64(s: seq<byte>, off: nat): (v: nat)
    requires off + 8 <= |s|
    ensures v < 0x1_0000_0000_0000_0000
  {
    Le32(s, off) + 0x1_0000_0000 * Le32(s, off + 4)
  }

  /** The low sixteen bits of `v`, least significant byte first. */
  function Put16(v: nat): (r: seq<byte>)
    ensures |r| == 2
    ensures Le16(r, 0) == v % 0x1_0000
  {
    [v % 0x100, v / 0x100 % 0x100]
  }

  function Put32(v: nat): (r: seq<byte>)
    ensures |r| == 4
    ensures Le32(r, 0) == v % 0x1_0000_0000
  {
    GluedLe32(Put16(v), Put16(v / 0x1_0000));
    TwoHalves(v);
    Put16(v) + Put16(v / 0x1_0000)
  }

  lemma TwoHalves(v: nat)
    ensures v % 0x1_0000 + 0x1_0000 * (v / 0x1_0000 % 0x1_0000) == v % 0x1_0000_0000
  {
  }

  lemma GluedLe32(lo: seq<byte>, hi: seq<byte>)
    requires |lo| == |hi| == 2
    ensures Le32(lo + hi, 0) == Le16(lo, 0) + 0x1_0000 * Le16(hi, 0)
  {
    var r := lo + hi;
    assert Le16(r, 0) == Le16(lo, 0);
    assert Le16(r, 2) == Le16(hi, 0);
  }

  function Put64(v: nat): (r: seq<byte>)
    requires v < 0x1_0000_0000_0000_0000
    ensures |r| == 8
    ensures Le64(r, 0) == v
  {
    var lo, hi := Put32(v), Put32(v / 0x1_0000_0000);
    GluedLe64(lo, hi);
    TwoWords(v);
    lo + hi
  }

  lemma TwoWords(v: nat)
    requires v < 0x1_0000_0000_0000_0000
    ensures v % 0x1_0000_0000 + 0x1_0000_0000 * (v / 0x1_0000_0000 % 0x1_0000_0000) == v
  {
    assert v / 0x1_0000_0000 < 0x1_0000_0000;
  }

  lemma GluedLe64(lo: seq<byte>, hi: seq<byte>)
    requires |lo| == |hi| == 4
    ensures Le64(lo + hi, 0) == Le32(lo, 0) + 0x1_0000_0000 * Le32(hi, 0)
  {
    var r := lo + hi;
    assert Le32(r, 0) == Le32(lo, 0);
    assert Le32(r, 4) == Le32(hi, 0);
  }

  lemma SplicedLe16(s: seq<byte>, off: nat, t: seq<byte>)
    requires off + |t| <= |s| && |t| == 2
    ensures Le16(Splice(s, off, t), off) == Le16(t, 0)
  {
  }

  lemma SplicedLe32(s: seq<byte>, off: nat, t: seq<byte>)
    requires off + |t| <= |s| && |t| == 4
    ensures Le32(Splice(s, off, t), off) == Le32(t, 0)
  {
    var r := Splice(s, off, t);
    assert Le16(r, off) == Le16(t, 0);
    assert Le16(r, off + 2) == Le16(t, 2);
  }

  /** Words outside the written range read as before. */
  lemma OutsideLe32(s: seq<byte>, off: nat, t: seq<byte>, o: nat)
    requires off + |t| <= |s| && o + 4 <= |s| && (o + 4 <= off || off + |t| <= o)
    ensures Le32(Splice(s, off, t), o) == Le32(s, o)
  {
    var r := Splice(s, off, t);
    assert r[o] == s[o] && r[o + 1] == s[o + 1] && r[o + 2] == s[o + 2] && r[o + 3] == s[o + 3];
  }

  /** copy(a[off:], t) */
  method StoreBytes(a: array<byte>, off: nat, t: seq<byte>)
    requires off + |t| <= a.Length
    modifies a
    ensures a[..] == Splice(old(a[..]), off, t)
  {
    ghost var before := a[..];
    for i := 0 to |t|
      invariant forall k :: 0 <= k < a.Length ==> a[k] == if off <= k < off + i then t[k - off] else before[k]
    {
      a[off + i] := t[i];
    }
    assert a[..] == Splice(before, off, t);
  }

  function Round8(n: nat): (r: nat)
    ensures n <= r < n + 8 && r % 8 == 0
  {
    (n + 7) / 8 * 8
  }

  /** Equal bytes make equal words. */
  lemma SameLe16(a: seq<byte>, i: nat, b: seq<byte>, j: nat)
    requires i + 2 <= |a| && j + 2 <= |b| && a[i] == b[j] && a[i + 1] == b[j + 1]
    ensures Le16(a, i) == Le16(b, j)
  {
  }

  lemma SameLe32(a: seq<byte>, i: nat, b: seq<byte>, j: nat)
    requires i + 4 <= |a| && j + 4 <= |b|
    requires a[i] == b[j] && a[i + 1] == b[j + 1] && a[i + 2] == b[j + 2] && a[i + 3] == b[j + 3]
    ensures Le32(a, i) == Le32(b, j)
  {
  }

  /** The word at a place whose bytes are known. */
  lemma HalfAt(s: seq<byte>, i: nat, t: seq<byte>)
    requires |t| == 2 && i + 2 <= |s| && s[i..i + 2] == t
    ensures Le16(s, i) == Le16(t, 0)
  {
    var u := s[i..i + 2];
    assert u[0] == t[0] && u[1] == t[1];
  }

  lemma WordAt(s: seq<byte>, i: nat, t: seq<byte>)
    requires |t| == 4 && i + 4 <= |s| && s[i..i + 4] == t
    ensures Le32(s, i) == Le32(t, 0)
  {
    var u := s[i..i + 4];
    assert u[0] == t[0] && u[1] == t[1] && u[2] == t[2] && u[3] == t[3];
  }

  lemma QuadAt(s: seq<byte>, i: nat, t: seq<byte>)
    requires |t| == 8 && i + 8 <= |s| && s[i..i + 8] == t
    ensures Le64(s, i) == Le64(t, 0)
  {
    var u := s[i..i + 8];
    assert u[0] == t[0] && u[1] == t[1] && u[2] == t[2] && u[3] == t[3];
    assert u[4] == t[4] && u[5] == t[5] && u[6] == t[6] && u[7] == t[7];
    assert Le32(s, i) == Le32(t, 0);
    assert Le32(s, i + 4) == Le32(t, 4);
  }

  /** n bytes that nothing is known about. */
  method AnyBytes(n: nat) returns (b: seq<byte>)
    ensures |b| == n
  {
    b := *;
    if |b| != n {
      b := Zeros(n);
    }
  }
}
