/** Allocation bitmaps: one bit per cluster or block, least significant bit of a byte first. */
module Bitmap {
  import opened Bytes

  function Pow2(n: nat): (p: int)
    ensures p >= 1
  {
    if n == 0 then 1 else 2 * Pow2(n - 1)
  }

  /** b >> i & 1 */
  predicate BitOf(b: nat, i: nat)
    decreases i
  {
    if i == 0 then b % 2 == 1 else BitOf(b / 2, i - 1)
  }

  /** b | 1 << i, respectively b &^ (1 << i) */
  function PutBit(b: nat, i: nat, on: bool): (r: nat)
    decreases i
  {
    if i == 0 then b / 2 * 2 + (if on then 1 else 0) else PutBit(b / 2, i - 1, on) * 2 + b % 2
  }

  lemma {:induction false} PutBitGet(b: nat, i: nat, on: bool, j: nat)
    ensures BitOf(PutBit(b, i, on), j) == if j == i then on else BitOf(b, j)
    decreases i
  {
    if i > 0 && j > 0 {
      PutBitGet(b / 2, i - 1, on, j - 1);
      assert PutBit(b, i, on) / 2 == PutBit(b / 2, i - 1, on);
    }
  }

  lemma {:induction false} PutBitBound(b: nat, i: nat, on: bool, n: nat)
    requires i < n && b < Pow2(n)
    ensures PutBit(b, i, on) < Pow2(n)
    decreases i
  {
    if i > 0 { PutBitBound(b / 2, i - 1, on, n - 1); }
  }

  lemma ByteBound(b: byte, i: nat, on: bool)
    requires i < 8
    ensures PutBit(b, i, on) < 256
  {
    assert Pow2(3) == 8 && Pow2(6) == 64 && Pow2(8) == 256;
    PutBitBound(b, i, on, 8);
  }

  lemma {:induction false} AllOnes(n: nat, i: nat)
    requires i < n
    ensures BitOf(Pow2(n) - 1, i)
    decreases n
  {
    if i > 0 {
      AllOnes(n - 1, i - 1);
      assert (Pow2(n) - 1) / 2 == Pow2(n - 1) - 1;
    }
  }

  /** A byte 0xFF has every bit set, so skipping it skips nothing free. */
  lemma FullByte(i: nat)
    requires i < 8
    ensures BitOf(0xFF, i)
  {
    assert Pow2(3) == 8 && Pow2(6) == 64 && Pow2(8) == 256;
    AllOnes(8, i);
  }

  /** The bitmap as a sequence of bits. */
  ghost function Bits(bm: seq<byte>): (r: seq<bool>)
    ensures |r| == 8 * |bm|
    ensures forall k :: 0 <= k < |r| ==> r[k] == BitOf(bm[k / 8], k % 8)
  {
    seq(8 * |bm|, k requires 0 <= k < 8 * |bm| => BitOf(bm[k / 8], k % 8))
  }

  /** Storing one bit of one byte changes one bit of the view. */
  lemma BitsUpdate(bm: seq<byte>, k: nat, on: bool)
    requires k < 8 * |bm|
    ensures PutBit(bm[k / 8], k % 8, on) < 256
    ensures Bits(bm[k / 8 := PutBit(bm[k / 8], k % 8, on)]) == Bits(bm)[k := on]
  {
    ByteBound(bm[k / 8], k % 8, on);
    var r := bm[k / 8 := PutBit(bm[k / 8], k % 8, on)];
    forall m | 0 <= m < 8 * |bm| ensures Bits(r)[m] == Bits(bm)[k := on][m] {
      if m / 8 == k / 8 { PutBitGet(bm[k / 8], k % 8, on, m % 8); }
    }
  }

  /** Clear bits among the first n. */
  ghost function Clear(bits: seq<bool>, n: nat): nat
    requires n <= |bits|
  {
    if n == 0 then 0 else Clear(bits, n - 1) + (if bits[n - 1] then 0 else 1)
  }

  lemma {:induction false} ClearUpdate(bits: seq<bool>, n: nat, k: nat, on: bool)
    requires n <= |bits| && k < |bits| && bits[k] != on
    ensures Clear(bits[k := on], n) == if k < n then (if on then Clear(bits, n) - 1 else Clear(bits, n) + 1) else Clear(bits, n)
  {
    if n > 0 { ClearUpdate(bits, n - 1, k, on); }
  }

  lemma {:induction false} ClearBound(bits: seq<bool>, n: nat)
    requires n <= |bits|
    ensures Clear(bits, n) <= n
    ensures Clear(bits, n) == 0 <==> forall k :: 0 <= k < n ==> bits[k]
  {
    if n > 0 { ClearBound(bits, n - 1); }
  }

  method SetBit(bm: array<byte>, k: nat, on: bool)
    requires k < 8 * bm.Length
    modifies bm
    ensures Bits(bm[..]) == old(Bits(bm[..]))[k := on]
  {
    BitsUpdate(bm[..], k, on);
    ghost var before := bm[..];
    bm[k / 8] := PutBit(bm[k / 8], k % 8, on);
    assert bm[..] == before[k / 8 := PutBit(before[k / 8], k % 8, on)];
  }
}
