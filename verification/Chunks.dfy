/** Cutting a buffer into equal chunks and gluing the chunks back together. */
module Chunks {
  import opened Bytes

  /** `k * size`, by repeated addition: the offset of chunk `k`. */
  function Times(k: nat, size: nat): (r: nat) {
    if k == 0 then 0 else Times(k - 1, size) + size
  }

  lemma {:induction false} TimesIsProduct(k: nat, size: nat)
    ensures Times(k, size) == k * size
  {
    if k > 0 {
      TimesIsProduct(k - 1, size);
      assert k * size == (k - 1) * size + size;
    }
  }

  lemma TimesStep(k: nat, size: nat)
    ensures Times(k + 1, size) == Times(k, size) + size
  {
  }

  lemma {:induction false} TimesAdd(j: nat, k: nat, size: nat)
    ensures Times(j + k, size) == Times(j, size) + Times(k, size)
  {
    if k > 0 { TimesAdd(j, k - 1, size); }
  }

  lemma {:induction false} TimesMonotone(j: nat, k: nat, size: nat)
    requires j <= k
    ensures Times(j, size) <= Times(k, size)
    ensures j < k ==> Times(j, size) + size <= Times(k, size)
    decreases k
  {
    if j < k {
      TimesMonotone(j, k - 1, size);
    }
  }

  function Concat<T>(cs: seq<seq<T>>): seq<T> {
    if cs == [] then [] else cs[0] + Concat(cs[1..])
  }

  function Chop<T>(s: seq<T>, size: nat, count: nat): (cs: seq<seq<T>>)
    requires |s| == Times(count, size)
    ensures |cs| == count
    ensures forall i :: 0 <= i < count ==> |cs[i]| == size
    decreases count
  {
    if count == 0 then [] else [s[..size]] + Chop(s[size..], size, count - 1)
  }

  lemma {:induction false} ConcatChop<T>(s: seq<T>, size: nat, count: nat)
    requires |s| == Times(count, size)
    ensures Concat(Chop(s, size, count)) == s
    decreases count
  {
    if count != 0 {
      var cs := Chop(s, size, count);
      assert cs[1..] == Chop(s[size..], size, count - 1);
      ConcatChop(s[size..], size, count - 1);
    }
  }

  lemma {:induction false} ConcatLength<T>(cs: seq<seq<T>>, size: nat)
    requires forall i :: 0 <= i < |cs| ==> |cs[i]| == size
    ensures |Concat(cs)| == Times(|cs|, size)
  {
    if cs != [] {
      ConcatLength(cs[1..], size);
    }
  }

  lemma ConcatOne<T>(b: seq<T>)
    ensures Concat([b]) == b
  {
    assert [b][1..] == [] && Concat([b][1..]) == [] && b + [] == b;
  }

  lemma {:induction false} ConcatAppend<T>(a: seq<seq<T>>, b: seq<seq<T>>)
    ensures Concat(a + b) == Concat(a) + Concat(b)
  {
    if a == [] {
      assert a + b == b;
    } else {
      assert (a + b)[0] == a[0] && (a + b)[1..] == a[1..] + b;
      ConcatAppend(a[1..], b);
    }
  }

  /** The k-th chunk of a cut buffer is the k-th slice of it. */
  lemma {:induction false} ChopAt<T>(s: seq<T>, size: nat, count: nat, k: nat)
    requires |s| == Times(count, size) && k < count
    ensures Times(k, size) + size <= |s|
    ensures Chop(s, size, count)[k] == s[Times(k, size)..Times(k, size) + size]
    decreases count
  {
    TimesMonotone(k, count, size);
    if k > 0 {
      TimesMonotone(k - 1, count - 1, size);
      var rest := s[size..];
      ChopAt(rest, size, count - 1, k - 1);
      var a := Times(k - 1, size);
      assert rest[a..a + size] == s[a + size..a + size + size];
    }
  }

  /** Overwriting the k-th of equally long chunks overwrites the k-th slice of the whole. */
  lemma {:induction false} ConcatUpdate<T>(cs: seq<seq<T>>, size: nat, k: nat, c: seq<T>)
    requires forall i :: 0 <= i < |cs| ==> |cs[i]| == size
    requires k < |cs| && |c| == size
    ensures Times(k, size) + size <= |Concat(cs)|
    ensures Concat(cs[k := c]) == Splice(Concat(cs), Times(k, size), c)
  {
    ConcatLength(cs, size);
    TimesMonotone(k, |cs|, size);
    var rest := cs[1..];
    if k == 0 {
      assert cs[0 := c][1..] == rest;
    } else {
      ConcatUpdate(rest, size, k - 1, c);
      assert cs[k := c][1..] == rest[k - 1 := c];
    }
  }

  /** The j-th cluster-sized piece of `data`, the last one padded with zeros. */
  function Piece(data: seq<byte>, j: nat, size: nat): (r: seq<byte>)
    ensures |r| == size
  {
    var off := Times(j, size);
    PadTake(if off <= |data| then data[off..] else [], size)
  }

  /** The writer's cluster buffer: zeros, with what is left of the data copied in. */
  lemma PieceIsCopy(data: seq<byte>, j: nat, size: nat)
    requires Times(j, size) <= |data|
    ensures var off := Times(j, size);
            var n := if off + size > |data| then |data| - off else size;
            Splice(Zeros(size), 0, data[off..off + n]) == Piece(data, j, size)
  {
  }

  /** Chunks of `per` bytes needed for `size` bytes. */
  function Ceil(size: nat, per: nat): (k: nat)
    requires per > 0
  {
    (size + per - 1) / per
  }

  lemma CeilBounds(size: nat, per: nat)
    requires per > 0
    ensures var k := Ceil(size, per); size <= Times(k, per) && (k >= 1 ==> Times(k - 1, per) < size)
  {
    var k := Ceil(size, per);
    TimesIsProduct(k, per);
    DivBounds(size + per - 1, per);
    if k >= 1 { TimesIsProduct(k - 1, per); MulDown(k, per); }
  }

  lemma DivBounds(a: nat, per: nat)
    requires per > 0
    ensures a / per * per <= a < a / per * per + per
  {
  }

  lemma MulDown(k: nat, per: nat)
    requires k >= 1
    ensures (k - 1) * per == k * per - per
  {
  }

  lemma Multiples(k: int, d: int)
    requires d >= 0
    ensures k >= 1 ==> k * d >= d
    ensures k <= -1 ==> k * d <= 0 - d
    ensures k == 0 ==> k * d == 0
  {
  }

  lemma DivMod(q: nat, r: nat, d: nat)
    requires r < d
    ensures (q * d + r) / d == q && (q * d + r) % d == r
  {
    var x := q * d + r;
    var q', r' := x / d, x % d;
    assert x == q' * d + r' && 0 <= r' < d;
    assert (q' - q) * d == r - r';
    Multiples(q' - q, d);
  }

  /** Cutting what was glued together gives the chunks back. */
  lemma {:induction false} ChopConcat<T>(cs: seq<seq<T>>, size: nat)
    requires forall i :: 0 <= i < |cs| ==> |cs[i]| == size
    ensures |Concat(cs)| == Times(|cs|, size) && Chop(Concat(cs), size, |cs|) == cs
    decreases |cs|
  {
    ConcatLength(cs, size);
    if cs != [] {
      ChopConcat(cs[1..], size);
      var s := Concat(cs);
      assert s[..size] == cs[0] && s[size..] == Concat(cs[1..]);
      assert [cs[0]] + cs[1..] == cs;
    }
  }

  /** Piece i of equal pieces glued together. */
  lemma PieceAt<T>(cs: seq<seq<T>>, size: nat, i: nat)
    requires i < |cs| && forall k :: 0 <= k < |cs| ==> |cs[k]| == size
    ensures |Concat(cs)| == |cs| * size && i * size + size <= |cs| * size && Concat(cs)[i * size..i * size + size] == cs[i]
  {
    ChopConcat(cs, size);
    ChopAt(Concat(cs), size, |cs|, i);
    TimesIsProduct(|cs|, size);
    TimesIsProduct(i, size);
    TimesMonotone(i, |cs|, size);
  }
}
