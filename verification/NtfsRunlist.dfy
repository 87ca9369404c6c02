/** The NTFS runlist codec: variable-width lengths and signed cluster deltas. */
module NtfsRunlist {
  import opened Bytes

  /** One extent; `lcn` is -1 for a sparse run. */
  datatype Run = Run(lcn: int, length: int)

  datatype Result<T> = Ok(value: T) | Err

  function Pow256(n: nat): (p: int)
    ensures p >= 1
  {
    if n == 0 then 1 else 256 * Pow256(n - 1)
  }

  /** v >> 8n, arithmetically. */
  function Shr(v: int, n: nat): int
    decreases n
  {
    if n == 0 then v else Shr(v / 256, n - 1)
  }

  /** The low n bytes of `v` in two's complement, least significant first. */
  function LeBytes(v: int, n: nat): (s: seq<byte>)
    ensures |s| == n
    decreases n
  {
    if n == 0 then [] else [v % 256] + LeBytes(v / 256, n - 1)
  }

  function LeUnsigned(s: seq<byte>): (v: nat) {
    if s == [] then 0 else s[0] as int + 256 * LeUnsigned(s[1..])
  }

  /** `v` fits n bytes as an unsigned, respectively a signed, number. */
  predicate FitsUnsigned(v: int, n: nat) {
    0 <= v < Pow256(n)
  }

  predicate FitsSigned(v: int, n: nat) {
    n > 0 && -128 * Pow256(n - 1) <= v < 128 * Pow256(n - 1)
  }

  /** Shifting everything out leaves 0 or -1 exactly for the numbers of that many bytes. */
  lemma {:induction false} ShrBounds(v: int, n: nat)
    ensures Shr(v, n) == 0 <==> 0 <= v < Pow256(n)
    ensures Shr(v, n) == -1 <==> -Pow256(n) <= v < 0
    decreases n
  {
    if n > 0 { ShrBounds(v / 256, n - 1); }
  }

  lemma {:induction false} ShrStep(v: int, n: nat)
    ensures Shr(v, n + 1) == Shr(v, n) / 256
    decreases n
  {
    if n > 0 { ShrStep(v / 256, n - 1); }
  }

  /** Reading back n bytes of `v` as unsigned gives `v`, or its two's complement. */
  lemma {:induction false} UnsignedOfBytes(v: int, n: nat)
    requires -Pow256(n) <= v < Pow256(n)
    ensures LeUnsigned(LeBytes(v, n)) == if v < 0 then v + Pow256(n) else v
    decreases n
  {
    if n > 0 {
      var s := LeBytes(v, n);
      assert s[1..] == LeBytes(v / 256, n - 1);
      UnsignedOfBytes(v / 256, n - 1);
    }
  }

  /** The sign bit of the last byte tells the sign of a number that fits. */
  lemma {:induction false} SignBit(v: int, n: nat)
    requires FitsSigned(v, n)
    ensures LeBytes(v, n)[n - 1] >= 0x80 <==> v < 0
    decreases n
  {
    if n > 1 {
      SignBit(v / 256, n - 1);
      assert LeBytes(v, n)[n - 1] == LeBytes(v / 256, n - 1)[n - 2];
    }
  }

  lemma {:induction false} PowMonotone(m: nat, n: nat)
    requires m <= n
    ensures Pow256(m) <= Pow256(n)
    ensures m < n ==> 256 * Pow256(m) <= Pow256(n)
    decreases n
  {
    if m < n { PowMonotone(m, n - 1); }
  }

  lemma Pow8()
    ensures 128 * Pow256(7) == TWO63 && Pow256(8) == TWO64
  {
    assert Pow256(3) == 0x100_0000;
    assert Pow256(6) == 0x1_0000_0000_0000;
  }

  /** Fewest bytes for an unsigned number; 0 takes one byte. */
  method MinBytesUnsigned(v: int) returns (n: nat)
    requires 0 <= v < TWO63
    ensures n >= 1 && n == MinUnsigned(v)
  {
    if v == 0 {
      MinUnsignedIs(0, 1);
      return 1;
    }
    n := 0;
    var w := v;
    while w > 0
      invariant w >= 0 && w == Shr(v, n) && (n > 0 ==> Shr(v, n - 1) > 0)
      decreases w
    {
      ShrStep(v, n);
      n := n + 1;
      w := w / 256;
    }
    ShrBounds(v, n);
    ShrBounds(v, n - 1);
    MinUnsignedIs(v, n);
  }

  /** The width the codec promises: the least number of bytes, at least one, that holds `v`. */
  ghost function MinUnsigned(v: int): (n: nat)
    requires 0 <= v < TWO63
    ensures 1 <= n <= 8 && FitsUnsigned(v, n) && forall m :: 1 <= m < n ==> !FitsUnsigned(v, m)
  {
    Pow8();
    LeastUnsigned(v, 1)
  }

  ghost function LeastUnsigned(v: int, from: nat): (n: nat)
    requires 1 <= from <= 8 && FitsUnsigned(v, 8)
    ensures from <= n <= 8 && FitsUnsigned(v, n) && forall m :: from <= m < n ==> !FitsUnsigned(v, m)
    decreases 8 - from
  {
    if FitsUnsigned(v, from) then from else LeastUnsigned(v, from + 1)
  }

  lemma MinUnsignedIs(v: int, n: nat)
    requires 0 <= v < TWO63 && n >= 1 && FitsUnsigned(v, n) && (n > 1 ==> !FitsUnsigned(v, n - 1))
    ensures n == MinUnsigned(v)
  {
    var k := MinUnsigned(v);
    if k < n { PowMonotone(k, n - 1); }
  }

  ghost function MinSigned(v: int): (n: nat)
    requires -TWO63 <= v < TWO63
    ensures 1 <= n <= 8 && FitsSigned(v, n) && forall m :: 1 <= m < n ==> !FitsSigned(v, m)
  {
    Pow8();
    LeastSigned(v, 1)
  }

  ghost function LeastSigned(v: int, from: nat): (n: nat)
    requires 1 <= from <= 8 && FitsSigned(v, 8)
    ensures from <= n <= 8 && FitsSigned(v, n) && forall m :: from <= m < n ==> !FitsSigned(v, m)
    decreases 8 - from
  {
    if FitsSigned(v, from) then from else LeastSigned(v, from + 1)
  }

  lemma MinSignedIs(v: int, n: nat)
    requires -TWO63 <= v < TWO63 && FitsSigned(v, n) && (n > 1 ==> !FitsSigned(v, n - 1))
    ensures n == MinSigned(v)
  {
    var k := MinSigned(v);
    if k < n { PowMonotone(k - 1, n - 2); }
  }

  /** v >> (8n - 1): the sign bit of the n-byte form and everything above it. */
  function TopBits(v: int, n: nat): int
    requires n > 0
  {
    Shr(v, n - 1) / 128
  }

  lemma {:induction false} TopBitsBounds(v: int, n: nat)
    requires n > 0
    ensures TopBits(v, n) == 0 <==> 0 <= v < 128 * Pow256(n - 1)
    ensures TopBits(v, n) == -1 <==> -128 * Pow256(n - 1) <= v < 0
    decreases n
  {
    if n > 1 {
      TopBitsBounds(v / 256, n - 1);
    }
  }

  /** Fewest bytes for a signed number, with an unambiguous sign bit. */
  method MinBytesSigned(v: int) returns (n: nat)
    requires -TWO63 <= v < TWO63
    ensures n == MinSigned(v)
  {
    if v == 0 {
      MinSignedIs(0, 1);
      return 1;
    }
    n := 1;
    var tmp := v;
    while true
      invariant n >= 1 && tmp == Shr(v, n - 1)
      invariant n > 1 ==> tmp != 0 && tmp != -1
      decreases if tmp >= 0 then tmp else -tmp
    {
      ShrStep(v, n - 1);
      tmp := tmp / 256;
      if tmp == 0 || tmp == -1 {
        break;
      }
      n := n + 1;
    }
    ShrBounds(v, n);
    ShrBounds(v, n - 1);
    TopBitsBounds(v, n);
    ghost var k := n;
    if v > 0 && TopBits(v, n) != 0 {
      n := n + 1;
    }
    if v < 0 && TopBits(v, n) != -1 {
      n := n + 1;
    }
    MinSignedIs(v, n);
  }

  /** The value of a length field: an int64 built from at most eight bytes. */
  function LengthField(s: seq<byte>): int {
    AsInt64(LeUnsigned(if |s| <= 8 then s else s[..8]))
  }

  /** The value of a delta field, sign-extended from its last byte when it is shorter than eight. */
  function DeltaField(s: seq<byte>): int
    requires |s| > 0
  {
    if |s| < 8 then LeUnsigned(s) - (if s[|s| - 1] >= 0x80 then Pow256(|s|) else 0)
    else AsInt64(LeUnsigned(s[..8]))
  }

  lemma LengthRoundTrip(v: int, n: nat)
    requires 0 <= v < TWO63 && 1 <= n <= 8 && FitsUnsigned(v, n)
    ensures LengthField(LeBytes(v, n)) == v
  {
    UnsignedOfBytes(v, n);
  }

  lemma DeltaRoundTrip(v: int, n: nat)
    requires -TWO63 <= v < TWO63 && n <= 8 && FitsSigned(v, n)
    ensures DeltaField(LeBytes(v, n)) == v
  {
    Pow8();
    UnsignedOfBytes(v, n);
    SignBit(v, n);
    var s := LeBytes(v, n);
    if n == 8 {
      assert s[..8] == s;
      WrapNegative(v);
    }
  }

  lemma WrapNegative(v: int)
    requires -TWO63 <= v < TWO63
    ensures AsInt64(if v < 0 then v + TWO64 else v) == v
  {
  }

  /** The two field widths in a header byte. */
  function LenNibble(hdr: byte): nat {
    hdr as int % 16
  }

  function OffNibble(hdr: byte): nat {
    hdr as int / 16
  }

  /** The runs stored in `data` from offset `i` on, deltas relative to `prev`. */
  function Decode(data: seq<byte>, i: nat, prev: int): Result<seq<Run>>
    requires i <= |data|
    decreases |data| - i
  {
    if i == |data| || data[i] == 0 then Ok([])
    else
      var j := i + 1 + LenNibble(data[i]);
      var next := j + OffNibble(data[i]);
      if next > |data| then Err
      else
        var lcn := if next > j then AsInt64(prev + DeltaField(data[j..next])) else prev;
        Cons(Run(if next > j then lcn else -1, LengthField(data[i + 1..j])), Decode(data, next, lcn))
  }

  function Cons(r: Run, rest: Result<seq<Run>>): Result<seq<Run>> {
    match rest
    case Ok(rs) => Ok([r] + rs)
    case Err => Err
  }

  /** A header byte with the two field widths, then the fields. */
  function RunBytes(lenField: seq<byte>, offField: seq<byte>): (r: seq<byte>)
    requires |lenField| <= 8 && |offField| <= 8
    ensures |r| == 1 + |lenField| + |offField|
  {
    [|offField| * 16 + |lenField|] + lenField + offField
  }

  ghost function LenFieldOf(r: Run): (s: seq<byte>)
    requires Storable(r)
    ensures 1 <= |s| <= 8
  {
    LeBytes(r.length, MinUnsigned(r.length))
  }

  ghost function OffFieldOf(r: Run, prev: int): (s: seq<byte>)
    requires Storable(r) && 0 <= prev < TWO63
    ensures |s| <= 8 && (s == [] <==> r.lcn < 0)
  {
    if r.lcn >= 0 then LeBytes(r.lcn - prev, MinSigned(r.lcn - prev)) else []
  }

  /** The bytes of one run: minimal fields, no offset field for a sparse run. */
  ghost function EncodeRun(r: Run, prev: int): seq<byte>
    requires Storable(r) && 0 <= prev < TWO63
  {
    RunBytes(LenFieldOf(r), OffFieldOf(r, prev))
  }

  function NextPrev(r: Run, prev: int): int {
    if r.lcn >= 0 then r.lcn else prev
  }

  ghost function Encode(runs: seq<Run>, prev: int): seq<byte>
    requires AllStorable(runs) && 0 <= prev < TWO63
  {
    if runs == [] then [0] else EncodeRun(runs[0], prev) + Encode(runs[1..], NextPrev(runs[0], prev))
  }

  /** Lengths from 0, cluster numbers from 0 or the sparse mark -1, all within int64. */
  predicate Storable(r: Run) {
    0 <= r.length < TWO63 && -1 <= r.lcn < TWO63
  }

  predicate AllStorable(runs: seq<Run>) {
    forall i :: 0 <= i < |runs| ==> Storable(runs[i])
  }

  lemma FieldValues(r: Run, prev: int)
    requires Storable(r) && 0 <= prev < TWO63
    ensures LengthField(LenFieldOf(r)) == r.length
    ensures r.lcn >= 0 ==> AsInt64(prev + DeltaField(OffFieldOf(r, prev))) == r.lcn
  {
    hide AsInt64, LengthField, DeltaField, LeBytes;
    LengthRoundTrip(r.length, MinUnsigned(r.length));
    if r.lcn >= 0 { DeltaRoundTrip(r.lcn - prev, MinSigned(r.lcn - prev)); }
  }

  /** The decoder over the bytes of one encoded run. */
  lemma DecodeOne(data: seq<byte>, i: nat, r: Run, prev: int)
    requires Storable(r) && 0 <= prev < TWO63
    requires i + |EncodeRun(r, prev)| <= |data| && data[i..i + |EncodeRun(r, prev)|] == EncodeRun(r, prev)
    ensures Decode(data, i, prev) == Cons(r, Decode(data, i + |EncodeRun(r, prev)|, NextPrev(r, prev)))
  {
    hide AsInt64, LengthField, DeltaField, LenFieldOf, OffFieldOf, LenNibble, OffNibble;
    var lenField, offField := LenFieldOf(r), OffFieldOf(r, prev);
    FieldValues(r, prev);
    var n, k := |lenField|, |offField|;
    var s := data[i..i + 1 + n + k];
    HeaderNibbles(n, k);
    assert data[i] == s[0];
    SubSlice(data, i, i + 1 + n + k, 1, 1 + n);
    SubSlice(data, i, i + 1 + n + k, 1 + n, 1 + n + k);
  }

  lemma HeaderNibbles(n: nat, k: nat)
    requires 1 <= n <= 8 && k <= 8
    ensures 0 < k * 16 + n < 256 && LenNibble(k * 16 + n) == n && OffNibble(k * 16 + n) == k
  {
  }

  lemma {:induction false} DecodeEncodeAt(data: seq<byte>, i: nat, runs: seq<Run>, prev: int)
    requires AllStorable(runs) && 0 <= prev < TWO63
    requires i + |Encode(runs, prev)| <= |data| && data[i..i + |Encode(runs, prev)|] == Encode(runs, prev)
    ensures Decode(data, i, prev) == Ok(runs)
    decreases |runs|
  {
    hide *;
    var s := Encode(runs, prev);
    EncodeUnfold(runs, prev);
    if runs == [] {
      assert data[i] == data[i..i + |s|][0] == 0;
      DecodeZero(data, i, prev);
    } else {
      var one, next := EncodeRun(runs[0], prev), NextPrev(runs[0], prev);
      var tail := Encode(runs[1..], next);
      SubSlice(data, i, i + |s|, 0, |one|);
      SubSlice(data, i, i + |s|, |one|, |s|);
      assert s[0..|one|] == one && s[|one|..|s|] == tail;
      DecodeOne(data, i, runs[0], prev);
      DecodeEncodeAt(data, i + |one|, runs[1..], next);
      ConsTail(runs);
    }
  }

  lemma EncodeUnfold(runs: seq<Run>, prev: int)
    requires AllStorable(runs) && 0 <= prev < TWO63
    ensures if runs == [] then Encode(runs, prev) == [0]
            else Storable(runs[0]) && AllStorable(runs[1..]) && 0 <= NextPrev(runs[0], prev) < TWO63
                 && Encode(runs, prev) == EncodeRun(runs[0], prev) + Encode(runs[1..], NextPrev(runs[0], prev))
  {
    hide EncodeRun;
  }

  lemma DecodeZero(data: seq<byte>, i: nat, prev: int)
    requires i < |data| && data[i] == 0
    ensures Decode(data, i, prev) == Ok([])
  {
  }

  lemma ConsTail(runs: seq<Run>)
    requires runs != []
    ensures Cons(runs[0], Ok(runs[1..])) == Ok(runs)
  {
    assert [runs[0]] + runs[1..] == runs;
  }

  /** Decoding an encoded runlist, whatever bytes follow it, gives the runs back. */
  lemma DecodeEncode(runs: seq<Run>, padding: seq<byte>)
    requires AllStorable(runs)
    ensures Decode(Encode(runs, 0) + padding, 0, 0) == Ok(runs)
  {
    var s := Encode(runs, 0);
    assert (s + padding)[0..|s|] == s;
    DecodeEncodeAt(s + padding, 0, runs, 0);
  }

  function Prepend(runs: seq<Run>, rest: Result<seq<Run>>): Result<seq<Run>> {
    match rest
    case Ok(rs) => Ok(runs + rs)
    case Err => Err
  }

  lemma PrependCons(runs: seq<Run>, r: Run, rest: Result<seq<Run>>)
    ensures Prepend(runs, Cons(r, rest)) == Prepend(runs + [r], rest)
    ensures Prepend(runs, Ok([])) == Ok(runs) && (runs == [] ==> Prepend(runs, rest) == rest)
  {
    assert runs + [] == runs;
    if rest.Ok? { assert runs + ([r] + rest.value) == runs + [r] + rest.value && [] + rest.value == rest.value; }
  }

  /** The decoder's loop. */
  method DecodeRunlist(data: seq<byte>) returns (r: Result<seq<Run>>)
    ensures r == Decode(data, 0, 0)
  {
    hide LengthField, DeltaField, AsInt64, LenNibble, OffNibble, Prepend, Cons;
    var runs: seq<Run>, prev, i := [], 0, 0;
    PrependCons([], Run(0, 0), Decode(data, 0, 0));
    while i < |data|
      invariant 0 <= i <= |data| && Decode(data, 0, 0) == Prepend(runs, Decode(data, i, prev))
    {
      PrependCons(runs, Run(0, 0), Err);
      var hdr := data[i];
      if hdr == 0 {
        return Ok(runs);
      }
      var j := i + 1 + LenNibble(hdr);
      var next := j + OffNibble(hdr);
      if next > |data| {
        PrependErr(runs);
        return Err;
      }
      var length, lcn := LengthField(data[i + 1..j]), -1;
      if next > j {
        prev := AsInt64(prev + DeltaField(data[j..next]));
        lcn := prev;
      }
      PrependCons(runs, Run(lcn, length), Decode(data, next, prev));
      runs := runs + [Run(lcn, length)];
      i := next;
    }
    PrependCons(runs, Run(0, 0), Err);
    return Ok(runs);
  }

  lemma PrependErr(runs: seq<Run>)
    ensures Prepend(runs, Err) == Err
  {
  }

  lemma EncodeAt(out: seq<byte>, runs: seq<Run>, i: nat, prev: int)
    requires AllStorable(runs) && i < |runs| && 0 <= prev < TWO63
    ensures out + Encode(runs[i..], prev) == out + EncodeRun(runs[i], prev) + Encode(runs[i + 1..], NextPrev(runs[i], prev))
  {
    hide EncodeRun;
    assert runs[i..][1..] == runs[i + 1..];
  }

  lemma FieldsOf(r: Run, prev: int)
    requires Storable(r) && 0 <= prev < TWO63
    ensures EncodeRun(r, prev) == RunBytes(LeBytes(r.length, MinUnsigned(r.length)),
                                           if r.lcn >= 0 then LeBytes(r.lcn - prev, MinSigned(r.lcn - prev)) else [])
  {
  }

  /** The encoder's loop. */
  method EncodeRunlist(runs: seq<Run>) returns (out: seq<byte>)
    requires AllStorable(runs)
    ensures out == Encode(runs, 0)
  {
    out := [];
    var prev := 0;
    assert runs[0..] == runs && [] + Encode(runs, 0) == Encode(runs, 0);
    hide Encode, EncodeRun, RunBytes, MinUnsigned, MinSigned, LeBytes, LenFieldOf, OffFieldOf;
    for i := 0 to |runs|
      invariant 0 <= prev < TWO63
      invariant out + Encode(runs[i..], prev) == Encode(runs, 0)
    {
      var r := runs[i];
      EncodeAt(out, runs, i, prev);
      var lenBytes := MinBytesUnsigned(r.length);
      var lenField, offField := LeBytes(r.length, lenBytes), [];
      ghost var prev0 := prev;
      if r.lcn >= 0 {
        var offBytes := MinBytesSigned(r.lcn - prev);
        offField := LeBytes(r.lcn - prev, offBytes);
        prev := r.lcn;
      }
      FieldsOf(r, prev0);
      out := out + RunBytes(lenField, offField);
    }
    assert runs[|runs|..] == [];
    out := out + [0];
  }
}
