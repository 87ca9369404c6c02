/** The formatter's own runlist encoder for one contiguous run. */
module NtfsFormatRunlist {
  import opened Bytes
  import opened NtfsRunlist

  lemma {:induction false} ByteAt(v: int, n: nat, k: nat)
    requires k < n
    ensures LeBytes(v, n)[k] as int == Shr(v, k) % 256
    decreases n
  {
    if k > 0 { ByteAt(v / 256, n - 1, k - 1); }
  }

  lemma {:induction false} PrefixBytes(v: int, n: nat, m: nat)
    requires m <= n
    ensures LeBytes(v, n)[..m] == LeBytes(v, m)
    decreases n
  {
    if m > 0 {
      PrefixBytes(v / 256, n - 1, m - 1);
      assert LeBytes(v, n)[..m] == [v % 256] + LeBytes(v / 256, n - 1)[..m - 1];
    }
  }

  /** A zero top byte can go, and only a zero one. */
  lemma DropUnsigned(v: int, n: nat)
    requires n > 1 && FitsUnsigned(v, n)
    ensures Shr(v, n - 1) % 256 == 0 <==> FitsUnsigned(v, n - 1)
  {
    ShrBounds(v, n);
    ShrBounds(v, n - 1);
    ShrStep(v, n - 1);
  }

  /** A top byte that only repeats the sign of the byte below can go, and only such a one. */
  lemma DropSigned(v: int, n: nat)
    requires n > 1 && FitsSigned(v, n)
    ensures (if v >= 0 then Shr(v, n - 1) % 256 == 0 && Shr(v, n - 2) % 256 < 0x80
             else Shr(v, n - 1) % 256 == 0xFF && Shr(v, n - 2) % 256 >= 0x80) <==> FitsSigned(v, n - 1)
  {
    TopBitsBounds(v, n);
    TopBitsBounds(v, n - 1);
    ShrStep(v, n - 2);
    SignPair(v, Shr(v, n - 2), n);
  }

  lemma SignPair(v: int, w: int, n: nat)
    requires w / 256 / 128 == (if v >= 0 then 0 else -1)
    ensures (if v >= 0 then w / 256 % 256 == 0 && w % 256 < 0x80 else w / 256 % 256 == 0xFF && w % 256 >= 0x80)
            <==> w / 128 == (if v >= 0 then 0 else -1)
  {
  }

  /** Trims an eight-byte buffer to the bytes an unsigned number needs. */
  method VarLenUnsigned(v: int) returns (b: seq<byte>)
    requires 0 <= v < TWO63
    ensures b == LeBytes(v, MinUnsigned(v))
  {
    Pow8();
    if v == 0 {
      MinUnsignedIs(0, 1);
      return [0];
    }
    var buf, n := LeBytes(v, 8), 8;
    hide LeBytes, MinUnsigned, Shr, FitsUnsigned;
    while n > 1 && buf[n - 1] == 0
      invariant 1 <= n <= 8 && FitsUnsigned(v, n)
    {
      ByteAt(v, 8, n - 1);
      DropUnsigned(v, n);
      n := n - 1;
    }
    if n > 1 { ByteAt(v, 8, n - 1); DropUnsigned(v, n); }
    MinUnsignedIs(v, n);
    PrefixBytes(v, 8, n);
    b := buf[..n];
  }

  /** ... and to those a signed number needs. */
  method VarLenSigned(v: int) returns (b: seq<byte>)
    requires -TWO63 <= v < TWO63
    ensures b == LeBytes(v, MinSigned(v))
  {
    Pow8();
    var buf, n := LeBytes(v, 8), 8;
    hide LeBytes, MinSigned, Shr;
    assert FitsSigned(v, 8);
    hide FitsSigned;
    while n > 1
      invariant 1 <= n <= 8 && FitsSigned(v, n)
      invariant n > 1 || FitsSigned(v, 1)
    {
      ByteAt(v, 8, n - 1);
      ByteAt(v, 8, n - 2);
      DropSigned(v, n);
      if v >= 0 && buf[n - 1] == 0 && buf[n - 2] < 0x80 {
        n := n - 1;
      } else if v < 0 && buf[n - 1] == 0xFF && buf[n - 2] >= 0x80 {
        n := n - 1;
      } else {
        break;
      }
    }
    if n > 1 { ByteAt(v, 8, n - 1); ByteAt(v, 8, n - 2); DropSigned(v, n); }
    MinSignedIs(v, n);
    PrefixBytes(v, 8, n);
    b := buf[..n];
  }

  /** The formatter writes the same bytes as the driver does for a one-run list. */
  method EncodeRunList(startLcn: int, numClusters: int) returns (buf: seq<byte>)
    requires 0 <= startLcn < TWO63 && 0 <= numClusters < TWO63
    ensures buf == Encode([Run(startLcn, numClusters)], 0)
  {
    hide LeBytes, MinUnsigned, MinSigned, EncodeRun, RunBytes;
    var lenB := VarLenUnsigned(numClusters);
    var offB := VarLenSigned(startLcn);
    var r := Run(startLcn, numClusters);
    FieldsOf(r, 0);
    assert [r][1..] == [];
    buf := RunBytes(lenB, offB) + [0];
  }
}
