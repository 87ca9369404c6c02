/** Reading and writing the clusters a runlist names. */
module NtfsRuns {
  import opened Bytes
  import opened Chunks
  import opened NtfsRunlist

  /** The run's clusters lie on the device; a sparse run needs none. */
  ghost predicate OnDisk(disk: seq<byte>, cs: nat, r: Run) {
    r.length >= 0 && (r.lcn >= 0 ==> Times(r.lcn, cs) + Times(r.length, cs) <= |disk|)
  }

  ghost predicate AllOnDisk(disk: seq<byte>, cs: nat, runs: seq<Run>) {
    forall i :: 0 <= i < |runs| ==> OnDisk(disk, cs, runs[i])
  }

  ghost function RunData(disk: seq<byte>, cs: nat, r: Run): (d: seq<byte>)
    requires OnDisk(disk, cs, r)
    ensures |d| == Times(r.length, cs)
  {
    if r.lcn < 0 then Zeros(Times(r.length, cs)) else disk[Times(r.lcn, cs)..Times(r.lcn, cs) + Times(r.length, cs)]
  }

  /** Everything the runlist describes, in file order. */
  ghost function AllData(disk: seq<byte>, cs: nat, runs: seq<Run>): seq<byte>
    requires AllOnDisk(disk, cs, runs)
  {
    if runs == [] then [] else AllData(disk, cs, runs[..|runs| - 1]) + RunData(disk, cs, runs[|runs| - 1])
  }

  lemma AllDataSnoc(disk: seq<byte>, cs: nat, runs: seq<Run>, i: nat)
    requires AllOnDisk(disk, cs, runs) && i < |runs|
    ensures AllOnDisk(disk, cs, runs[..i]) && AllOnDisk(disk, cs, runs[..i + 1])
    ensures AllData(disk, cs, runs[..i + 1]) == AllData(disk, cs, runs[..i]) + RunData(disk, cs, runs[i])
  {
    assert runs[..i + 1][..i] == runs[..i];
  }

  lemma {:induction false} AllDataPrefix(disk: seq<byte>, cs: nat, runs: seq<Run>, i: nat)
    requires AllOnDisk(disk, cs, runs) && i <= |runs|
    ensures AllOnDisk(disk, cs, runs[..i]) && AllData(disk, cs, runs[..i]) <= AllData(disk, cs, runs)
    decreases |runs| - i
  {
    if i < |runs| {
      AllDataSnoc(disk, cs, runs, i);
      AllDataPrefix(disk, cs, runs, i + 1);
    } else {
      assert runs[..i] == runs;
    }
  }

  /** The reader has copied runs[..i]. */
  ghost predicate RunsRead(disk: seq<byte>, cs: nat, runs: seq<Run>, i: nat, size: nat, out: seq<byte>, written: nat) {
    && i <= |runs| && AllOnDisk(disk, cs, runs[..i])
    && var d := AllData(disk, cs, runs[..i]); out == PadTake(d, size) && written == if |d| < size then |d| else size
  }

  lemma RunsStart(disk: seq<byte>, cs: nat, runs: seq<Run>, size: nat)
    ensures RunsRead(disk, cs, runs, 0, size, Zeros(size), 0)
  {
    assert runs[..0] == [];
  }

  lemma RunStep(disk: seq<byte>, cs: nat, runs: seq<Run>, i: nat, size: nat, out: seq<byte>, written: nat)
    requires AllOnDisk(disk, cs, runs) && i < |runs| && RunsRead(disk, cs, runs, i, size, out, written) && written < size
    ensures OnDisk(disk, cs, runs[i]) && |out| == size
    ensures var total := Times(runs[i].length, cs);
            var n := if written + total > size then size - written else total;
            && n <= total
            && RunsRead(disk, cs, runs, i + 1, size, Splice(out, written, RunData(disk, cs, runs[i])[..n]), written + n)
            && (runs[i].lcn < 0 ==> Splice(out, written, RunData(disk, cs, runs[i])[..n]) == out)
  {
    AllDataSnoc(disk, cs, runs, i);
    var d := AllData(disk, cs, runs[..i]);
    PadTakeSnoc(d, RunData(disk, cs, runs[i]), size);
  }

  lemma RunsDone(disk: seq<byte>, cs: nat, runs: seq<Run>, i: nat, size: nat, out: seq<byte>, written: nat)
    requires AllOnDisk(disk, cs, runs) && RunsRead(disk, cs, runs, i, size, out, written) && (i == |runs| || written >= size)
    ensures out == PadTake(AllData(disk, cs, runs), size)
  {
    AllDataPrefix(disk, cs, runs, i);
    assert i == |runs| ==> runs[..i] == runs;
    var d, all := AllData(disk, cs, runs[..i]), AllData(disk, cs, runs);
    assert all == d + all[|d|..];
    if i < |runs| { PadTakePrefix(d, all[|d|..], size); }
  }

  lemma RunSlice(disk: seq<byte>, cs: nat, r: Run, a: nat, n: nat)
    requires OnDisk(disk, cs, r) && a + n <= Times(r.length, cs)
    ensures r.lcn < 0 ==> RunData(disk, cs, r)[a..a + n] == Zeros(n)
    ensures r.lcn >= 0 ==> Times(r.lcn, cs) + a + n <= |disk|
    ensures r.lcn >= 0 ==> RunData(disk, cs, r)[a..a + n] == disk[Times(r.lcn, cs) + a..Times(r.lcn, cs) + a + n]
  {
    if r.lcn >= 0 { SubSlice(disk, Times(r.lcn, cs), Times(r.lcn, cs) + Times(r.length, cs), a, a + n); }
  }

  /** Reads `size` bytes of a runlist; sparse runs and the space past the last run are zeros. */
  method ReadRuns(disk: seq<byte>, cs: nat, runs: seq<Run>, size: nat) returns (out: seq<byte>)
    requires AllOnDisk(disk, cs, runs)
    ensures out == PadTake(AllData(disk, cs, runs), size)
  {
    hide *;
    out := Zeros(size);
    var written: nat, i := 0, 0;
    RunsStart(disk, cs, runs, size);
    while i < |runs| && written < size
      invariant 0 <= i <= |runs| && RunsRead(disk, cs, runs, i, size, out, written)
    {
      RunStep(disk, cs, runs, i, size, out, written);
      var r := runs[i];
      var n := Times(r.length, cs);
      if written + n > size {
        n := size - written;
      }
      if r.lcn >= 0 {
        var off := Times(r.lcn, cs);
        RunSlice(disk, cs, r, 0, n);
        out := Splice(out, written, disk[off..off + n]);
      }
      written := written + n;
      i := i + 1;
    }
    RunsDone(disk, cs, runs, i, size, out, written);
  }

  /** What a positioned read holds once it stands behind the data `d`: everything from `at` on. */
  ghost predicate Behind(d: seq<byte>, at: nat, got: seq<byte>) {
    if got == [] then |d| <= at else at + |got| == |d| && got == d[at..]
  }

  /** `got` is the longest part of `all` that starts at `at` and fits `want` bytes. */
  ghost predicate Slice(all: seq<byte>, at: nat, want: nat, got: seq<byte>) {
    if at >= |all| then got == [] else got == all[at..if at + want <= |all| then at + want else |all|]
  }

  /** One more run `rd` behind `d`: skipped, taken to its end, or cut short by the buffer. */
  lemma BehindStep(d: seq<byte>, rd: seq<byte>, at: nat, got: seq<byte>, want: nat)
    requires Behind(d, at, got) && |got| <= want
    ensures |d| <= at + |got|
    ensures if |d| + |rd| <= at + |got| then Behind(d + rd, at, got)
            else
              var intra := at + |got| - |d|;
              var can := if |rd| - intra > want - |got| then want - |got| else |rd| - intra;
              if can == |rd| - intra then Behind(d + rd, at, got + rd[intra..intra + can])
              else at + want <= |d + rd| && got + rd[intra..intra + can] == (d + rd)[at..at + want]
  {
    var e := d + rd;
    if |d| + |rd| <= at + |got| {
      assert got != [] ==> e == d;
    } else {
      var intra := at + |got| - |d|;
      var can := if |rd| - intra > want - |got| then want - |got| else |rd| - intra;
      var more := got + rd[intra..intra + can];
      assert |more| == |got| + can;
      assert forall k :: 0 <= k < |more| ==> more[k] == e[at + k];
      assert more == e[at..at + |more|];
    }
  }

  ghost predicate PartRead(disk: seq<byte>, cs: nat, runs: seq<Run>, i: nat, at: nat, got: seq<byte>, before: nat) {
    && i <= |runs| && AllOnDisk(disk, cs, runs[..i])
    && before == |AllData(disk, cs, runs[..i])| && Behind(AllData(disk, cs, runs[..i]), at, got)
  }

  lemma PartStep(disk: seq<byte>, cs: nat, runs: seq<Run>, i: nat, at: nat, got: seq<byte>, before: nat, want: nat)
    requires AllOnDisk(disk, cs, runs) && i < |runs| && PartRead(disk, cs, runs, i, at, got, before) && |got| <= want
    ensures OnDisk(disk, cs, runs[i]) && runs[i].length >= 0 && before <= at + |got|
    ensures var total := Times(runs[i].length, cs);
            if before + total <= at + |got| then PartRead(disk, cs, runs, i + 1, at, got, before + total)
            else
              var intra := at + |got| - before;
              var can := if total - intra > want - |got| then want - |got| else total - intra;
              var more := got + RunData(disk, cs, runs[i])[intra..intra + can];
              if can == total - intra then PartRead(disk, cs, runs, i + 1, at, more, before + total)
              else Slice(AllData(disk, cs, runs), at, want, more)
  {
    hide *;
    AllDataSnoc(disk, cs, runs, i);
    AllDataPrefix(disk, cs, runs, i + 1);
    PartReadIs(disk, cs, runs, i, at, got, before);
    var d, rd := AllData(disk, cs, runs[..i]), RunData(disk, cs, runs[i]);
    BehindStep(d, rd, at, got, want);
    var total := |rd|;
    if before + total <= at + |got| {
      PartReadIs(disk, cs, runs, i + 1, at, got, before + total);
    } else {
      var intra := at + |got| - before;
      var can := if total - intra > want - |got| then want - |got| else total - intra;
      var more := got + rd[intra..intra + can];
      PartReadIs(disk, cs, runs, i + 1, at, more, before + total);
      PrefixSlice(d + rd, AllData(disk, cs, runs), at, want);
    }
  }

  lemma PartReadIs(disk: seq<byte>, cs: nat, runs: seq<Run>, i: nat, at: nat, got: seq<byte>, before: nat)
    requires i <= |runs| && AllOnDisk(disk, cs, runs[..i])
    ensures var d := AllData(disk, cs, runs[..i]);
            PartRead(disk, cs, runs, i, at, got, before) <==> before == |d| && Behind(d, at, got)
    ensures i < |runs| && AllOnDisk(disk, cs, runs) ==> OnDisk(disk, cs, runs[i]) && runs[i].length >= 0
  {
  }

  lemma PrefixSlice(e: seq<byte>, all: seq<byte>, at: nat, want: nat)
    requires e <= all
    ensures at + want <= |e| ==> Slice(all, at, want, e[at..at + want])
  {
  }

  lemma PartStart(disk: seq<byte>, cs: nat, runs: seq<Run>, at: nat, got: seq<byte>)
    requires got == []
    ensures PartRead(disk, cs, runs, 0, at, got, 0)
  {
    assert runs[..0] == [];
  }

  lemma PartDone(disk: seq<byte>, cs: nat, runs: seq<Run>, i: nat, at: nat, got: seq<byte>, before: nat, want: nat)
    requires AllOnDisk(disk, cs, runs) && PartRead(disk, cs, runs, i, at, got, before) && |got| <= want
    ensures i == |runs| || (|got| == want && got != []) ==> Slice(AllData(disk, cs, runs), at, want, got)
  {
    AllDataPrefix(disk, cs, runs, i);
    assert i == |runs| ==> runs[..i] == runs;
  }

  /** Fills `p` from byte offset `at` of the described data and returns how much of it was there. */
  method ReadRunsAt(disk: seq<byte>, cs: nat, runs: seq<Run>, at: nat, p: array<byte>) returns (n: nat)
    requires AllOnDisk(disk, cs, runs)
    modifies p
    ensures n <= p.Length && p[n..] == old(p[n..])
    ensures Slice(AllData(disk, cs, runs), at, p.Length, p[..n])
  {
    hide *;
    ghost var p0, got: seq<byte> := p[..], [];
    n := 0;
    var before: nat, i, want := 0, 0, p.Length;
    PartStart(disk, cs, runs, at, got);
    assert p[..] == Splice(p0, 0, got);
    while i < |runs|
      invariant 0 <= i <= |runs| && n == |got| <= want && PartRead(disk, cs, runs, i, at, got, before)
      invariant p[..] == Splice(p0, 0, got)
    {
      var r := runs[i];
      PartStep(disk, cs, runs, i, at, got, before, want);
      var total := Times(r.length, cs);
      if before + total > at + n {
        var intra := at + n - before;
        var can := total - intra;
        if can > want - n {
          can := want - n;
        }
        ghost var chunk := RunData(disk, cs, r)[intra..intra + can];
        StoreRun(disk, cs, r, intra, can, p, n);
        got := got + chunk;
        n := n + can;
        before := before + total;
        if n >= want {
          if can == total - intra { PartDone(disk, cs, runs, i + 1, at, got, before, want); }
          Spliced(p0, got, p[..]);
          return;
        }
      } else {
        before := before + total;
      }
      i := i + 1;
    }
    PartDone(disk, cs, runs, i, at, got, before, want);
    Spliced(p0, got, p[..]);
  }

  lemma Spliced(p0: seq<byte>, got: seq<byte>, p: seq<byte>)
    requires |got| <= |p0| && p == Splice(p0, 0, got)
    ensures p[..|got|] == got && p[|got|..] == p0[|got|..]
  {
  }

  /** Copies part of a run, or zeros for a sparse one, into the caller's buffer. */
  method StoreRun(disk: seq<byte>, cs: nat, r: Run, a: nat, can: nat, p: array<byte>, n: nat)
    requires OnDisk(disk, cs, r) && a + can <= Times(r.length, cs) && n + can <= p.Length
    modifies p
    ensures p[..] == Splice(old(p[..]), n, RunData(disk, cs, r)[a..a + can])
  {
    hide *;
    RunSlice(disk, cs, r, a, can);
    if r.lcn < 0 {
      StoreBytes(p, n, Zeros(can));
    } else {
      var off := Times(r.lcn, cs) + a;
      StoreBytes(p, n, disk[off..off + can]);
    }
  }
}
