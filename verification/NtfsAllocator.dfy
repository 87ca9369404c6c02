/** The NTFS cluster allocator over the $Bitmap bytes. */
module NtfsAllocator {
  import opened Wrappers
  import opened Bytes
  import opened Bitmap
  import opened NtfsRunlist

  /** Clusters that may be handed out: clear bits at LCN 1 and up. */
  ghost function FreeSet(bits: seq<bool>): set<int> {
    set k: int | 1 <= k < |bits| && !bits[k]
  }

  ghost predicate LowestFree(bits: seq<bool>, k: nat) {
    1 <= k < |bits| && !bits[k] && forall m :: 1 <= m < k ==> bits[m]
  }

  /** The boot cluster's bit is set as a side effect of scanning. */
  ghost function Boot(bits: seq<bool>): (r: seq<bool>)
    ensures |r| == |bits| && forall k :: 1 <= k < |bits| ==> r[k] == bits[k]
  {
    if |bits| > 0 then bits[0 := true] else bits
  }

  ghost predicate FreeRun(bits: seq<bool>, start: nat, n: nat) {
    1 <= start && start + n <= |bits| && forall k :: start <= k < start + n ==> !bits[k]
  }

  /** The first place with n free clusters in a row. */
  ghost predicate LowestRun(bits: seq<bool>, start: nat, n: int) {
    n >= 1 && FreeRun(bits, start, n) && forall s :: 1 <= s < start ==> !FreeRun(bits, s, n)
  }

  lemma OneLowest(bits: seq<bool>, a: nat, b: nat, n: int)
    requires LowestRun(bits, a, n) && LowestRun(bits, b, n)
    ensures a == b
  {
  }

  ghost function Filled(bits: seq<bool>, start: nat, n: nat, on: bool): (r: seq<bool>)
    requires start + n <= |bits|
    ensures |r| == |bits| && forall k :: 0 <= k < |bits| ==> r[k] == if start <= k < start + n then on else bits[k]
  {
    seq(|bits|, k requires 0 <= k < |bits| => if start <= k < start + n then on else bits[k])
  }

  /** The clusters of a runlist, in file order. */
  function Clusters(runs: seq<Run>): seq<int> {
    if runs == [] then [] else Extent(runs[0]) + Clusters(runs[1..])
  }

  function Extent(r: Run): (s: seq<int>)
    ensures |s| == if r.length >= 0 then r.length else 0
    ensures forall i :: 0 <= i < |s| ==> s[i] == r.lcn + i
  {
    seq(if r.length >= 0 then r.length else 0, i => r.lcn + i)
  }

  lemma {:induction false} ClustersAppend(a: seq<Run>, b: seq<Run>)
    ensures Clusters(a + b) == Clusters(a) + Clusters(b)
  {
    if a == [] {
      assert a + b == b;
    } else {
      assert (a + b)[0] == a[0] && (a + b)[1..] == a[1..] + b;
      ClustersAppend(a[1..], b);
    }
  }

  /** Extending the last run by its next cluster, or starting a new run: the cluster list grows by one. */
  lemma ClustersExtend(runs: seq<Run>, lcn: int)
    ensures Clusters(runs + [Run(lcn, 1)]) == Clusters(runs) + [lcn]
    ensures runs != [] && runs[|runs| - 1].length >= 0 && runs[|runs| - 1].lcn + runs[|runs| - 1].length == lcn ==>
      Clusters(runs[|runs| - 1 := runs[|runs| - 1].(length := runs[|runs| - 1].length + 1)]) == Clusters(runs) + [lcn]
  {
    hide Clusters;
    ClustersAppend(runs, [Run(lcn, 1)]);
    OneRun(Run(lcn, 1));
    if runs != [] && runs[|runs| - 1].length >= 0 && runs[|runs| - 1].lcn + runs[|runs| - 1].length == lcn {
      var k := |runs| - 1;
      var last := runs[k];
      var longer := last.(length := last.length + 1);
      assert runs == runs[..k] + [last] && runs[k := longer] == runs[..k] + [longer];
      ClustersAppend(runs[..k], [last]);
      ClustersAppend(runs[..k], [longer]);
      OneRun(last);
      OneRun(longer);
      assert Extent(longer) == Extent(last) + [lcn];
    }
  }

  lemma OneRun(r: Run)
    ensures Clusters([r]) == Extent(r)
  {
    assert [r][1..] == [] && Clusters([]) == [] && Extent(r) + [] == Extent(r);
  }

  ghost function Marked(bits: seq<bool>, cs: seq<int>, on: bool): (r: seq<bool>)
    ensures |r| == |bits| && forall k :: 0 <= k < |bits| ==> r[k] == if k in cs then on else bits[k]
  {
    seq(|bits|, k requires 0 <= k < |bits| => if k in cs then on else bits[k])
  }

  /** What an allocation of n clusters owes: n different clusters, all of them free before. */
  ghost predicate Fresh(bits: seq<bool>, cs: seq<int>) {
    && (forall i :: 0 <= i < |cs| ==> cs[i] in FreeSet(bits))
    && (forall i, j :: 0 <= i < j < |cs| ==> cs[i] != cs[j])
  }

  lemma OneMore(bits: seq<bool>, cs: seq<int>, lcn: nat)
    requires Fresh(bits, cs) && LowestFree(Boot(Marked(bits, cs, true)), lcn)
    ensures lcn >= 1 && Fresh(bits, cs + [lcn])
    ensures Boot(Marked(bits, cs, true))[lcn := true] == Boot(Marked(bits, cs + [lcn], true))
  {
  }

  /** n free clusters are left to hand out exactly while fewer than all are taken. */
  lemma LeftOver(bits: seq<bool>, cs: seq<int>)
    requires Fresh(bits, cs)
    ensures |FreeSet(Boot(Marked(bits, cs, true)))| == |FreeSet(bits)| - |cs|
  {
    DistinctCard(cs);
    var taken := set x | x in cs;
    assert FreeSet(Boot(Marked(bits, cs, true))) == FreeSet(bits) - taken;
    assert taken <= FreeSet(bits);
  }

  lemma {:induction false} DistinctCard(cs: seq<int>)
    requires forall i, j :: 0 <= i < j < |cs| ==> cs[i] != cs[j]
    ensures |set x | x in cs| == |cs|
  {
    if cs != [] {
      var k := |cs| - 1;
      DistinctCard(cs[..k]);
      assert (set x | x in cs) == (set x | x in cs[..k]) + {cs[k]};
    }
  }

  /** One run appended, joined with the last one if it goes on where that ends. */
  function MergeRun(r: seq<Run>, nr: Run): seq<Run> {
    if r != [] && r[|r| - 1].lcn + r[|r| - 1].length == nr.lcn then r[|r| - 1 := r[|r| - 1].(length := r[|r| - 1].length + nr.length)]
    else r + [nr]
  }

  /** The lowest n free clusters, one after the other, neighbours joined. */
  ghost function LowestRuns(bits: seq<bool>, n: nat): Option<seq<Run>> {
    if n == 0 then Some([])
    else
      var prev := LowestRuns(bits, n - 1);
      if prev.None? then None
      else
        var m := Marked(bits, Clusters(prev.value), true);
        if c: nat :| LowestFree(m, c) then Some(MergeRun(prev.value, Run(c, 1))) else None
  }

  /** What an allocation of n clusters gives: the first place for all of them in a row, or else the lowest ones. */
  ghost function NewRuns(bits: seq<bool>, n: int): Option<seq<Run>> {
    if n <= 0 then Some([])
    else if s: nat :| LowestRun(bits, s, n) then Some([Run(s, n)]) else LowestRuns(bits, n)
  }

  lemma NoRuns(bits: seq<bool>)
    ensures LowestRuns(bits, 0) == Some([])
  {
  }

  lemma OneLowestFree(bits: seq<bool>, a: nat, b: nat)
    requires LowestFree(bits, a) && LowestFree(bits, b)
    ensures a == b
  {
  }

  /** The next cluster handed out is the next of the lowest ones. */
  lemma RunsStep(bits: seq<bool>, k: nat, runs: seq<Run>, lcn: nat)
    requires LowestRuns(bits, k) == Some(runs) && LowestFree(Boot(Marked(bits, Clusters(runs), true)), lcn)
    ensures LowestRuns(bits, k + 1) == Some(MergeRun(runs, Run(lcn, 1)))
  {
    var m := Marked(bits, Clusters(runs), true);
    BootTwice(bits, Clusters(runs));
    forall c: nat | LowestFree(m, c) ensures c == lcn {
      OneLowestFree(m, c, lcn);
    }
    hide LowestFree, Marked, Boot, MergeRun;
  }

  lemma {:induction false} NoMoreRuns(bits: seq<bool>, k: nat, n: nat, runs: seq<Run>)
    requires LowestRuns(bits, k) == Some(runs) && k < n && FreeSet(Boot(Marked(bits, Clusters(runs), true))) == {}
    ensures LowestRuns(bits, n) == None
    decreases n
  {
    hide *;
    LowestRunsNext(bits, n - 1);
    if k + 1 < n {
      NoMoreRuns(bits, k, n - 1, runs);
    } else {
      NothingLeft(Marked(bits, Clusters(runs), true));
    }
  }

  lemma LowestRunsNext(bits: seq<bool>, k: nat)
    ensures LowestRuns(bits, k).None? ==> LowestRuns(bits, k + 1).None?
    ensures LowestRuns(bits, k).Some? && (forall c: nat :: !LowestFree(Marked(bits, Clusters(LowestRuns(bits, k).value), true), c)) ==>
      LowestRuns(bits, k + 1).None?
  {
    hide LowestFree, Marked, MergeRun, Clusters;
  }

  lemma NothingLeft(m: seq<bool>)
    requires FreeSet(Boot(m)) == {}
    ensures forall c: nat :: !LowestFree(m, c)
  {
    forall c: nat ensures !LowestFree(m, c) {
      assert LowestFree(m, c) ==> c in FreeSet(Boot(m));
    }
  }

  lemma LowestTaken(bits: seq<bool>, start: nat, n: int)
    requires LowestRun(bits, start, n)
    ensures NewRuns(bits, n) == Some([Run(start, n)])
  {
    forall s: nat | LowestRun(bits, s, n) ensures s == start {
      OneLowest(bits, s, start, n);
    }
    hide LowestRun, LowestRuns;
  }

  /** The boot bit makes no difference to what is handed out. */
  lemma {:induction false} SameLowestRuns(a: seq<bool>, b: seq<bool>, n: nat)
    requires Boot(a) == Boot(b)
    ensures LowestRuns(a, n) == LowestRuns(b, n)
  {
    hide Marked, LowestFree, LowestRun, Clusters, MergeRun, Boot;
    if n > 0 {
      SameLowestRuns(a, b, n - 1);
      var prev := LowestRuns(a, n - 1);
      if prev.Some? {
        var cs := Clusters(prev.value);
        SameFrom1(a, b, cs);
        forall c: nat, c': nat | LowestFree(Marked(a, cs, true), c) && LowestFree(Marked(b, cs, true), c') ensures c == c' {
          OneLowestFree(Marked(a, cs, true), c, c');
        }
      }
    }
  }

  lemma SameFrom1(a: seq<bool>, b: seq<bool>, cs: seq<int>)
    requires Boot(a) == Boot(b)
    ensures forall c: nat :: LowestFree(Marked(a, cs, true), c) <==> LowestFree(Marked(b, cs, true), c)
    ensures forall s: nat, n: int :: LowestRun(a, s, n) <==> LowestRun(b, s, n)
  {
    assert |a| == |Boot(a)| == |b|;
    assert forall k :: 1 <= k < |a| ==> a[k] == Boot(a)[k] == b[k];
    forall s: nat, n: int ensures LowestRun(a, s, n) <==> LowestRun(b, s, n) {
      if LowestRun(a, s, n) { SameLowestRun(a, b, s, n); }
      if LowestRun(b, s, n) { SameLowestRun(b, a, s, n); }
    }
  }

  lemma SameLowestRun(a: seq<bool>, b: seq<bool>, s: nat, n: int)
    requires |a| == |b| && (forall k :: 1 <= k < |a| ==> a[k] == b[k]) && LowestRun(a, s, n)
    ensures LowestRun(b, s, n)
  {
    forall t | 1 <= t < s ensures !FreeRun(b, t, n) {
      assert !FreeRun(a, t, n);
    }
  }

  lemma SameNewRuns(a: seq<bool>, b: seq<bool>, n: int)
    requires Boot(a) == Boot(b)
    ensures NewRuns(a, n) == NewRuns(b, n)
  {
    if n > 0 {
      SameLowestRuns(a, b, n);
      SameFrom1(a, b, []);
      forall s: nat, t: nat | LowestRun(a, s, n) && LowestRun(b, t, n) ensures s == t {
        OneLowest(a, s, t, n);
      }
      hide LowestRun, LowestRuns;
    }
  }

  class Allocator {
    const bitmap: array<byte>

    ghost function View(): seq<bool>
      reads bitmap
    {
      Bits(bitmap[..])
    }

    /** Looks for a free bit in byte `i`, whose snapshot is `b`. */
    method ScanByte(i: nat, b: byte, ghost bits: seq<bool>) returns (r: Option<nat>)
      requires i < bitmap.Length && b == bitmap[i] && |bits| == 8 * bitmap.Length
      requires View() == (if i == 0 then bits else Boot(bits)) && forall m :: 1 <= m < 8 * i ==> bits[m]
      modifies bitmap
      ensures r.None? ==> View() == Boot(bits) && forall m :: 1 <= m < 8 * i + 8 ==> bits[m]
      ensures r.Some? ==> LowestFree(bits, r.value) && View() == Boot(bits)[r.value := true]
    {
      var bit := 0;
      hide LowestFree, BitOf;
      while bit < 8
        invariant 0 <= bit <= 8
        invariant forall k :: bit <= k < 8 ==> BitOf(b, k) == bits[8 * i + k]
        invariant View() == if i == 0 && bit == 0 then bits else Boot(bits)
        invariant forall m :: 1 <= m < 8 * i + bit ==> bits[m]
      {
        if !BitOf(b, bit) {
          var lcn := i * 8 + bit;
          SetBit(bitmap, lcn, true);
          if lcn != 0 {
            FirstClear(bits, lcn);
            return Some(lcn);
          }
        }
        bit := bit + 1;
      }
      return None;
    }

    /** Hands out the lowest free cluster at LCN 1 or above, claiming the boot cluster on the way. */
    method AllocCluster() returns (r: Option<nat>)
      modifies bitmap
      ensures r.None? ==> View() == Boot(old(View())) && FreeSet(old(View())) == {}
      ensures r.Some? ==> LowestFree(old(View()), r.value) && View() == Boot(old(View()))[r.value := true]
    {
      hide LowestFree;
      ghost var bits := View();
      for i := 0 to bitmap.Length
        invariant View() == if i == 0 then bits else Boot(bits)
        invariant forall m :: 1 <= m < 8 * i ==> bits[m]
      {
        if bitmap[i] == 0xFF {
          SkipFull(bitmap[..], i);
        } else {
          r := ScanByte(i, bitmap[i], bits);
          if r.Some? {
            return;
          }
        }
      }
      return None;
    }

    /** Claims the lowest run of n free clusters, if there is one. */
    method TryAllocContiguous(n: nat) returns (r: Option<Run>)
      requires n >= 1
      modifies bitmap
      ensures r.None? ==> View() == old(View()) && forall s :: !FreeRun(old(View()), s, n)
      ensures r.Some? ==> r.value.lcn >= 1 && r.value.length == n && FreeRun(old(View()), r.value.lcn, n)
      ensures r.Some? ==> View() == Filled(old(View()), r.value.lcn, n, true)
      ensures r.Some? ==> forall s :: 1 <= s < r.value.lcn ==> !FreeRun(old(View()), s, n)
    {
      ghost var bits := View();
      var start, runLen, lcn := -1, 0, 0;
      while lcn < 8 * bitmap.Length
        invariant 0 <= lcn <= 8 * bitmap.Length && View() == bits
        invariant Scanned(bits, n, lcn, start, runLen)
      {
        ScanStep(bits, n, lcn, start, runLen);
        if lcn == 0 {
          start, runLen := -1, 0;
        } else if !BitOf(bitmap[lcn / 8], lcn % 8) {
          if runLen == 0 {
            start := lcn;
          }
          runLen := runLen + 1;
          if runLen >= n {
            FillRun(start, n);
            return Some(Run(start, n));
          }
        } else {
          start, runLen := -1, 0;
        }
        lcn := lcn + 1;
      }
      return None;
    }

    method FillRun(start: nat, n: nat)
      requires start + n <= 8 * bitmap.Length
      modifies bitmap
      ensures View() == Filled(old(View()), start, n, true)
    {
      ghost var bits := View();
      assert Filled(bits, start, 0, true) == bits;
      for j := 0 to n
        invariant View() == Filled(bits, start, j, true)
      {
        SetBit(bitmap, start + j, true);
        assert Filled(bits, start, j, true)[start + j := true] == Filled(bits, start, j + 1, true);
      }
    }

    /** Allocates n clusters one by one, merging neighbours into runs; does not roll back on failure. */
    method AllocClusters(n: nat) returns (r: Option<seq<Run>>)
      modifies bitmap
      ensures OnlyTaken(old(View()), View())
      ensures r.Some? <==> n <= |FreeSet(old(View()))|
      ensures r.Some? ==> Positive(r.value) && Fresh(old(View()), Clusters(r.value)) && |Clusters(r.value)| == n
      ensures r.Some? && n > 0 ==> View() == Boot(Marked(old(View()), Clusters(r.value), true))
      ensures r == LowestRuns(old(View()), n)
    {
      ghost var bits := View();
      var runs: seq<Run>, remaining := [], n;
      ghost var cs: seq<int> := [];
      StartAlloc(bits);
      hide Fresh, Boot, Marked, LowestFree, FreeSet, View, Clusters, LowestRuns;
      NoRuns(bits);
      while remaining > 0
        invariant cs == Clusters(runs) && |cs| == n - remaining && Fresh(bits, cs) && Positive(runs)
        invariant View() == if remaining == n then bits else Boot(Marked(bits, cs, true))
        invariant |cs| <= |FreeSet(bits)| && LowestRuns(bits, n - remaining) == Some(runs)
      {
        ghost var v := View();
        LeftOver(bits, cs);
        BootTwice(bits, cs);
        var c := AllocCluster();
        if c.None? {
          NoMoreRuns(bits, n - remaining, n, runs);
          return None;
        }
        var lcn := c.value;
        OneMore(bits, cs, lcn);
        ClustersExtend(runs, lcn);
        RunsStep(bits, n - remaining, runs, lcn);
        LeftOver(bits, cs + [lcn]);
        if |runs| > 0 && runs[|runs| - 1].lcn + runs[|runs| - 1].length == lcn {
          runs := runs[|runs| - 1 := runs[|runs| - 1].(length := runs[|runs| - 1].length + 1)];
        } else {
          runs := runs + [Run(lcn, 1)];
        }
        cs := cs + [lcn];
        remaining := remaining - 1;
      }
      TakenOnly(bits, cs);
      return Some(runs);
    }

    /** Allocates n clusters, in one run if possible: succeeds exactly when n are free, and takes
        exactly n different clusters that were free. */
    method AllocContiguousClusters(n: int) returns (r: Option<seq<Run>>)
      modifies bitmap
      ensures OnlyTaken(old(View()), View())
      ensures r.Some? <==> n <= |FreeSet(old(View()))|
      ensures r.Some? ==> Positive(r.value) && Fresh(old(View()), Clusters(r.value)) && |Clusters(r.value)| == if n <= 0 then 0 else n
      ensures r.Some? ==> Boot(View()) == Boot(Marked(old(View()), Clusters(r.value), true))
      ensures n <= 0 ==> r == Some([]) && View() == old(View())
      ensures r == NewRuns(old(View()), n)
    {
      ghost var bits := View();
      if n <= 0 {
        return Some([]);
      }
      var one := TryAllocContiguous(n);
      if one.Some? {
        RunIsFresh(bits, one.value.lcn, n);
        LowestTaken(bits, one.value.lcn, n);
        return Some([one.value]);
      }
      r := AllocClusters(n);
      if r.Some? { BootTwice(bits, Clusters(r.value)); }
    }

    /** Marks a cluster free; the boot cluster and clusters past the bitmap are ignored. */
    method FreeCluster(lcn: nat)
      modifies bitmap
      ensures View() == if 1 <= lcn < |old(View())| then old(View())[lcn := false] else old(View())
    {
      if lcn != 0 && lcn / 8 < bitmap.Length {
        SetBit(bitmap, lcn, false);
      }
    }

    method FreeExtentOf(r: Run)
      requires r.lcn >= 0
      modifies bitmap
      ensures View() == Marked(old(View()), FreeExtent(r), false)
    {
      ghost var bits := View();
      assert Marked(bits, FreeExtent(Run(r.lcn, 0)), false) == bits;
      var i := 0;
      while i < r.length
        invariant i == 0 || 0 <= i <= r.length
        invariant View() == Marked(bits, FreeExtent(Run(r.lcn, i)), false)
      {
        FreeExtentSnoc(bits, r.lcn, i);
        FreeCluster(r.lcn + i);
        i := i + 1;
      }
      assert FreeExtent(r) == FreeExtent(Run(r.lcn, i));
    }

    /** Frees every cluster of a runlist, skipping sparse runs. */
    method FreeRuns(runs: seq<Run>)
      modifies bitmap
      ensures View() == Marked(old(View()), Freeable(runs), false)
    {
      ghost var bits := View();
      assert runs[..0] == [] && Marked(bits, Freeable([]), false) == bits;
      for i := 0 to |runs|
        invariant View() == Marked(bits, Freeable(runs[..i]), false)
      {
        FreeableSnoc(bits, runs, i);
        if runs[i].lcn >= 0 {
          FreeExtentOf(runs[i]);
        }
      }
      assert runs[..|runs|] == runs;
    }
  }

  /** What freeing a run touches: nothing of a sparse run, and never the boot cluster. */
  function FreeExtent(r: Run): seq<int> {
    if r.lcn < 0 then [] else if r.lcn == 0 && r.length > 0 then Extent(r)[1..] else Extent(r)
  }

  function Freeable(runs: seq<Run>): seq<int> {
    if runs == [] then [] else Freeable(runs[..|runs| - 1]) + FreeExtent(runs[|runs| - 1])
  }

  lemma {:induction false} FreeableAll(runs: seq<Run>)
    requires Positive(runs)
    ensures Freeable(runs) == Clusters(runs)
  {
    if runs != [] {
      var k := |runs| - 1;
      FreeableAll(runs[..k]);
      assert runs == runs[..k] + [runs[k]];
      ClustersAppend(runs[..k], [runs[k]]);
      OneRun(runs[k]);
    }
  }

  lemma FreeableSnoc(bits: seq<bool>, runs: seq<Run>, i: nat)
    requires i < |runs|
    ensures Marked(Marked(bits, Freeable(runs[..i]), false), FreeExtent(runs[i]), false) == Marked(bits, Freeable(runs[..i + 1]), false)
    ensures runs[i].lcn < 0 ==> Marked(bits, Freeable(runs[..i + 1]), false) == Marked(bits, Freeable(runs[..i]), false)
  {
    assert runs[..i + 1][..i] == runs[..i];
  }

  lemma FreeExtentSnoc(bits: seq<bool>, lcn: nat, i: nat)
    ensures var m, k := Marked(bits, FreeExtent(Run(lcn, i)), false), lcn + i;
            Marked(bits, FreeExtent(Run(lcn, i + 1)), false) == if 1 <= k < |bits| then m[k := false] else m
  {
    var a, b := FreeExtent(Run(lcn, i)), FreeExtent(Run(lcn, i + 1));
    assert b == if lcn + i == 0 then a else a + [lcn + i];
  }

  lemma RunIsFresh(bits: seq<bool>, start: nat, n: nat)
    requires FreeRun(bits, start, n) && n >= 1
    ensures Fresh(bits, Clusters([Run(start, n)])) && |Clusters([Run(start, n)])| == n <= |FreeSet(bits)|
    ensures Filled(bits, start, n, true) == Marked(bits, Clusters([Run(start, n)]), true)
  {
    OneRun(Run(start, n));
    var cs := Extent(Run(start, n));
    forall k ensures k in cs <==> start <= k < start + n {
      if start <= k < start + n { assert cs[k - start] == k; }
    }
    LeftOver(bits, cs);
  }

  /** Freeing what was just allocated puts every bit back, except that the boot bit may stay set. */
  lemma FreeUndoesAlloc(bits: seq<bool>, after: seq<bool>, runs: seq<Run>)
    requires Positive(runs) && Fresh(bits, Clusters(runs)) && Boot(after) == Boot(Marked(bits, Clusters(runs), true))
    ensures Boot(Marked(after, Freeable(runs), false)) == Boot(bits)
  {
    FreeableAll(runs);
    var cs := Clusters(runs);
    var r := Marked(after, cs, false);
    assert |after| == |Boot(after)| == |bits|;
    forall k | 1 <= k < |bits| ensures r[k] == bits[k] {
      assert after[k] == Boot(after)[k] == Boot(Marked(bits, cs, true))[k] == Marked(bits, cs, true)[k];
    }
  }

  /** No cluster became free. */
  ghost predicate OnlyTaken(bits: seq<bool>, after: seq<bool>) {
    |after| == |bits| && FreeSet(after) <= FreeSet(bits)
  }

  lemma TakenOnly(bits: seq<bool>, cs: seq<int>)
    ensures OnlyTaken(bits, bits) && OnlyTaken(bits, Boot(Marked(bits, cs, true))) && OnlyTaken(bits, Marked(bits, cs, true))
    ensures OnlyTaken(bits, Boot(bits)) && OnlyTaken(bits, Boot(Boot(Marked(bits, cs, true))))
  {
  }

  predicate Positive(runs: seq<Run>) {
    forall i :: 0 <= i < |runs| ==> runs[i].lcn >= 1 && runs[i].length >= 1
  }

  lemma StartAlloc(bits: seq<bool>)
    ensures Fresh(bits, []) && Clusters([]) == []
  {
  }

  /** The allocator sees the same free clusters whether or not the boot bit is set already. */
  lemma BootTwice(bits: seq<bool>, cs: seq<int>)
    ensures Boot(Boot(Marked(bits, cs, true))) == Boot(Marked(bits, cs, true))
    ensures FreeSet(Boot(Marked(bits, cs, true))) == FreeSet(Marked(bits, cs, true))
    ensures Marked(bits, [], true) == bits
    ensures forall k :: LowestFree(Boot(Marked(bits, cs, true)), k) <==> LowestFree(Marked(bits, cs, true), k)
  {
  }

  /** While scanning: `runLen` free clusters end just before `lcn`, and no run of n starts below them. */
  ghost predicate Scanned(bits: seq<bool>, n: nat, lcn: nat, start: int, runLen: int) {
    && 0 <= runLen < n && lcn <= |bits|
    && (runLen > 0 ==> 1 <= start && start + runLen == lcn && FreeRun(bits, start, runLen))
    && (forall s :: 1 <= s && s + n <= lcn ==> !FreeRun(bits, s, n))
    && (forall s :: 1 <= s < (if runLen > 0 then start else lcn) ==> !FreeRun(bits, s, n))
  }

  lemma ScanStep(bits: seq<bool>, n: nat, lcn: nat, start: int, runLen: int)
    requires Scanned(bits, n, lcn, start, runLen) && lcn < |bits| && n >= 1
    ensures lcn == 0 || bits[lcn] ==> Scanned(bits, n, lcn + 1, -1, 0)
    ensures lcn > 0 && !bits[lcn] ==>
      var first := if runLen == 0 then lcn else start;
      && FreeRun(bits, first, runLen + 1)
      && (forall s :: 1 <= s < first ==> !FreeRun(bits, s, n))
      && (runLen + 1 < n ==> Scanned(bits, n, lcn + 1, first, runLen + 1))
  {
    if lcn > 0 && bits[lcn] {
      assert forall s :: 1 <= s <= lcn && lcn < s + n ==> !FreeRun(bits, s, n);
    }
  }

  lemma FirstClear(bits: seq<bool>, k: nat)
    requires 1 <= k < |bits| && !bits[k] && forall m :: 1 <= m < k ==> bits[m]
    ensures LowestFree(bits, k)
  {
  }

  lemma SkipFull(bm: seq<byte>, i: nat)
    requires i < |bm| && bm[i] == 0xFF
    ensures forall m :: 8 * i <= m < 8 * i + 8 ==> Bits(bm)[m]
  {
    forall m | 8 * i <= m < 8 * i + 8 ensures Bits(bm)[m] {
      FullByte(m % 8);
    }
  }
}
