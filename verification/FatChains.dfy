/** Cluster chains on the table view: who owns which cluster, and what each step of the allocator keeps. */
module FatChains {
  import opened FatTable

  type Chain = seq<nat>

  /** `c` follows the links of `t` from its head to an end-of-chain mark. */
  ghost predicate IsChain(ft: FatType, t: seq<nat>, c: Chain) {
    && |c| > 0
    && (forall i :: 0 <= i < |c| ==> 2 <= c[i] < |t|)
    && (forall i :: 0 <= i < |c| - 1 ==> t[c[i]] == c[i + 1])
    && IsEoc(ft, t[c[|c| - 1]])
  }

  ghost predicate Distinct(c: Chain) {
    forall i, j :: 0 <= i < j < |c| ==> c[i] != c[j]
  }

  ghost predicate Disjoint(a: Chain, b: Chain) {
    forall x :: x in a ==> x !in b
  }

  /** A table, the chains its files own, and clusters that are in use but belong to no file
      (bad-cluster marks and chains lost before this mount). */
  datatype State = State(ft: FatType, t: seq<nat>, chains: map<nat, Chain>, lost: set<nat>)

  ghost predicate Owned(s: State, n: nat) {
    exists id :: id in s.chains && n in s.chains[id]
  }

  /** No cluster number can be mistaken for an end-of-chain mark. */
  predicate Sized(ft: FatType, t: seq<nat>) {
    |t| >= 2 && |t| <= Modulus(ft) - 8
  }

  ghost predicate AllChains(s: State) {
    forall id :: id in s.chains ==> IsChain(s.ft, s.t, s.chains[id])
  }

  ghost predicate PairwiseDisjoint(s: State) {
    forall a, b :: a in s.chains && b in s.chains && a != b ==> Disjoint(s.chains[a], s.chains[b])
  }

  /** A cluster is marked free exactly when nobody uses it. */
  ghost predicate FreeExact(s: State) {
    forall n :: 2 <= n < |s.t| ==> (s.t[n] == 0 <==> n !in s.lost && !Owned(s, n))
  }

  ghost predicate LostApart(s: State) {
    forall n :: n in s.lost ==> 2 <= n < |s.t| && !Owned(s, n)
  }

  ghost predicate Inv(s: State) {
    Sized(s.ft, s.t) && AllChains(s) && PairwiseDisjoint(s) && FreeExact(s) && LostApart(s)
  }

  /** A chain cannot revisit a cluster: it would have to revisit its end. */
  lemma ChainIsAcyclic(ft: FatType, t: seq<nat>, c: Chain)
    requires Sized(ft, t) && IsChain(ft, t, c)
    ensures Distinct(c)
  {
    forall i, j | 0 <= i < j < |c| ensures c[i] != c[j] {
      LaterDiffers(ft, t, c, i, j);
    }
  }

  lemma {:induction false} LaterDiffers(ft: FatType, t: seq<nat>, c: Chain, i: nat, j: nat)
    requires Sized(ft, t) && IsChain(ft, t, c) && i < j < |c|
    ensures c[i] != c[j]
    decreases |c| - j
  {
    if j == |c| - 1 {
      assert t[c[i]] == c[i + 1];
    } else {
      LaterDiffers(ft, t, c, i + 1, j + 1);
    }
  }

  /** Clusters of a chain are never free. */
  lemma ChainIsUsed(ft: FatType, t: seq<nat>, c: Chain)
    requires Sized(ft, t) && IsChain(ft, t, c)
    ensures forall x :: x in c ==> 2 <= x < |t| && t[x] != 0
  {
    forall x | x in c ensures 2 <= x < |t| && t[x] != 0 {
      var i :| 0 <= i < |c| && c[i] == x;
      if i < |c| - 1 { assert t[c[i]] == c[i + 1]; }
    }
  }

  /** Two chains from one head are one chain. */
  lemma {:induction false} ChainIsUnique(ft: FatType, t: seq<nat>, a: Chain, b: Chain)
    requires Sized(ft, t) && IsChain(ft, t, a) && IsChain(ft, t, b) && a[0] == b[0]
    ensures a == b
    decreases |a|
  {
    assert (|a| > 1 ==> t[a[0]] == a[1]) && (|b| > 1 ==> t[b[0]] == b[1]);
    if |a| > 1 {
      Tail(ft, t, a);
      Tail(ft, t, b);
      ChainIsUnique(ft, t, a[1..], b[1..]);
      assert a == [a[0]] + a[1..] && b == [b[0]] + b[1..];
    }
  }

  lemma Tail(ft: FatType, t: seq<nat>, c: Chain)
    requires IsChain(ft, t, c) && |c| > 1
    ensures IsChain(ft, t, c[1..])
  {
    var d := c[1..];
    forall i | 0 <= i < |d| - 1 ensures t[d[i]] == d[i + 1] {
      assert t[c[i + 1]] == c[i + 2];
    }
  }

  /** The table with every cluster of `cs` marked free. */
  ghost function Zeroed(t: seq<nat>, cs: Chain): (r: seq<nat>)
    ensures |r| == |t|
    ensures forall n :: 0 <= n < |t| ==> r[n] == if n in cs then 0 else t[n]
  {
    seq(|t|, n requires 0 <= n < |t| => if n in cs then 0 else t[n])
  }

  ghost predicate LowestFree(t: seq<nat>, n: nat) {
    2 <= n < |t| && t[n] == 0 && forall m :: 2 <= m < n ==> t[m] != 0
  }

  ghost predicate Full(t: seq<nat>) {
    forall n :: 2 <= n < |t| ==> t[n] != 0
  }

  /** The steps of the allocator. */
  datatype Op =
    | Alloc(id: nat, n: nat)
    | Append(id: nat, n: nat)
    | Truncate(id: nat, keep: nat)
    | Free(id: nat)

  ghost predicate Enabled(op: Op, s: State) {
    match op
    case Alloc(id, n) => id !in s.chains && LowestFree(s.t, n)
    case Append(id, n) => id in s.chains && LowestFree(s.t, n)
    case Truncate(id, keep) => id in s.chains && 0 < keep <= |s.chains[id]|
    case Free(id) => id in s.chains
  }

  ghost function ChainOf(s: State, id: nat): Chain {
    if id in s.chains then s.chains[id] else []
  }

  /** `t` with free cluster `n` linked behind the end of `c`. */
  ghost function Linked(ft: FatType, t: seq<nat>, c: Chain, n: nat): seq<nat>
    requires IsChain(ft, t, c) && n < |t|
  {
    t[n := EocValue(ft)][c[|c| - 1] := n]
  }

  /** `t` with `c` cut after `keep` clusters and the rest freed. */
  ghost function Cut(ft: FatType, t: seq<nat>, c: Chain, keep: nat): seq<nat>
    requires IsChain(ft, t, c) && 0 < keep <= |c|
  {
    Zeroed(t[c[keep - 1] := EocValue(ft)], c[keep..])
  }

  ghost function Apply(op: Op, s: State): (s': State)
    requires AllChains(s) && Enabled(op, s)
    ensures |s'.t| == |s.t| && s'.ft == s.ft && s'.lost == s.lost
  {
    match op
    case Alloc(id, n) => s.(t := s.t[n := EocValue(s.ft)], chains := s.chains[id := [n]])
    case Append(id, n) => s.(t := Linked(s.ft, s.t, s.chains[id], n), chains := s.chains[id := s.chains[id] + [n]])
    case Truncate(id, keep) => s.(t := Cut(s.ft, s.t, s.chains[id], keep), chains := s.chains[id := s.chains[id][..keep]])
    case Free(id) => s.(t := Zeroed(s.t, s.chains[id]), chains := s.chains - {id})
  }

  /** A chain keeps its meaning when the table changes only off it. */
  lemma ChainFrame(ft: FatType, t: seq<nat>, t': seq<nat>, c: Chain)
    requires IsChain(ft, t, c) && |t'| == |t|
    requires forall x :: x in c ==> 2 <= x < |t| && t'[x] == t[x]
    ensures IsChain(ft, t', c)
  {
  }

  /** What all four steps have in common: one file trades its chain for `c`, taking only free
      clusters, freeing what it gives up, and leaving the entries of everybody else alone. */
  ghost predicate Rewires(s: State, s': State, id: nat, c: Chain) {
    && s'.ft == s.ft && s'.lost == s.lost && |s'.t| == |s.t|
    && (c == [] || IsChain(s.ft, s'.t, c))
    && s'.chains == (if c == [] then s.chains - {id} else s.chains[id := c])
    && (forall m :: m in c && m !in ChainOf(s, id) ==> 2 <= m < |s.t| && s.t[m] == 0)
    && (forall m :: 2 <= m < |s.t| && m !in c ==> s'.t[m] == if m in ChainOf(s, id) then 0 else s.t[m])
  }

  lemma OthersUntouched(s: State, s': State, id: nat, c: Chain, k: nat)
    requires Inv(s) && Rewires(s, s', id, c) && k in s.chains && k != id
    ensures Disjoint(s.chains[k], c) && Disjoint(c, s.chains[k]) && IsChain(s.ft, s'.t, s.chains[k])
  {
    assert IsChain(s.ft, s.t, s.chains[k]);
    ChainIsUsed(s.ft, s.t, s.chains[k]);
    forall x | x in s.chains[k] ensures x !in ChainOf(s, id) {
      if id in s.chains { assert Disjoint(s.chains[k], s.chains[id]); }
    }
    ChainFrame(s.ft, s.t, s'.t, s.chains[k]);
  }

  lemma OwnedAfter(s: State, s': State, id: nat, c: Chain, m: nat)
    requires PairwiseDisjoint(s) && Rewires(s, s', id, c)
    ensures Owned(s', m) <==> m in c || (Owned(s, m) && m !in ChainOf(s, id))
  {
    hide IsChain;
    if Owned(s', m) && m !in c {
      var k :| k in s'.chains && m in s'.chains[k];
      assert k in s.chains && m in s.chains[k];
      assert id in s.chains ==> Disjoint(s.chains[k], s.chains[id]);
    }
    if m in c { assert id in s'.chains && m in s'.chains[id]; }
    if Owned(s, m) && m !in ChainOf(s, id) {
      var k :| k in s.chains && m in s.chains[k];
      assert k in s'.chains && m in s'.chains[k];
    }
  }

  lemma RewiredChains(s: State, s': State, id: nat, c: Chain)
    requires Inv(s) && Rewires(s, s', id, c)
    ensures AllChains(s') && PairwiseDisjoint(s')
  {
    hide IsChain, Inv, Sized;
    forall k | k in s'.chains && k != id
      ensures IsChain(s.ft, s'.t, s'.chains[k]) && Disjoint(s'.chains[k], c) && Disjoint(c, s'.chains[k])
    {
      OthersUntouched(s, s', id, c, k);
    }
    assert PairwiseDisjoint(s) by { InvDisjoint(s); }
  }

  lemma InvDisjoint(s: State)
    requires Inv(s)
    ensures PairwiseDisjoint(s)
  {
  }

  lemma RewiredMarks(s: State, s': State, id: nat, c: Chain)
    requires Inv(s) && Rewires(s, s', id, c)
    ensures FreeExact(s') && LostApart(s')
  {
    assert id in s.chains ==> forall m :: m in ChainOf(s, id) ==> Owned(s, m);
    if c != [] { ChainIsUsed(s.ft, s'.t, c); }
    forall n ensures Owned(s', n) <==> n in c || (Owned(s, n) && n !in ChainOf(s, id)) {
      if n >= 0 { OwnedAfter(s, s', id, c, n); }
    }
  }

  lemma RewireKeepsInv(s: State, s': State, id: nat, c: Chain)
    requires Inv(s) && Rewires(s, s', id, c)
    ensures Inv(s')
  {
    RewiredChains(s, s', id, c);
    RewiredMarks(s, s', id, c);
  }

  lemma AllocRewires(s: State, id: nat, n: nat)
    requires Inv(s) && Enabled(Alloc(id, n), s)
    ensures Rewires(s, Apply(Alloc(id, n), s), id, [n])
  {
    hide PairwiseDisjoint, FreeExact, LostApart;
  }

  lemma AppendRewires(s: State, id: nat, n: nat)
    requires Inv(s) && Enabled(Append(id, n), s)
    ensures Rewires(s, Apply(Append(id, n), s), id, s.chains[id] + [n])
  {
    hide PairwiseDisjoint, FreeExact, LostApart, IsChain;
    var c := s.chains[id];
    assert IsChain(s.ft, s.t, c);
    ExtendedIsChain(s.ft, s.t, c, n);
  }

  lemma ExtendedIsChain(ft: FatType, t: seq<nat>, c: Chain, n: nat)
    requires Sized(ft, t) && IsChain(ft, t, c) && 2 <= n < |t| && t[n] == 0
    ensures var t' := Linked(ft, t, c, n);
            |t'| == |t| && IsChain(ft, t', c + [n]) && n !in c
            && forall m :: 0 <= m < |t| && m !in c + [n] ==> t'[m] == t[m]
  {
    ChainIsAcyclic(ft, t, c);
    ChainIsUsed(ft, t, c);
    var d := c + [n];
    var t' := Linked(ft, t, c, n);
    assert c[|c| - 1] == d[|c| - 1];
    forall i | 0 <= i < |d| - 1 ensures t'[d[i]] == d[i + 1] {
      assert i < |c| - 1 ==> c[i] != c[|c| - 1] && t[c[i]] == c[i + 1];
    }
  }

  lemma TruncateRewires(s: State, id: nat, keep: nat)
    requires Inv(s) && Enabled(Truncate(id, keep), s)
    ensures Rewires(s, Apply(Truncate(id, keep), s), id, s.chains[id][..keep])
  {
    hide PairwiseDisjoint, FreeExact, LostApart, IsChain, Cut;
    var c := s.chains[id];
    assert IsChain(s.ft, s.t, c);
    PrefixIsChain(s.ft, s.t, c, keep);
  }

  lemma PrefixIsChain(ft: FatType, t: seq<nat>, c: Chain, keep: nat)
    requires Sized(ft, t) && IsChain(ft, t, c) && 0 < keep <= |c|
    ensures var t' := Cut(ft, t, c, keep);
            && |t'| == |t| && IsChain(ft, t', c[..keep])
            && (forall m :: m in c[..keep] ==> m in c)
            && (forall m :: 0 <= m < |t| && m !in c[..keep] ==> t'[m] == if m in c then 0 else t[m])
  {
    ChainIsAcyclic(ft, t, c);
    SplitMembers(c, keep);
    var t' := Cut(ft, t, c, keep);
    assert c[..keep][keep - 1] in c[..keep];
    forall i | 0 <= i < keep - 1 ensures t'[c[i]] == c[i + 1] {
      assert c[..keep][i] in c[..keep];
      assert c[i] != c[keep - 1] && t[c[i]] == c[i + 1];
    }
  }

  lemma SplitMembers(c: Chain, keep: nat)
    requires Distinct(c) && keep <= |c|
    ensures forall m :: m in c[..keep] ==> m in c && m !in c[keep..]
    ensures forall m :: m in c && m !in c[..keep] ==> m in c[keep..]
    ensures forall m :: m in c[keep..] ==> m in c
  {
    assert c == c[..keep] + c[keep..];
    forall m | m in c[..keep] ensures m !in c[keep..] {
      var i :| 0 <= i < keep && c[i] == m;
      assert forall j :: keep <= j < |c| ==> c[i] != c[j];
    }
  }

  lemma FreeRewires(s: State, id: nat)
    requires Inv(s) && Enabled(Free(id), s)
    ensures Rewires(s, Apply(Free(id), s), id, [])
  {
    hide PairwiseDisjoint, FreeExact, LostApart;
  }

  /** Every allocator step keeps the chains acyclic, terminated and disjoint, and the free marks exact. */
  lemma StepKeepsInv(op: Op, s: State)
    requires Inv(s) && Enabled(op, s)
    ensures Inv(Apply(op, s))
  {
    hide Rewires, Apply;
    var s' := Apply(op, s);
    match op
    case Alloc(id, n) => AllocRewires(s, id, n); RewireKeepsInv(s, s', id, [n]);
    case Append(id, n) => AppendRewires(s, id, n); RewireKeepsInv(s, s', id, s.chains[id] + [n]);
    case Truncate(id, keep) => TruncateRewires(s, id, keep); RewireKeepsInv(s, s', id, s.chains[id][..keep]);
    case Free(id) => FreeRewires(s, id); RewireKeepsInv(s, s', id, []);
  }

  /** `trace` is a run: each state follows from the one before it by `ops`. */
  ghost predicate IsRun(trace: seq<State>, ops: seq<Op>) {
    && |trace| == |ops| + 1
    && forall i :: 0 <= i < |ops| ==>
         Enabled(ops[i], trace[i]) && (AllChains(trace[i]) ==> trace[i + 1] == Apply(ops[i], trace[i]))
  }

  /** Safety over whole runs, of any length. */
  lemma {:induction false} RunKeepsInv(trace: seq<State>, ops: seq<Op>, k: nat)
    requires IsRun(trace, ops) && Inv(trace[0]) && k < |trace|
    ensures Inv(trace[k]) && trace[k].lost == trace[0].lost && |trace[k].t| == |trace[0].t|
  {
    hide Enabled, Apply;
    if k > 0 {
      RunKeepsInv(trace, ops, k - 1);
      StepKeepsInv(ops[k - 1], trace[k - 1]);
    }
  }

  /** Conservation: every cluster is free, or lost, or a member of exactly one chain, at one place in it. */
  lemma Conservation(s: State, n: nat)
    requires Inv(s) && 2 <= n < |s.t|
    ensures s.t[n] == 0 <==> n !in s.lost && forall id :: id in s.chains ==> n !in s.chains[id]
    ensures forall a, b :: a in s.chains && b in s.chains && n in s.chains[a] && n in s.chains[b] ==> a == b
    ensures forall a :: a in s.chains ==> Distinct(s.chains[a])
  {
    forall a | a in s.chains ensures Distinct(s.chains[a]) {
      ChainIsAcyclic(s.ft, s.t, s.chains[a]);
    }
    forall a, b | a in s.chains && b in s.chains && n in s.chains[a] && n in s.chains[b] ensures a == b {
      assert a != b ==> Disjoint(s.chains[a], s.chains[b]);
    }
    assert Owned(s, n) <==> exists id :: id in s.chains && n in s.chains[id];
  }

  /** `path` is everything reachable from `first`: it stops at an end-of-chain mark, at a link to
      no cluster, or where it would close a cycle. */
  ghost predicate IsOrbit(ft: FatType, t: seq<nat>, first: nat, path: Chain) {
    if first < 2 then path == []
    else
      && |path| > 0 && path[0] == first
      && (forall i :: 0 <= i < |path| ==> 2 <= path[i] < |t|)
      && (forall i :: 0 <= i < |path| - 1 ==> t[path[i]] == path[i + 1])
      && (var next := t[path[|path| - 1]]; IsEoc(ft, next) || next < 2 || next in path)
  }

  lemma {:induction false} SameSteps(t: seq<nat>, c: Chain, path: Chain, i: nat)
    requires i < |c| && i < |path| && c[0] == path[0]
    requires forall k :: 0 <= k < |c| ==> c[k] < |t|
    requires forall k :: 0 <= k < |path| ==> path[k] < |t|
    requires forall k :: 0 <= k < |c| - 1 ==> t[c[k]] == c[k + 1]
    requires forall k :: 0 <= k < |path| - 1 ==> t[path[k]] == path[k + 1]
    ensures c[i] == path[i]
  {
    if i > 0 {
      SameSteps(t, c, path, i - 1);
      assert t[c[i - 1]] == c[i] && t[path[i - 1]] == path[i];
    }
  }

  /** Short of its end a chain leads to a cluster not visited before. */
  lemma LeadsOn(ft: FatType, t: seq<nat>, c: Chain, i: nat)
    requires Sized(ft, t) && IsChain(ft, t, c) && i < |c|
    ensures IsEoc(ft, t[c[i]]) <==> i == |c| - 1
    ensures i < |c| - 1 ==> t[c[i]] >= 2 && t[c[i]] !in c[..i + 1]
  {
    ChainIsAcyclic(ft, t, c);
    ChainNext(ft, t, c, i);
  }

  /** On an intact chain the orbit of the head is the chain. */
  lemma OrbitOfChain(ft: FatType, t: seq<nat>, c: Chain, path: Chain)
    requires Sized(ft, t) && IsChain(ft, t, c) && IsOrbit(ft, t, c[0], path)
    ensures path == c
  {
    forall i | 0 <= i < |c| && i < |path| ensures c[i] == path[i] {
      SameSteps(t, c, path, i);
    }
    var k := if |path| <= |c| then |path| else |c|;
    assert c[..k] == path[..k];
    LeadsOn(ft, t, c, k - 1);
    PathNext(t, path, k - 1);
    assert |path| <= |c| ==> path == path[..k];
  }

  /** Links out of `region` stay in it until they end. */
  ghost predicate Closed(ft: FatType, t: seq<nat>, region: set<nat>) {
    forall n :: n in region ==> 2 <= n < |t| && (IsEoc(ft, t[n]) || t[n] < 2 || t[n] in region)
  }

  ghost function Members(c: Chain): set<nat> {
    set n | n in c
  }

  /** A table whose links are all in range is closed as a whole. */
  lemma InRangeTableClosed(ft: FatType, t: seq<nat>, clusters: set<nat>)
    requires forall n :: n in clusters <==> 2 <= n < |t|
    requires forall n :: 2 <= n < |t| ==> t[n] < |t| || IsEoc(ft, t[n])
    ensures Closed(ft, t, clusters)
  {
  }

  lemma ChainClosed(ft: FatType, t: seq<nat>, c: Chain)
    requires Sized(ft, t) && IsChain(ft, t, c)
    ensures Closed(ft, t, Members(c))
  {
    forall n | n in c ensures 2 <= n < |t| && (IsEoc(ft, t[n]) || t[n] in c) {
      var i :| 0 <= i < |c| && c[i] == n;
      ChainNext(ft, t, c, i);
    }
  }

  lemma FileClosed(s: State, id: nat)
    requires Inv(s) && id in s.chains
    ensures |s.chains[id]| > 0 && s.chains[id][0] in Members(s.chains[id])
    ensures Closed(s.ft, s.t, Members(s.chains[id]))
  {
    assert IsChain(s.ft, s.t, s.chains[id]);
    ChainClosed(s.ft, s.t, s.chains[id]);
  }

  /** Zeroing the orbit of a file's head is the Free step. */
  lemma OrbitFreesFile(s: State, id: nat, path: Chain)
    requires Inv(s) && id in s.chains && |s.chains[id]| > 0 && IsOrbit(s.ft, s.t, s.chains[id][0], path)
    ensures Apply(Free(id), s) == State(s.ft, Zeroed(s.t, path), s.chains - {id}, s.lost)
    ensures Inv(Apply(Free(id), s))
  {
    OrbitOfChain(s.ft, s.t, s.chains[id], path);
    StepKeepsInv(Free(id), s);
  }

  ghost function UsedSet(t: seq<nat>): set<nat> {
    set n: nat | 2 <= n < |t| && t[n] != 0
  }

  ghost function Visit(path: Chain, cur: nat): Chain {
    if cur in path then path else path + [cur]
  }

  /** Freeing one more cluster: the table, and fewer used clusters unless it was free already. */
  lemma ZeroedVisit(t: seq<nat>, path: Chain, cur: nat)
    requires 2 <= cur < |t|
    ensures Zeroed(t, path)[cur := 0] == Zeroed(t, Visit(path, cur))
    ensures UsedSet(Zeroed(t, Visit(path, cur))) <= UsedSet(Zeroed(t, path))
    ensures Zeroed(t, path)[cur] != 0 ==> UsedSet(Zeroed(t, Visit(path, cur))) < UsedSet(Zeroed(t, path))
  {
    var r := Zeroed(t, path)[cur := 0];
    assert r == Zeroed(t, Visit(path, cur));
    if Zeroed(t, path)[cur] != 0 {
      assert cur in UsedSet(Zeroed(t, path)) && cur !in UsedSet(r);
    }
  }

  lemma PathNext(t: seq<nat>, path: Chain, i: nat)
    requires i < |path|
    requires forall k :: 0 <= k < |path| ==> path[k] < |t|
    requires forall k :: 0 <= k < |path| - 1 ==> t[path[k]] == path[k + 1]
    ensures i < |path| - 1 ==> t[path[i]] == path[i + 1] < |t|
  {
  }

  /** The links of a chain stay below the end-of-chain marks until its last cluster. */
  lemma ChainNext(ft: FatType, t: seq<nat>, c: Chain, i: nat)
    requires Sized(ft, t) && IsChain(ft, t, c) && i < |c|
    ensures IsEoc(ft, t[c[i]]) <==> i == |c| - 1
    ensures i < |c| - 1 ==> t[c[i]] == c[i + 1]
  {
    assert i < |c| - 1 ==> t[c[i]] == c[i + 1];
  }

  /** `c` are clusters a walk from `first` visits, one behind the other, in a sound table or not. */
  ghost predicate IsTrace(ft: FatType, t: seq<nat>, first: nat, c: Chain) {
    && (c != [] ==> c[0] == first)
    && (forall i :: 0 <= i < |c| ==> 2 <= c[i] < |t|)
    && (forall i :: 0 <= i < |c| - 1 ==> t[c[i]] == c[i + 1] && !IsEoc(ft, t[c[i]]))
  }

  /** The walk is over after `c`: at an end mark, or at a link to no cluster. */
  ghost predicate Complete(ft: FatType, t: seq<nat>, first: nat, c: Chain)
    requires IsTrace(ft, t, first, c)
  {
    if c == [] then first < 2 else IsEoc(ft, t[c[|c| - 1]]) || t[c[|c| - 1]] < 2
  }

  lemma TraceNext(ft: FatType, t: seq<nat>, first: nat, c: Chain, i: nat)
    requires IsTrace(ft, t, first, c) && i < |c|
    ensures c[i] < |t| && (i < |c| - 1 ==> t[c[i]] == c[i + 1] && !IsEoc(ft, t[c[i]]))
    ensures i == |c| - 1 && Complete(ft, t, first, c) ==> IsEoc(ft, t[c[i]]) || t[c[i]] < 2
  {
    hide IsEoc;
    assert i < |c| - 1 ==> t[c[i]] == c[i + 1];
  }

  /** A file's chain is the complete walk from its first cluster. */
  lemma ChainIsTrace(ft: FatType, t: seq<nat>, c: Chain)
    requires Sized(ft, t) && IsChain(ft, t, c)
    ensures IsTrace(ft, t, c[0], c) && Complete(ft, t, c[0], c)
  {
    forall i | 0 <= i < |c| - 1 ensures t[c[i]] == c[i + 1] && !IsEoc(ft, t[c[i]]) {
      ChainNext(ft, t, c, i);
    }
  }

  /** Half of an orbit: `path` leads from `first` to `cur`. */
  ghost predicate Walked(t: seq<nat>, first: nat, path: Chain, cur: nat) {
    && cur < |t|
    && (forall i :: 0 <= i < |path| ==> 2 <= path[i] < |t|)
    && (forall i :: 0 <= i < |path| - 1 ==> t[path[i]] == path[i + 1])
    && if path == [] then cur == first
       else path[0] == first >= 2 && (t[path[|path| - 1]] == cur || (cur == 0 && t[path[|path| - 1]] in path))
  }

  lemma WalkStart(ft: FatType, t: seq<nat>, region: set<nat>, first: nat)
    requires Closed(ft, t, region) && |t| >= 2 && (first < 2 || first in region)
    ensures first < |t| && Walked(t, first, [], first) && Zeroed(t, []) == t
  {
  }

  lemma WalkStep(ft: FatType, t: seq<nat>, region: set<nat>, first: nat, path: Chain, cur: nat)
    requires Walked(t, first, path, cur) && cur in region && Closed(ft, t, region) && !IsEoc(ft, Zeroed(t, path)[cur])
    ensures Walked(t, first, Visit(path, cur), Zeroed(t, path)[cur])
    ensures Zeroed(t, path)[cur] < |t| && (Zeroed(t, path)[cur] < 2 || Zeroed(t, path)[cur] in region)
  {
    hide IsEoc, Walked;
    if cur !in path {
      WalkFresh(t, first, path, cur, t[cur]);
    } else {
      WalkBack(t, first, path, cur);
    }
  }

  /** Back on the path: the cleared entry reads as 0 and the walk is over. */
  lemma WalkBack(t: seq<nat>, first: nat, path: Chain, cur: nat)
    requires Walked(t, first, path, cur) && cur in path
    ensures Walked(t, first, path, 0)
  {
  }

  lemma WalkFresh(t: seq<nat>, first: nat, path: Chain, cur: nat, next: nat)
    requires Walked(t, first, path, cur) && 2 <= cur && next == t[cur] < |t|
    ensures Walked(t, first, path + [cur], next)
  {
    var p := path + [cur];
    forall i | 0 <= i < |p| - 1 ensures t[p[i]] == p[i + 1] {
      PathNext(t, path, i);
    }
  }

  lemma WalkEnd(ft: FatType, t: seq<nat>, first: nat, path: Chain, cur: nat)
    requires Walked(t, first, path, cur) && (cur >= 2 ==> IsEoc(ft, Zeroed(t, path)[cur]))
    ensures IsOrbit(ft, t, first, if cur >= 2 then Visit(path, cur) else path)
  {
    if cur >= 2 {
      var p := path + [cur];
      assert cur !in path;
      forall i | 0 <= i < |p| - 1 ensures t[p[i]] == p[i + 1] {
        PathNext(t, path, i);
      }
    }
  }

  lemma FileChain(s: State, id: nat)
    requires Inv(s) && id in s.chains
    ensures IsChain(s.ft, s.t, s.chains[id]) && Distinct(s.chains[id]) && Sized(s.ft, s.t)
  {
    ChainIsAcyclic(s.ft, s.t, s.chains[id]);
  }

  /** The table a successful append leaves, and the chain that goes with it. */
  lemma AppendStep(s: State, id: nat, n: nat)
    requires Inv(s) && id in s.chains && IsChain(s.ft, s.t, s.chains[id]) && LowestFree(s.t, n)
    ensures var c := s.chains[id];
            Inv(State(s.ft, s.t[n := EocValue(s.ft)][c[|c| - 1] := n], s.chains[id := c + [n]], s.lost))
  {
    assert AllChains(s) && Enabled(Append(id, n), s);
    StepKeepsInv(Append(id, n), s);
    hide Inv, AllChains, IsChain;
  }

  lemma AllocStep(s: State, id: nat, n: nat)
    requires Inv(s) && id !in s.chains && LowestFree(s.t, n)
    ensures Inv(State(s.ft, s.t[n := EocValue(s.ft)], s.chains[id := [n]], s.lost))
  {
    StepKeepsInv(Alloc(id, n), s);
  }

  lemma TruncateStep(s: State, id: nat, keep: nat)
    requires Inv(s) && id in s.chains && IsChain(s.ft, s.t, s.chains[id]) && 0 < keep <= |s.chains[id]|
    ensures var c := s.chains[id];
            Inv(State(s.ft, Zeroed(s.t[c[keep - 1] := EocValue(s.ft)], c[keep..]), s.chains[id := c[..keep]], s.lost))
  {
    assert AllChains(s) && Enabled(Truncate(id, keep), s);
    StepKeepsInv(Truncate(id, keep), s);
    hide Inv, AllChains, IsChain;
  }

  lemma ZeroedSnoc(t: seq<nat>, cs: Chain, n: nat)
    requires n < |t|
    ensures Zeroed(t, cs)[n := 0] == Zeroed(t, cs + [n])
  {
  }

  lemma LowestFreeIsCluster(t: seq<nat>, n: nat)
    requires LowestFree(t, n)
    ensures 2 <= n < |t|
  {
  }

  /** Another file's cluster is a real cluster, and not on this chain. */
  lemma SlotApart(s: State, id: nat, other: nat, n: nat)
    requires Inv(s) && id in s.chains && other in s.chains && id != other && n in s.chains[other]
    ensures 2 <= n < |s.t| && n !in s.chains[id]
  {
    assert IsChain(s.ft, s.t, s.chains[other]) && Disjoint(s.chains[other], s.chains[id]);
  }
}
