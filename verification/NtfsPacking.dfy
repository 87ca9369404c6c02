/** Spilling a directory: entries packed greedily, in order, into index blocks. */
module NtfsPacking {
  import opened Chunks
  import opened NtfsIndex

  /** The greedy packing of `es` behind the entries `cur` of the block being filled. */
  function Pack(es: seq<Entry>, cur: seq<Entry>, room: int): (bl: seq<seq<Entry>>)
    ensures |bl| >= 1
  {
    if es == [] then [cur]
    else if |Concat(cur)| + |es[0]| > room && cur != [] then [cur] + Pack(es[1..], [es[0]], room)
    else Pack(es[1..], cur + [es[0]], room)
  }

  ghost predicate Fits(bl: seq<seq<Entry>>, room: int) {
    forall i :: 0 <= i < |bl| ==> |Concat(bl[i])| <= room
  }

  lemma ConcatCons(b: seq<Entry>, rest: seq<seq<Entry>>)
    ensures Concat([b] + rest) == b + Concat(rest) && (rest == [] ==> Concat(rest) == [])
  {
    assert ([b] + rest)[1..] == rest;
  }

  /** Packing keeps every entry, in order. */
  lemma {:induction false} PackKeepsOrder(es: seq<Entry>, cur: seq<Entry>, room: int)
    ensures Concat(Pack(es, cur, room)) == cur + es
    decreases |es|
  {
    hide Concat;
    if es == [] {
      ConcatCons(cur, []);
      assert [cur] + [] == [cur] && cur + [] == cur;
    } else if |Concat(cur)| + |es[0]| > room && cur != [] {
      PackKeepsOrder(es[1..], [es[0]], room);
      ConcatCons(cur, Pack(es[1..], [es[0]], room));
      assert [es[0]] + es[1..] == es;
    } else {
      PackKeepsOrder(es[1..], cur + [es[0]], room);
      assert cur + [es[0]] + es[1..] == cur + es;
    }
  }

  /** Every block holds what is put in it, if every single entry would. */
  lemma {:induction false} PackFits(es: seq<Entry>, cur: seq<Entry>, room: int)
    requires |Concat(cur)| <= room && forall i :: 0 <= i < |es| ==> |es[i]| <= room
    ensures Fits(Pack(es, cur, room), room)
    decreases |es|
  {
    if es != [] {
      ConcatOne(es[0]);
      AppendOne(cur, es[0]);
      if |Concat(cur)| + |es[0]| > room && cur != [] {
        PackFits(es[1..], [es[0]], room);
      } else {
        PackFits(es[1..], cur + [es[0]], room);
      }
    }
  }

  /** A fuller start needs at least as many blocks, and at most one more. */
  lemma {:induction false} FullerStart(es: seq<Entry>, pre: seq<Entry>, c: seq<Entry>, room: int)
    ensures |Pack(es, c, room)| <= |Pack(es, pre + c, room)| <= 1 + |Pack(es, c, room)|
    decreases |es|
  {
    if es != [] {
      var e, t := es[0], es[1..];
      ConcatAppend(pre, c);
      assert pre + c + [e] == pre + (c + [e]);
      FullerStart(t, pre, c + [e], room);
      FullerStart(t, c, [e], room);
      assert pre + c == [] ==> pre == [] && c == [];
      assert pre == [] ==> pre + c == c;
      FullerStart(t, pre + c, [e], room);
    }
  }

  lemma {:induction false} FillBlock(p: seq<Entry>, rest: seq<Entry>, cur: seq<Entry>, room: int)
    requires |Concat(cur)| + |Concat(p)| <= room
    ensures Pack(p + rest, cur, room) == Pack(rest, cur + p, room)
    decreases |p|
  {
    if p == [] {
      assert p + rest == rest && cur + p == cur;
    } else {
      assert (p + rest)[0] == p[0] && (p + rest)[1..] == p[1..] + rest;
      AppendOne(cur, p[0]);
      FillBlock(p[1..], rest, cur + [p[0]], room);
      assert cur + [p[0]] + p[1..] == cur + p;
    }
  }

  /** No packing that keeps the order and fits its blocks uses fewer of them. */
  lemma {:induction false} PackIsMinimal(es: seq<Entry>, other: seq<seq<Entry>>, room: int)
    requires other != [] && Concat(other) == es && Fits(other, room)
    ensures |Pack(es, [], room)| <= |other|
    decreases |other|
  {
    var p, rest := other[0], Concat(other[1..]);
    FillBlock(p, rest, [], room);
    assert [] + p == p && p + [] == p;
    FullerStart(rest, p, [], room);
    if |other| == 1 {
      assert rest == [];
    } else {
      PackIsMinimal(rest, other[1..], room);
    }
  }

  /** The packing loop of the spill. */
  method PackEntries(es: seq<Entry>, room: int) returns (blocks: seq<seq<Entry>>)
    ensures blocks == Pack(es, [], room)
  {
    blocks := [];
    var cur: seq<Entry>, curBytes := [], 0;
    assert es[0..] == es && [] + Pack(es, [], room) == Pack(es, [], room);
    for i := 0 to |es|
      invariant curBytes == |Concat(cur)|
      invariant blocks + Pack(es[i..], cur, room) == Pack(es, [], room)
    {
      var e := es[i];
      ghost var rest := es[i..];
      assert rest[0] == e && rest[1..] == es[i + 1..];
      AppendOne(cur, e);
      ConcatOne(e);
      if curBytes + |e| > room && cur != [] {
        assert blocks + ([cur] + Pack(es[i + 1..], [e], room)) == blocks + [cur] + Pack(es[i + 1..], [e], room);
        blocks := blocks + [cur];
        cur, curBytes := [], 0;
        assert [] + [e] == [e];
      }
      cur := cur + [e];
      curBytes := curBytes + |e|;
    }
    assert es[|es|..] == [];
    blocks := blocks + [cur];
  }
}
