/** MFT records as typed attributes with byte sizes. */
module NtfsRecord {
  import opened Wrappers
  import opened Bytes

  /** The attributes a directory index is stored in; `size` is the attribute's length in the record. */
  datatype Attr =
    | IndexRoot(kind: seq<byte>, hdr: seq<byte>, size: nat)
    | IndexAlloc(runlist: seq<byte>, totalBytes: nat, size: nat)
    | IndexBitmap(bytes: nat, size: nat)
    | OtherAttr(size: nat)

  datatype Kind = RootKind | AllocKind | BitmapKind

  predicate Is(a: Attr, k: Kind) {
    match k
    case RootKind => a.IndexRoot?
    case AllocKind => a.IndexAlloc?
    case BitmapKind => a.IndexBitmap?
  }

  /** A record slice of `len` bytes whose attributes start at `firstAttr`. */
  datatype Record = Record(len: nat, firstAttr: nat, attrs: seq<Attr>)

  function Total(attrs: seq<Attr>): nat {
    if attrs == [] then 0 else Total(attrs[..|attrs| - 1]) + attrs[|attrs| - 1].size
  }

  /** Offset of the end marker. */
  function End(r: Record): nat {
    r.firstAttr + Total(r.attrs)
  }

  function Find(attrs: seq<Attr>, k: Kind): (i: int)
    ensures -1 <= i < |attrs|
    ensures i >= 0 ==> Is(attrs[i], k) && forall j :: 0 <= j < i ==> !Is(attrs[j], k)
    ensures i < 0 ==> forall j :: 0 <= j < |attrs| ==> !Is(attrs[j], k)
  {
    if attrs == [] then -1
    else
      var i := Find(attrs[..|attrs| - 1], k);
      if i >= 0 then i else if Is(attrs[|attrs| - 1], k) then |attrs| - 1 else -1
  }

  function Get(r: Record, k: Kind): (o: Option<Attr>)
    ensures o.Some? ==> Is(o.value, k)
  {
    var i := Find(r.attrs, k);
    if i < 0 then None else Some(r.attrs[i])
  }

  /** The record without its attribute of kind k. */
  function Remove(r: Record, k: Kind): Record {
    var i := Find(r.attrs, k);
    if i < 0 then r
    else Record(if r.len >= r.attrs[i].size then r.len - r.attrs[i].size else 0, r.firstAttr, r.attrs[..i] + r.attrs[i + 1..])
  }

  /** The record with an attribute at its end marker, grown if it must be. */
  function Append(r: Record, a: Attr): Record {
    var needed := End(r) + a.size + 8;
    Record(if r.len < needed then needed else r.len, r.firstAttr, r.attrs + [a])
  }

  ghost predicate Unique(r: Record, k: Kind) {
    forall i, j :: 0 <= i < |r.attrs| && 0 <= j < |r.attrs| && Is(r.attrs[i], k) && Is(r.attrs[j], k) ==> i == j
  }

  ghost predicate Simple(r: Record) {
    Unique(r, RootKind) && Unique(r, AllocKind) && Unique(r, BitmapKind)
  }

  lemma GetIs(r: Record, k: Kind, i: nat)
    requires Unique(r, k) && i < |r.attrs| && Is(r.attrs[i], k)
    ensures Get(r, k) == Some(r.attrs[i])
  {
  }

  lemma RemovedUnique(r: Record, k: Kind, k': Kind)
    requires Unique(r, k')
    ensures Unique(Remove(r, k), k')
  {
    hide Find, Is;
    var i, s := Find(r.attrs, k), Remove(r, k);
    if i >= 0 {
      assert forall j :: 0 <= j < |s.attrs| ==> s.attrs[j] == r.attrs[if j < i then j else j + 1];
    }
  }

  lemma RemoveKeepsOthers(r: Record, k: Kind, k': Kind)
    requires Unique(r, k) && Unique(r, k')
    ensures Unique(Remove(r, k), k') && Get(Remove(r, k), k') == if k' == k then None else Get(r, k')
  {
    RemovedUnique(r, k, k');
    var i, f := Find(r.attrs, k), Find(r.attrs, k');
    if i >= 0 {
      if k' == k {
        GoneFor(r, k, i);
      } else if f >= 0 {
        hide Unique, Is;
        StillFound(r, k, k', i, f);
      } else {
        GoneFor(r, k', i);
      }
    }
  }

  /** No attribute of the kind is left, or was there. */
  lemma GoneFor(r: Record, k: Kind, i: nat)
    requires i < |r.attrs| && forall j :: 0 <= j < |r.attrs| && j != i ==> !Is(r.attrs[j], k)
    ensures Find(r.attrs[..i] + r.attrs[i + 1..], k) < 0
  {
    hide Is;
    var s := r.attrs[..i] + r.attrs[i + 1..];
    assert forall j :: 0 <= j < |s| ==> s[j] == r.attrs[if j < i then j else j + 1];
    var f := Find(s, k);
  }

  lemma StillFound(r: Record, k: Kind, k': Kind, i: nat, f: nat)
    requires i == Find(r.attrs, k) && f == Find(r.attrs, k') && i < |r.attrs| && f < |r.attrs| && f != i
    requires Unique(Remove(r, k), k')
    ensures Get(Remove(r, k), k') == Some(r.attrs[f])
  {
    hide Unique, Is, Find;
    var s, g := Remove(r, k), if f < i then f else f - 1;
    assert s.attrs[g] == r.attrs[f];
    GetIs(s, k', g);
  }

  lemma AppendKeepsOthers(r: Record, a: Attr, k: Kind)
    requires Unique(r, k) && (Is(a, k) ==> Get(r, k).None?)
    ensures Unique(Append(r, a), k) && Get(Append(r, a), k) == if Is(a, k) then Some(a) else Get(r, k)
  {
    var s := Append(r, a);
    var i := Find(r.attrs, k);
    assert forall j :: 0 <= j < |r.attrs| ==> s.attrs[j] == r.attrs[j];
    if Is(a, k) {
      assert s.attrs[|r.attrs|] == a;
    } else if i >= 0 {
      GetIs(s, k, i);
    }
  }

  function KindOf(a: Attr): Option<Kind> {
    match a
    case IndexRoot(_, _, _) => Some(RootKind)
    case IndexAlloc(_, _, _) => Some(AllocKind)
    case IndexBitmap(_, _) => Some(BitmapKind)
    case OtherAttr(_) => None
  }

  /** Removing the attribute of a kind and appending a new one of that kind. */
  function Replace(r: Record, a: Attr): Record
    requires KindOf(a).Some?
  {
    Append(Remove(r, KindOf(a).value), a)
  }

  /** Replacing changes what is found under that kind only. */
  lemma Replaced(r: Record, a: Attr)
    requires Simple(r) && KindOf(a).Some?
    ensures Simple(Replace(r, a))
    ensures forall k :: Get(Replace(r, a), k) == if Is(a, k) then Some(a) else Get(r, k)
  {
    var k := KindOf(a).value;
    forall k' ensures Unique(Replace(r, a), k') && Get(Replace(r, a), k') == if Is(a, k') then Some(a) else Get(r, k') {
      assert Unique(r, k) && Unique(r, k');
      RemoveKeepsOthers(r, k, k');
      AppendKeepsOthers(Remove(r, k), a, k');
    }
  }

  /** Attribute lengths as the writers compute them, all named "$I30". */
  function NamedRoot(kind: seq<byte>, hdr: seq<byte>): Attr {
    IndexRoot(kind, hdr, Round8(32 + |kind| + |hdr|))
  }

  /** The runlist is followed by whatever bytes fill the attribute up to a multiple of eight. */
  function NamedAlloc(runlist: seq<byte>, filler: seq<byte>, totalBytes: nat): Attr {
    IndexAlloc(runlist + filler, totalBytes, Round8(72 + |runlist|))
  }

  function NamedBitmap(bytes: nat): Attr {
    IndexBitmap(bytes, Round8(32 + bytes))
  }

  /** The record with fresh $INDEX_ALLOCATION and $BITMAP attributes. */
  function Rebuild(r: Record, alloc: Attr, bitmap: Attr): Record {
    Append(Append(Remove(Remove(r, AllocKind), BitmapKind), alloc), bitmap)
  }

  lemma Rebuilt(r: Record, alloc: Attr, bitmap: Attr)
    requires Simple(r) && alloc.IndexAlloc? && bitmap.IndexBitmap?
    ensures var s := Rebuild(r, alloc, bitmap);
            Simple(s) && Get(s, RootKind) == Get(r, RootKind) && Get(s, AllocKind) == Some(alloc) && Get(s, BitmapKind) == Some(bitmap)
  {
    forall k ensures Unique(Rebuild(r, alloc, bitmap), k)
      && Get(Rebuild(r, alloc, bitmap), k) == match k case RootKind => Get(r, k) case AllocKind => Some(alloc) case BitmapKind => Some(bitmap)
    {
      assert Unique(r, k) && Unique(r, AllocKind) && Unique(r, BitmapKind);
      var r1 := Remove(r, AllocKind);
      RemoveKeepsOthers(r, AllocKind, k);
      RemoveKeepsOthers(r, AllocKind, BitmapKind);
      RemoveKeepsOthers(r1, BitmapKind, k);
      AppendKeepsOthers(Remove(r1, BitmapKind), alloc, k);
      AppendKeepsOthers(Append(Remove(r1, BitmapKind), alloc), bitmap, k);
    }
  }

  /** The record a spill leaves: the root replaced, the two allocation attributes added. */
  function Spilled(r: Record, root: Attr, alloc: Attr, bitmap: Attr): Record
    requires root.IndexRoot?
  {
    Append(Append(Replace(r, root), alloc), bitmap)
  }

  lemma SpilledIs(r: Record, root: Attr, alloc: Attr, bitmap: Attr)
    requires Simple(r) && root.IndexRoot? && alloc.IndexAlloc? && bitmap.IndexBitmap?
    requires Get(r, AllocKind).None? && Get(r, BitmapKind).None?
    ensures var s := Spilled(r, root, alloc, bitmap);
            Simple(s) && Get(s, RootKind) == Some(root) && Get(s, AllocKind) == Some(alloc) && Get(s, BitmapKind) == Some(bitmap)
  {
    hide Unique, Replace, Append, Get;
    var r1 := Replace(r, root);
    Replaced(r, root);
    var r2 := Append(r1, alloc);
    AppendKeepsOthers(r1, alloc, RootKind);
    AppendKeepsOthers(r1, alloc, AllocKind);
    AppendKeepsOthers(r1, alloc, BitmapKind);
    AppendKeepsOthers(r2, bitmap, RootKind);
    AppendKeepsOthers(r2, bitmap, AllocKind);
    AppendKeepsOthers(r2, bitmap, BitmapKind);
  }
}
