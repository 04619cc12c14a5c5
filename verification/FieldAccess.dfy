// What a write through one path does to reads through the others, for paths that the walk
// finds where C puts them.
module FieldAccess {
  import opened ByteMemory
  import opened DebugTypes
  import opened TypePaths
  import opened Layout
  import opened FlatView
  import opened Upload

  /** Where the field at `p` of the object at `base` lives. */
  function FieldAddr(base: nat, t: DIType, p: Path): nat
    requires ValidPath(t, p)
  {
    base + OffsetOf(t, p)
  }

  /** The field at `p` of the object at `base`, in flat memory. */
  ghost function FieldBytes(v: View, base: nat, t: DIType, p: Path): (r: Bytes)
    requires ValidPath(t, p) && Covers(v, FieldAddr(base, t, p), Size(TypeAt(t, p)))
  {
    ViewRead(v, FieldAddr(base, t, p), Size(TypeAt(t, p)))
  }

  lemma FieldCovered(v: View, base: nat, t: DIType, p: Path)
    requires ValidPath(t, p) && Covers(v, base, Size(t))
    ensures Covers(v, FieldAddr(base, t, p), Size(TypeAt(t, p)))
  {
    PathInBounds(t, p);
    CoversPart(v, base, Size(t), FieldAddr(base, t, p), Size(TypeAt(t, p)));
  }

  /** Memory after the field at `p` has been set. */
  ghost function WithField(v: View, base: nat, t: DIType, p: Path, value: Bytes): View
    requires ValidPath(t, p)
  {
    ViewWrite(v, FieldAddr(base, t, p), value)
  }

  lemma StillCovered(v: View, base: nat, t: DIType, p: Path, value: Bytes, q: Path)
    requires ValidPath(t, p) && ValidPath(t, q) && Covers(v, base, Size(t))
    ensures Covers(v, FieldAddr(base, t, q), Size(TypeAt(t, q)))
    ensures Covers(WithField(v, base, t, p, value), FieldAddr(base, t, q), Size(TypeAt(t, q)))
  {
    FieldCovered(v, base, t, q);
    WriteKeepsCover(v, FieldAddr(base, t, p), value, FieldAddr(base, t, q), Size(TypeAt(t, q)));
  }

  /** How far inside the field at `p` the one at `q` starts. */
  function Into(t: DIType, p: Path, q: Path): int
    requires ValidPath(t, p) && ValidPath(t, q)
  {
    OffsetOf(t, q) - OffsetOf(t, p)
  }

  /** The field that has been set, and every field inside it, reads as the new bytes. */
  lemma SetReadBack(v: View, base: nat, t: DIType, p: Path, q: Path, value: Bytes)
    requires ValidPath(t, p) && ValidPath(t, q) && Covers(v, base, Size(t))
    requires p <= q && |value| == Size(TypeAt(t, p))
    ensures Covers(WithField(v, base, t, p, value), FieldAddr(base, t, q), Size(TypeAt(t, q)))
    ensures 0 <= Into(t, p, q) && Into(t, p, q) + Size(TypeAt(t, q)) <= |value|
    ensures FieldBytes(WithField(v, base, t, p, value), base, t, q) == value[Into(t, p, q)..][..Size(TypeAt(t, q))]
  {
    hide ViewWrite, ViewRead, Covers;
    StillCovered(v, base, t, p, value, q);
    ExtensionNests(t, p, q);
    ReadPart(v, FieldAddr(base, t, p), value, FieldAddr(base, t, q), Into(t, p, q), Size(TypeAt(t, q)));
  }

  /** Every field the path to which parts from `p` elsewhere than at a union reads as
      before. */
  lemma SetElsewhere(v: View, base: nat, t: DIType, p: Path, q: Path, value: Bytes)
    requires ValidPath(t, p) && ValidPath(t, q) && Covers(v, base, Size(t)) && |value| <= Size(TypeAt(t, p))
    requires !(p <= q) && !(q <= p) && !SplitAtUnion(t, p, q)
    ensures Covers(v, FieldAddr(base, t, q), Size(TypeAt(t, q)))
    ensures Covers(WithField(v, base, t, p, value), FieldAddr(base, t, q), Size(TypeAt(t, q)))
    ensures FieldBytes(WithField(v, base, t, p, value), base, t, q) == FieldBytes(v, base, t, q)
  {
    hide ViewWrite, ViewRead, Covers;
    StillCovered(v, base, t, p, value, q);
    RangesSeparate(t, p, q);
    ReadPastWrite(v, FieldAddr(base, t, p), value, FieldAddr(base, t, q), Size(TypeAt(t, q)));
  }

  lemma WriteKeepsCover(v: View, a: nat, value: Bytes, b: nat, n: nat)
    requires Covers(v, b, n)
    ensures Covers(ViewWrite(v, a, value), b, n)
  {
  }

  lemma ReadPart(v: View, a: nat, value: Bytes, b: nat, k: nat, n: nat)
    requires Covers(v, b, n) && b == a + k && k + n <= |value|
    ensures Covers(ViewWrite(v, a, value), b, n)
    ensures ViewRead(ViewWrite(v, a, value), b, n) == value[k..][..n]
  {
  }

  /** Setting one member of a union is seen through the others. */
  lemma SetSeenBySibling(v: View, base: nat, t: DIType, p: Path, i: nat, j: nat, value: Bytes)
    requires ValidPath(t, p) && ValidPath(t, p + [i]) && ValidPath(t, p + [j]) && Strip(TypeAt(t, p)).Union?
    requires Covers(v, base, Size(t)) && Size(TypeAt(t, p + [j])) <= |value|
    ensures Covers(WithField(v, base, t, p + [i], value), FieldAddr(base, t, p + [j]), Size(TypeAt(t, p + [j])))
    ensures FieldBytes(WithField(v, base, t, p + [i], value), base, t, p + [j]) == value[..Size(TypeAt(t, p + [j]))]
  {
    hide ViewWrite, ViewRead, Covers;
    UnionSiblingsAlias(t, p, i, j);
    StillCovered(v, base, t, p + [i], value, p + [j]);
    ReadPart(v, FieldAddr(base, t, p + [i]), value, FieldAddr(base, t, p + [j]), 0, Size(TypeAt(t, p + [j])));
  }

  /** The store size structAlloc asks for is room for every field. */
  lemma RoomForFields(t: DIType, p: Path)
    requires WellFormed(t) && ValidPath(t, p)
    ensures StoreSize(Lower(t)) == Size(t)
    ensures OffsetOf(t, p) + Size(TypeAt(t, p)) <= StoreSize(Lower(t))
  {
    LowerKeepsSize(t);
    PathInBounds(t, p);
  }
}
