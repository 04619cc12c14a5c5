// Writing the leaves of an object into the flat memory, and what memory holds afterwards.
module Upload {
  import opened ByteMemory
  import opened Common
  import opened DebugTypes
  import opened TypePaths
  import opened Layout
  import opened Resolver
  import opened Spelling
  import opened Offsets
  import opened FlatView
  import opened PyValues
  import opened Primitives
  import opened Marshaller

  // ---- One leaf ----

  function LeafKind(t: DIType, p: Path): Kind
    requires ValidPath(t, p)
  {
    KindOf(TypeName(Strip(TypeAt(t, p))))
  }

  function LeafSize(t: DIType, p: Path): nat
    requires ValidPath(t, p)
  {
    Size(TypeAt(t, p))
  }

  function EncodeLeaf(t: DIType, bits: nat, l: Leaf): Packed
    requires ValidPath(t, l.path)
  {
    Encode(LeafKind(t, l.path), RecordedSize(t, l.path), bits, Payload(l.value))
  }

  /** Where irx reads and writes the leaf, in the object; nowhere if the walk aborts. */
  function LeafPlace(t: DIType, p: Path): nat
    requires ValidPath(t, p)
  {
    PlaceOf(t, p).GetOr(0)
  }

  /** Where the leaf of an object at `base` lives. */
  function LeafAddr(base: nat, t: DIType, p: Path): nat
    requires ValidPath(t, p)
  {
    base + LeafPlace(t, p)
  }

  /** irx gets to the leaf, and finds it inside the object. */
  predicate Inside(t: DIType, p: Path)
    requires ValidPath(t, p)
  {
    Addressable(t, p) && LeafPlace(t, p) + LeafSize(t, p) <= Size(t)
  }

  predicate Written(t: DIType, bits: nat, l: Leaf) {
    ValidPath(t, l.path) && EncodeLeaf(t, bits, l).Write?
  }

  /** The leaf can be written, and within its own bytes. */
  predicate Encodable(t: DIType, bits: nat, l: Leaf) {
    && ValidPath(t, l.path) && Inside(t, l.path)
    && !EncodeLeaf(t, bits, l).PackError?
    && (EncodeLeaf(t, bits, l).Write? ==> |EncodeLeaf(t, bits, l).bytes| <= LeafSize(t, l.path))
  }

  ghost predicate AllEncodable(t: DIType, bits: nat, ls: seq<Leaf>) {
    forall i | 0 <= i < |ls| :: Encodable(t, bits, ls[i])
  }

  ghost function WriteLeaf(v: View, base: nat, t: DIType, bits: nat, l: Leaf): View {
    if Written(t, bits, l) then ViewWrite(v, LeafAddr(base, t, l.path), EncodeLeaf(t, bits, l).bytes) else v
  }

  /** Memory after the leaves have been written one after the other. */
  ghost function WriteLeaves(v: View, base: nat, t: DIType, bits: nat, ls: seq<Leaf>): View {
    if ls == [] then v
    else WriteLeaf(WriteLeaves(v, base, t, bits, ls[..|ls| - 1]), base, t, bits, ls[|ls| - 1])
  }

  lemma {:induction false} WritesCompose(v: View, base: nat, t: DIType, bits: nat, a: seq<Leaf>, b: seq<Leaf>)
    ensures WriteLeaves(v, base, t, bits, a + b) == WriteLeaves(WriteLeaves(v, base, t, bits, a), base, t, bits, b)
    decreases b
  {
    if b == [] {
      assert a + b == a;
    } else {
      assert (a + b)[..|a + b| - 1] == a + b[..|b| - 1];
      WritesCompose(v, base, t, bits, a, b[..|b| - 1]);
    }
  }

  lemma {:induction false} WritesKeepDomain(v: View, base: nat, t: DIType, bits: nat, ls: seq<Leaf>)
    ensures WriteLeaves(v, base, t, bits, ls).Keys == v.Keys
    decreases ls
  {
    if ls != [] { WritesKeepDomain(v, base, t, bits, ls[..|ls| - 1]); }
  }

  /** Nothing outside the object changes. */
  ghost predicate SameOutside(v: View, w: View, a: nat, n: nat) {
    v.Keys == w.Keys && forall k | k in v && !(a <= k < a + n) :: w[k] == v[k]
  }

  lemma {:induction false} WritesStayInside(v: View, base: nat, t: DIType, bits: nat, ls: seq<Leaf>)
    requires AllEncodable(t, bits, ls)
    ensures SameOutside(v, WriteLeaves(v, base, t, bits, ls), base, Size(t))
    decreases ls
  {
    if ls != [] {
      var front, l := ls[..|ls| - 1], ls[|ls| - 1];
      WritesStayInside(v, base, t, bits, front);
      assert Encodable(t, bits, l);
    }
  }

  // ---- What memory holds ----

  /** The bytes at the leaf's place are its encoding; a leaf that is not written asks
      for nothing. */
  ghost predicate HoldsLeaf(v: View, base: nat, t: DIType, bits: nat, l: Leaf) {
    Written(t, bits, l) ==>
      var a, bytes := LeafAddr(base, t, l.path), EncodeLeaf(t, bits, l).bytes;
      Covers(v, a, |bytes|) && ViewRead(v, a, |bytes|) == bytes
  }

  ghost predicate HoldsLeaves(v: View, base: nat, t: DIType, bits: nat, ls: seq<Leaf>) {
    forall i | 0 <= i < |ls| :: HoldsLeaf(v, base, t, bits, ls[i])
  }

  predicate PlacesApart(t: DIType, l: Leaf, m: Leaf) {
    ValidPath(t, l.path) && ValidPath(t, m.path) ==>
      Disjoint(LeafPlace(t, l.path), LeafSize(t, l.path), LeafPlace(t, m.path), LeafSize(t, m.path))
  }

  /** No leaf that is written meets another. */
  ghost predicate AllPlacesApart(t: DIType, bits: nat, ls: seq<Leaf>) {
    forall i, j | 0 <= i < j < |ls| && Written(t, bits, ls[i]) && Written(t, bits, ls[j]) ::
      PlacesApart(t, ls[i], ls[j])
  }

  // ---- The same in terms of C ----

  /** Of the members of one union, at most one is written. */
  ghost predicate OnePerUnion(t: DIType, bits: nat, ls: seq<Leaf>) {
    forall i, j | 0 <= i < j < |ls| && Written(t, bits, ls[i]) && Written(t, bits, ls[j]) ::
      !SplitAtUnion(t, ls[i].path, ls[j].path)
  }

  /** The walk finds every leaf where C puts it. */
  ghost predicate AllRight(t: DIType, ls: seq<Leaf>) {
    forall i | 0 <= i < |ls| :: RightLeaf(t, ls[i])
  }

  ghost predicate RightLeaf(t: DIType, l: Leaf) {
    ValidPath(t, l.path) && !StopsAtElementRecord(t, l.path) && RightAt(Lower(t), t, l.path)
  }

  lemma RightLeafInside(t: DIType, l: Leaf)
    requires RightLeaf(t, l)
    ensures ValidPath(t, l.path) && Inside(t, l.path) && LeafPlace(t, l.path) == OffsetOf(t, l.path)
  {
    PathInBounds(t, l.path);
  }

  /** Right leaves of which at most one is written in each union lie in the object, and
      the written ones do not meet. */
  lemma OnePerUnionApart(t: DIType, bits: nat, ls: seq<Leaf>)
    requires AllRight(t, ls) && AllApart(ls) && OnePerUnion(t, bits, ls)
    ensures forall i | 0 <= i < |ls| :: ValidPath(t, ls[i].path) && Inside(t, ls[i].path)
    ensures AllPlacesApart(t, bits, ls)
  {
    hide Inside, RightLeaf, Written, PlacesApart;
    forall i | 0 <= i < |ls|
      ensures ValidPath(t, ls[i].path) && Inside(t, ls[i].path)
    {
      assert RightLeaf(t, ls[i]);
      RightLeafInside(t, ls[i]);
    }
    forall i, j | 0 <= i < j < |ls| && Written(t, bits, ls[i]) && Written(t, bits, ls[j])
      ensures PlacesApart(t, ls[i], ls[j])
    {
      assert RightLeaf(t, ls[i]) && RightLeaf(t, ls[j]);
      RightLeavesApart(t, ls[i], ls[j]);
    }
  }

  lemma RightLeavesApart(t: DIType, l: Leaf, m: Leaf)
    requires RightLeaf(t, l) && RightLeaf(t, m) && Apart(l.path, m.path) && !SplitAtUnion(t, l.path, m.path)
    ensures PlacesApart(t, l, m)
  {
    RightLeafInside(t, l);
    RightLeafInside(t, m);
    RangesSeparate(t, l.path, m.path);
  }

  // ---- What later writes leave alone ----

  lemma ReadOwnWrite(v: View, a: nat, b: Bytes)
    requires Covers(v, a, |b|)
    ensures Covers(ViewWrite(v, a, b), a, |b|) && ViewRead(ViewWrite(v, a, b), a, |b|) == b
  {
  }

  lemma ReadPastWrite(v: View, a: nat, b: Bytes, c: nat, n: nat)
    requires Covers(v, c, n) && Disjoint(a, |b|, c, n)
    ensures Covers(ViewWrite(v, a, b), c, n) && ViewRead(ViewWrite(v, a, b), c, n) == ViewRead(v, c, n)
  {
  }

  lemma CoversPart(v: View, a: nat, n: nat, b: nat, m: nat)
    requires Covers(v, a, n) && a <= b && b + m <= a + n
    ensures Covers(v, b, m)
  {
    forall k: nat | b <= k < b + m ensures k in v { assert a <= k < a + n; }
  }

  lemma SameCover(v: View, w: View, a: nat, n: nat)
    requires w.Keys == v.Keys && Covers(v, a, n)
    ensures Covers(w, a, n)
  {
  }

  lemma LaterLeafElsewhere(v: View, base: nat, t: DIType, bits: nat, l: Leaf, m: Leaf)
    requires Encodable(t, bits, l) && Encodable(t, bits, m)
    requires Written(t, bits, l) && Written(t, bits, m) ==> PlacesApart(t, l, m)
    requires HoldsLeaf(v, base, t, bits, l)
    ensures HoldsLeaf(WriteLeaf(v, base, t, bits, m), base, t, bits, l)
  {
    if Written(t, bits, l) && Written(t, bits, m) {
      ReadPastWrite(v, LeafAddr(base, t, m.path), EncodeLeaf(t, bits, m).bytes,
                    LeafAddr(base, t, l.path), |EncodeLeaf(t, bits, l).bytes|);
    }
  }

  lemma LeafHoldsNow(v: View, base: nat, t: DIType, bits: nat, l: Leaf)
    requires Encodable(t, bits, l) && Covers(v, base, Size(t))
    ensures HoldsLeaf(WriteLeaf(v, base, t, bits, l), base, t, bits, l)
  {
    if Written(t, bits, l) {
      CoversPart(v, base, Size(t), LeafAddr(base, t, l.path), |EncodeLeaf(t, bits, l).bytes|);
      ReadOwnWrite(v, LeafAddr(base, t, l.path), EncodeLeaf(t, bits, l).bytes);
    }
  }

  /** After an upload every written leaf is in memory: no later leaf overwrote it. */
  lemma {:induction false} UploadHolds(v: View, base: nat, t: DIType, bits: nat, ls: seq<Leaf>)
    requires Covers(v, base, Size(t)) && AllEncodable(t, bits, ls) && AllPlacesApart(t, bits, ls)
    ensures HoldsLeaves(WriteLeaves(v, base, t, bits, ls), base, t, bits, ls)
    decreases ls
  {
    if ls != [] {
      hide Encodable, Written, PlacesApart, HoldsLeaf, WriteLeaf, Covers;
      var front, last := ls[..|ls| - 1], ls[|ls| - 1];
      var w := WriteLeaves(v, base, t, bits, front);
      UploadHolds(v, base, t, bits, front);
      WritesKeepDomain(v, base, t, bits, front);
      SameCover(v, w, base, Size(t));
      assert Encodable(t, bits, last);
      LeafHoldsNow(w, base, t, bits, last);
      OneMoreHolds(w, base, t, bits, ls);
    }
  }

  lemma OneMoreHolds(w: View, base: nat, t: DIType, bits: nat, ls: seq<Leaf>)
    requires ls != [] && AllEncodable(t, bits, ls) && AllPlacesApart(t, bits, ls)
    requires HoldsLeaves(w, base, t, bits, ls[..|ls| - 1])
    requires HoldsLeaf(WriteLeaf(w, base, t, bits, ls[|ls| - 1]), base, t, bits, ls[|ls| - 1])
    ensures HoldsLeaves(WriteLeaf(w, base, t, bits, ls[|ls| - 1]), base, t, bits, ls)
  {
    hide Encodable, Written, PlacesApart, HoldsLeaf, WriteLeaf;
    var front, last := ls[..|ls| - 1], ls[|ls| - 1];
    forall i | 0 <= i < |front|
      ensures HoldsLeaf(WriteLeaf(w, base, t, bits, last), base, t, bits, ls[i])
    {
      assert front[i] == ls[i] && Encodable(t, bits, ls[i]);
      LaterLeafElsewhere(w, base, t, bits, ls[i], last);
    }
  }

  /** An object's bytes are safe from writes to other objects. */
  lemma HoldsFrame(v: View, w: View, base: nat, t: DIType, bits: nat, ls: seq<Leaf>)
    requires AllEncodable(t, bits, ls) && HoldsLeaves(v, base, t, bits, ls)
    requires forall k: nat | base <= k < base + Size(t) && k in v :: k in w && w[k] == v[k]
    ensures HoldsLeaves(w, base, t, bits, ls)
  {
    forall i | 0 <= i < |ls|
      ensures HoldsLeaf(w, base, t, bits, ls[i])
    {
      assert Encodable(t, bits, ls[i]) && HoldsLeaf(v, base, t, bits, ls[i]);
      LeafFrame(v, w, base, t, bits, ls[i]);
    }
  }

  lemma LeafFrame(v: View, w: View, base: nat, t: DIType, bits: nat, l: Leaf)
    requires Encodable(t, bits, l) && HoldsLeaf(v, base, t, bits, l)
    requires forall k: nat | base <= k < base + Size(t) && k in v :: k in w && w[k] == v[k]
    ensures HoldsLeaf(w, base, t, bits, l)
  {
    if Written(t, bits, l) {
      var a, bytes := LeafAddr(base, t, l.path), EncodeLeaf(t, bits, l).bytes;
      forall k: nat | a <= k < a + |bytes|
        ensures k in w && w[k] == v[k]
      {
        assert base <= k < base + Size(t) && k in v;
      }
      assert ViewRead(w, a, |bytes|) == ViewRead(v, a, |bytes|);
    }
  }
}
