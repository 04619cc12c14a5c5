// Member paths inside a C type, written as member positions and array indices, and
// the byte ranges they denote. Names play no part here: an anonymous member is a
// step like any other, and a union member keeps its own position.
module TypePaths {
  import opened Common
  import opened DebugTypes

  type Path = seq<nat>

  predicate HasChild(t: DIType, i: nat) {
    match Strip(t)
    case Struct(ms) => i < |ms|
    case Union(ms) => i < |ms|
    case Array(_, n) => i < n
    case _ => false
  }

  function Child(t: DIType, i: nat): DIType
    requires HasChild(t, i)
  {
    match Strip(t)
    case Struct(ms) => ms[i].ty
    case Union(ms) => ms[i].ty
    case Array(e, _) => e
  }

  function ChildOffset(t: DIType, i: nat): nat
    requires HasChild(t, i)
  {
    match Strip(t)
    case Struct(ms) => FieldOffset(ms, i)
    case Union(_) => 0
    case Array(e, _) => i * Size(e)
  }

  predicate ValidPath(t: DIType, p: Path)
    decreases p
  {
    p == [] || (HasChild(t, p[0]) && ValidPath(Child(t, p[0]), p[1..]))
  }

  function TypeAt(t: DIType, p: Path): DIType
    requires ValidPath(t, p)
    decreases p
  {
    if p == [] then t else TypeAt(Child(t, p[0]), p[1..])
  }

  /** The C offset of a path: the sum of `offsetof` and index contributions. */
  function OffsetOf(t: DIType, p: Path): nat
    requires ValidPath(t, p)
    decreases p
  {
    if p == [] then 0 else ChildOffset(t, p[0]) + OffsetOf(Child(t, p[0]), p[1..])
  }

  /** Where two paths part company, they part inside a union. */
  predicate SplitAtUnion(t: DIType, p: Path, q: Path)
    requires ValidPath(t, p) && ValidPath(t, q)
    decreases p
  {
    p != [] && q != [] &&
    if p[0] != q[0] then Strip(t).Union?
    else SplitAtUnion(Child(t, p[0]), p[1..], q[1..])
  }

  lemma {:induction false} StripFacts(t: DIType)
    ensures Size(Strip(t)) == Size(t) && Align(Strip(t)) == Align(t)
    ensures WellFormed(t) ==> WellFormed(Strip(t))
  {
    if t.Typedef? { StripFacts(t.base); }
  }

  lemma ChildWellFormed(t: DIType, i: nat)
    requires WellFormed(t) && HasChild(t, i)
    ensures WellFormed(Child(t, i))
  {
    StripFacts(t);
    var s := Strip(t);
    if s.Record() { WellFormedMember(s.members, 0, i); }
  }

  lemma {:induction false} TypeAtWellFormed(t: DIType, p: Path)
    requires WellFormed(t) && ValidPath(t, p)
    ensures WellFormed(TypeAt(t, p))
    decreases p
  {
    if p != [] {
      ChildWellFormed(t, p[0]);
      TypeAtWellFormed(Child(t, p[0]), p[1..]);
    }
  }

  // ---- Concatenation ----

  /** Paths compose: offsets add up, whatever the steps are. In particular the member
      of an anonymous record sits at the record's offset plus its own. */
  lemma {:induction false} PathsCompose(t: DIType, p: Path, q: Path)
    requires ValidPath(t, p)
    ensures ValidPath(t, p + q) <==> ValidPath(TypeAt(t, p), q)
    ensures ValidPath(t, p + q) ==>
              && TypeAt(t, p + q) == TypeAt(TypeAt(t, p), q)
              && OffsetOf(t, p + q) == OffsetOf(t, p) + OffsetOf(TypeAt(t, p), q)
    decreases p
  {
    if p == [] {
      assert p + q == q;
    } else {
      assert (p + q)[1..] == p[1..] + q;
      PathsCompose(Child(t, p[0]), p[1..], q);
    }
  }

  // ---- Byte ranges ----

  lemma ChildInBounds(t: DIType, i: nat)
    requires HasChild(t, i)
    ensures ChildOffset(t, i) + Size(Child(t, i)) <= Size(t)
  {
    hide Size, FieldOffset;
    StripFacts(t);
    match Strip(t)
    case Struct(ms) => FieldInBounds(ms, i);
    case Union(ms) => MemberInBounds(ms, i);
    case Array(e, n) => ElementInBounds(e, n, i);
  }

  /** A path never leaves the object it starts in. */
  lemma {:induction false} PathInBounds(t: DIType, p: Path)
    requires ValidPath(t, p)
    ensures OffsetOf(t, p) + Size(TypeAt(t, p)) <= Size(t)
    decreases p
  {
    if p != [] {
      ChildInBounds(t, p[0]);
      PathInBounds(Child(t, p[0]), p[1..]);
    }
  }

  lemma SiblingsOrdered(t: DIType, i: nat, j: nat)
    requires HasChild(t, i) && HasChild(t, j) && i < j
    requires !Strip(t).Union?
    ensures ChildOffset(t, i) + Size(Child(t, i)) <= ChildOffset(t, j)
  {
    hide Size, FieldOffset;
    match Strip(t)
    case Struct(ms) => FieldsOrdered(ms, i, j);
    case Array(e, _) => MulMonotone(i + 1, j, Size(e));
  }

  /** Extending a path narrows the byte range. */
  lemma ExtensionNests(t: DIType, p: Path, q: Path)
    requires ValidPath(t, p) && ValidPath(t, q) && p <= q
    ensures OffsetOf(t, p) <= OffsetOf(t, q)
    ensures OffsetOf(t, q) + Size(TypeAt(t, q)) <= OffsetOf(t, p) + Size(TypeAt(t, p))
  {
    assert q == p + q[|p|..];
    PathsCompose(t, p, q[|p|..]);
    PathInBounds(TypeAt(t, p), q[|p|..]);
  }

  /** Two byte ranges of one object are disjoint unless one path extends the other or
      the paths separate at a union. */
  lemma {:induction false} RangesSeparate(t: DIType, p: Path, q: Path)
    requires ValidPath(t, p) && ValidPath(t, q)
    ensures p <= q || q <= p || SplitAtUnion(t, p, q) ||
            Disjoint(OffsetOf(t, p), Size(TypeAt(t, p)), OffsetOf(t, q), Size(TypeAt(t, q)))
    decreases p
  {
    if p != [] && q != [] {
      if p[0] == q[0] {
        RangesSeparate(Child(t, p[0]), p[1..], q[1..]);
        assert p[1..] <= q[1..] ==> p <= q;
        assert q[1..] <= p[1..] ==> q <= p;
      } else if !Strip(t).Union? {
        PathInBounds(Child(t, p[0]), p[1..]);
        PathInBounds(Child(t, q[0]), q[1..]);
        if p[0] < q[0] {
          SiblingsOrdered(t, p[0], q[0]);
        } else {
          SiblingsOrdered(t, q[0], p[0]);
        }
      }
    }
  }

  /** Members of one union start at the same byte. */
  lemma UnionSiblingsAlias(t: DIType, p: Path, i: nat, j: nat)
    requires ValidPath(t, p + [i]) && ValidPath(t, p + [j]) && ValidPath(t, p)
    requires Strip(TypeAt(t, p)).Union?
    ensures OffsetOf(t, p + [i]) == OffsetOf(t, p + [j]) == OffsetOf(t, p)
  {
    PathsCompose(t, p, [i]);
    PathsCompose(t, p, [j]);
  }
}
