// The theorem behind `put`'s assertion: an object held by memory, read into a fresh one,
// shows no difference unless one of its set leaves has no recorded size.
module RoundTrip {
  import opened Common
  import opened ByteMemory
  import opened DebugTypes
  import opened TypePaths
  import opened Spelling
  import opened Offsets
  import opened FlatView
  import opened PyValues
  import opened Primitives
  import opened Marshaller
  import opened Upload
  import opened Diff

  // ---- Reading back ----

  /** What the decoder makes of the bytes at the leaf's place. Nothing is read without a
      recorded size; `UnpackError` stands for an abort too. */
  ghost function ReadLeaf(v: View, base: nat, t: DIType, bits: nat, p: Path, before: PyValue): Unpacked
    requires ValidPath(t, p)
  {
    var a, n := LeafAddr(base, t, p), RecordedSize(t, p);
    if StopsAtElementRecord(t, p) then UnpackError
    else if n == 0 then Value(PyNone)
    else if Addressable(t, p) && Covers(v, a, n) then Decode(LeafKind(t, p), bits, ViewRead(v, a, n), before)
    else UnpackError
  }

  /** What get_struct makes of a leaf: a PTR object keeps its identity and gets a new
      address. `None` is an exception. */
  function Overwritten(before: PyValue, u: Unpacked): Option<PyValue> {
    match u
    case UnpackError => None
    case Value(x) =>
      if !before.PyPtr? then Some(x)
      else if x.PyInt? then Some(PyPtr(Some(x.n), before.cache))
      else if x.PyNone? then Some(PyPtr(None, before.cache))
      else None
  }

  /** The object `v` after get_struct has overwritten its leaves from memory. */
  ghost function ReadBack(w: View, base: nat, t: DIType, bits: nat, p: Path, v: PyValue): Option<PyValue>
    requires ValidPath(t, p) && Conforms(t, p, v)
    decreases v, 1, 0
  {
    if Container(v) then
      match ReadChildren(w, base, t, bits, p, v, Count(v))
      case None => None
      case Some(cs) => Some(WithChildren(v, cs))
    else if v.PyNone? then Some(PyNone)
    else Overwritten(v, ReadLeaf(w, base, t, bits, p, v))
  }

  ghost function ReadChildren(w: View, base: nat, t: DIType, bits: nat, p: Path, v: PyValue, n: nat)
      : (r: Option<seq<PyValue>>)
    requires ValidPath(t, p) && Container(v) && n <= Count(v) && Conforms(t, p, v)
    ensures r.Some? ==> |r.value| == n
    decreases v, 0, n
  {
    if n == 0 then Some([]) else
    match ReadChildren(w, base, t, bits, p, v, n - 1)
    case None => None
    case Some(front) =>
      match ReadBack(w, base, t, bits, ChildPath(t, p, v, n - 1), ChildValue(v, n - 1))
      case None => None
      case Some(c) => Some(front + [c])
  }

  // ---- When the round trip works ----

  predicate Unset(v: PyValue) {
    v.PyPtr? && v.ptr.None?
  }

  /** The leaf is found inside the object, is of a standard size and in range, or a pointer
      that is not set. */
  predicate Ready(t: DIType, bits: nat, l: Leaf) {
    && ValidPath(t, l.path) && Inside(t, l.path)
    && StandardSize(LeafKind(t, l.path), LeafSize(t, l.path), bits)
    && (l.value.PyPtr? ==> LeafKind(t, l.path) == KPtr)
    && (Unset(l.value) || InRange(LeafKind(t, l.path), LeafSize(t, l.path), bits, Payload(l.value)))
  }

  ghost predicate AllReady(t: DIType, bits: nat, ls: seq<Leaf>) {
    forall i | 0 <= i < |ls| :: Ready(t, bits, ls[i])
  }

  /** A fitting value to compare a leaf's encoding against. */
  function Template(v: PyValue): PyValue {
    if v.PyStr? then v else PyInt(0)
  }

  lemma ReadyIsEncodable(t: DIType, bits: nat, l: Leaf)
    requires Ready(t, bits, l)
    ensures Encodable(t, bits, l)
    ensures Written(t, bits, l) <==> !Unset(l.value)
    ensures Written(t, bits, l) && (l.value.PyPtr? || RecordedSize(t, l.path) == LeafSize(t, l.path)) ==>
              |EncodeLeaf(t, bits, l).bytes| == LeafSize(t, l.path)
  {
    hide Decode, Inside, Le, Pow256;
    if !Unset(l.value) {
      PrimitiveRoundTrip(LeafKind(t, l.path), LeafSize(t, l.path), bits, Payload(l.value), Template(Payload(l.value)));
    }
  }

  lemma AllReadyEncodable(t: DIType, bits: nat, ls: seq<Leaf>)
    requires AllReady(t, bits, ls)
    ensures AllEncodable(t, bits, ls)
  {
    forall i | 0 <= i < |ls|
      ensures Encodable(t, bits, ls[i])
    {
      ReadyIsEncodable(t, bits, ls[i]);
    }
  }

  lemma LeafInside(w: View, base: nat, t: DIType, p: Path)
    requires ValidPath(t, p) && Inside(t, p) && Covers(w, base, Size(t))
    ensures Covers(w, LeafAddr(base, t, p), LeafSize(t, p))
  {
    CoversPart(w, base, Size(t), LeafAddr(base, t, p), LeafSize(t, p));
  }

  /** The leaf comes back: the resolver knows its size, or it is a pointer, which the
      comparison passes over when it reads as not set. */
  predicate ComesBack(t: DIType, l: Leaf) {
    ValidPath(t, l.path) && EndsAtTypedefElement(t, l.path) ==> l.value.PyPtr?
  }

  ghost predicate AllComeBack(t: DIType, ls: seq<Leaf>) {
    forall i | 0 <= i < |ls| :: ComesBack(t, ls[i])
  }

  /** A leaf memory holds reads back without a mismatch exactly if it comes back; without
      a recorded size it reads as None, and is reported. */
  lemma LeafBack(w: View, base: nat, t: DIType, bits: nat, l: Leaf, before: PyValue, path: seq<string>)
    requires Ready(t, bits, l) && HoldsLeaf(w, base, t, bits, l) && Covers(w, base, Size(t))
    requires !Container(l.value) && !l.value.PyNone? && Like(l.value, before)
    ensures Overwritten(before, ReadLeaf(w, base, t, bits, l.path, before)).Some?
    ensures Mismatches(l.value, Overwritten(before, ReadLeaf(w, base, t, bits, l.path, before)).value, path) ==
            Some(if ComesBack(t, l) then [] else [path])
  {
    hide Covers, HoldsLeaf, EndsAtTypedefElement, InRange, StandardSize, LeafAddr;
    if EndsAtTypedefElement(t, l.path) {
      assert ReadLeaf(w, base, t, bits, l.path, before) == Value(PyNone);
    } else {
      SizedLeafBack(w, base, t, bits, l, before, path);
    }
  }

  lemma SizedRead(w: View, base: nat, t: DIType, bits: nat, l: Leaf, before: PyValue)
    requires Ready(t, bits, l) && Covers(w, base, Size(t)) && RecordedSize(t, l.path) == LeafSize(t, l.path)
    ensures Covers(w, LeafAddr(base, t, l.path), LeafSize(t, l.path))
    ensures ReadLeaf(w, base, t, bits, l.path, before) ==
            Decode(LeafKind(t, l.path), bits, ViewRead(w, LeafAddr(base, t, l.path), LeafSize(t, l.path)), before)
  {
    hide LeafKind, LeafSize, RecordedSize, LeafAddr, Covers, ViewRead, InRange;
    LeafInside(w, base, t, l.path);
  }

  lemma SizedLeafBack(w: View, base: nat, t: DIType, bits: nat, l: Leaf, before: PyValue, path: seq<string>)
    requires Ready(t, bits, l) && HoldsLeaf(w, base, t, bits, l) && Covers(w, base, Size(t))
    requires !Container(l.value) && !l.value.PyNone? && Like(l.value, before)
    requires RecordedSize(t, l.path) == LeafSize(t, l.path)
    ensures Overwritten(before, ReadLeaf(w, base, t, bits, l.path, before)).Some?
    ensures Mismatches(l.value, Overwritten(before, ReadLeaf(w, base, t, bits, l.path, before)).value, path) == Some([])
  {
    hide LeafKind, LeafSize, RecordedSize, LeafAddr, Covers, Le, FromLe, StripNuls, Inside;
    SizedRead(w, base, t, bits, l, before);
    hide ReadLeaf;
    ReadyIsEncodable(t, bits, l);
    if !Unset(l.value) {
      PrimitiveRoundTrip(LeafKind(t, l.path), LeafSize(t, l.path), bits, Payload(l.value), before);
    }
  }

  // ---- The reports of the children ----

  /** The report for the first children of `v` against `cs`. */
  function ChildReports(v: PyValue, cs: seq<PyValue>, path: seq<string>): Report
    requires Container(v) && |cs| <= Count(v)
  {
    if cs == [] then Some([]) else
    var k := |cs| - 1;
    Joined(ChildReports(v, cs[..k], path), Mismatches(ChildValue(v, k), cs[k], path + [ChildName(v, k)]))
  }

  lemma {:induction false} ChildrenReported(v: PyValue, y: PyValue, cs: seq<PyValue>, path: seq<string>, n: nat)
    requires Container(v) && Container(y) && y.PyObject? == v.PyObject? && Count(y) == Count(v) == |cs| && n <= |cs|
    requires DistinctNames(v)
    requires forall k | 0 <= k < Count(v) :: ChildName(y, k) == ChildName(v, k) && ChildValue(y, k) == cs[k]
    ensures ChildMismatches(v, y, path, n) == ChildReports(v, cs[..n], path)
    decreases n
  {
    if n > 0 {
      ChildrenReported(v, y, cs, path, n - 1);
      CounterpartAt(v, y, n - 1);
      assert cs[..n][..n - 1] == cs[..n - 1];
    }
  }

  lemma ContainerReport(v: PyValue, fresh': PyValue, cs: seq<PyValue>, path: seq<string>)
    requires Container(v) && DistinctNames(v) && Like(v, fresh') && |cs| == Count(v)
    ensures Mismatches(v, WithChildren(fresh', cs), path) == ChildReports(v, cs, path)
  {
    hide ChildReports, ChildMismatches;
    var y := WithChildren(fresh', cs);
    SameChildren(v, fresh', cs);
    ChildrenReported(v, y, cs, path, Count(v));
    assert cs[..Count(v)] == cs;
  }

  lemma SameChildren(v: PyValue, fresh': PyValue, cs: seq<PyValue>)
    requires Container(v) && Like(v, fresh') && |cs| == Count(v)
    ensures Container(fresh') && |cs| == Count(fresh')
    ensures var y := WithChildren(fresh', cs);
            && Count(y) == Count(v) && y.PyObject? == v.PyObject?
            && forall k | 0 <= k < Count(v) :: ChildName(y, k) == ChildName(v, k) && ChildValue(y, k) == cs[k]
  {
  }

  /** A comparison that comes to an end, and finds nothing exactly if all is well. */
  predicate Compared(r: Report, well: bool) {
    r.Some? && (r == Some([]) <==> well)
  }

  lemma OneMoreReport(v: PyValue, cs: seq<PyValue>, c: PyValue, path: seq<string>, front: bool, last: bool)
    requires Container(v) && |cs| < Count(v) && Compared(ChildReports(v, cs, path), front)
    requires Compared(Mismatches(ChildValue(v, |cs|), c, path + [ChildName(v, |cs|)]), last)
    ensures Compared(ChildReports(v, cs + [c], path), front && last)
  {
    hide Mismatches;
    assert (cs + [c])[..|cs|] == cs;
    JoinedEmpty(ChildReports(v, cs, path), Mismatches(ChildValue(v, |cs|), c, path + [ChildName(v, |cs|)]));
  }

  lemma CounterpartAt(v: PyValue, y: PyValue, k: nat)
    requires Container(v) && Container(y) && y.PyObject? == v.PyObject? && Count(y) == Count(v) && k < Count(v)
    requires DistinctNames(v) && forall k | 0 <= k < Count(v) :: ChildName(y, k) == ChildName(v, k)
    ensures Counterpart(v, y, k) == Some(ChildValue(y, k))
  {
    if v.PyObject? {
      forall i, j | 0 <= i < j < |y.fields|
        ensures y.fields[i].name != y.fields[j].name
      {
        assert ChildName(y, i) == ChildName(v, i) && ChildName(y, j) == ChildName(v, j);
      }
      AttributeAt(y.fields, k);
      assert ChildName(y, k) == ChildName(v, k);
    }
  }

  /** If memory holds every leaf of `v`, an object of the same shape that is read from it
      shows no mismatch with `v` exactly if every leaf comes back. */
  lemma {:induction false} HeldReadsBack(w: View, base: nat, t: DIType, bits: nat, p: Path, v: PyValue,
                                         fresh': PyValue, path: seq<string>)
    requires WellFormed(t) && ValidPath(t, p) && Conforms(t, p, v) && Conforms(t, p, fresh') && Like(v, fresh')
    requires AllReady(t, bits, Leaves(t, p, v)) && HoldsLeaves(w, base, t, bits, Leaves(t, p, v))
    requires Covers(w, base, Size(t))
    ensures ReadBack(w, base, t, bits, p, fresh').Some?
    ensures Compared(Mismatches(v, ReadBack(w, base, t, bits, p, fresh').value, path), AllComeBack(t, Leaves(t, p, v)))
    decreases v, 1, 0
  {
    if Container(v) {
      hide ReadChildren, ChildLeaves, Covers, LeafOk, AllComeBack, Compared, ChildReports, Mismatches, AllReady,
           HoldsLeaves, ChildSteps;
      assert Leaves(t, p, v) == ChildLeaves(t, p, v, Count(v));
      hide Leaves, ReadBack;
      HeldChildrenReadBack(w, base, t, bits, p, v, fresh', path, Count(v));
      ReadContainer(w, base, t, bits, p, fresh');
      ContainerReport(v, fresh', ReadChildren(w, base, t, bits, p, fresh', Count(v)).value, path);
    } else {
      ValueBack(w, base, t, bits, p, v, fresh', path);
    }
  }

  lemma ReadContainer(w: View, base: nat, t: DIType, bits: nat, p: Path, v: PyValue)
    requires ValidPath(t, p) && Conforms(t, p, v) && Container(v)
    requires ReadChildren(w, base, t, bits, p, v, Count(v)).Some?
    ensures ReadBack(w, base, t, bits, p, v) ==
            Some(WithChildren(v, ReadChildren(w, base, t, bits, p, v, Count(v)).value))
  {
    hide ReadChildren;
  }

  lemma ValueBack(w: View, base: nat, t: DIType, bits: nat, p: Path, v: PyValue, fresh': PyValue, path: seq<string>)
    requires ValidPath(t, p) && Conforms(t, p, v) && Conforms(t, p, fresh') && Like(v, fresh') && !Container(v)
    requires AllReady(t, bits, Leaves(t, p, v)) && HoldsLeaves(w, base, t, bits, Leaves(t, p, v))
    requires Covers(w, base, Size(t))
    ensures ReadBack(w, base, t, bits, p, fresh').Some?
    ensures Compared(Mismatches(v, ReadBack(w, base, t, bits, p, fresh').value, path), AllComeBack(t, Leaves(t, p, v)))
  {
    hide ReadLeaf, ComesBack, Covers, LeafOk, HoldsLeaf, Ready, ReadChildren, ChildLeaves;
    if !v.PyNone? {
      var l := Leaf(p, v);
      assert Leaves(t, p, v)[0] == l;
      LeafBack(w, base, t, bits, l, fresh', path);
      assert AllComeBack(t, [l]) <==> ComesBack(t, [l][0]);
    }
  }

  lemma {:induction false} HeldChildrenReadBack(w: View, base: nat, t: DIType, bits: nat, p: Path, v: PyValue,
                                                fresh': PyValue, path: seq<string>, n: nat)
    requires WellFormed(t) && ValidPath(t, p) && Container(v) && n <= Count(v)
    requires Conforms(t, p, v) && Conforms(t, p, fresh') && Like(v, fresh')
    requires AllReady(t, bits, ChildLeaves(t, p, v, n)) && HoldsLeaves(w, base, t, bits, ChildLeaves(t, p, v, n))
    requires Covers(w, base, Size(t))
    ensures ReadChildren(w, base, t, bits, p, fresh', n).Some?
    ensures Compared(ChildReports(v, ReadChildren(w, base, t, bits, p, fresh', n).value, path),
                     AllComeBack(t, ChildLeaves(t, p, v, n)))
    decreases v, 0, n
  {
    if n > 0 {
      hide Leaves, Mismatches, AllReady, HoldsLeaves, Covers, ReadBack, LeafOk, ReadChildren, Compared,
           ChildReports, AllComeBack, ChildSteps, ChildLeaves;
      var k := n - 1;
      LastChildLeaves(t, p, v, n);
      SplitReady(w, base, t, bits, ChildLeaves(t, p, v, k), Leaves(t, ChildPath(t, p, v, k), ChildValue(v, k)));
      HeldChildrenReadBack(w, base, t, bits, p, v, fresh', path, k);
      ChildBack(w, base, t, bits, p, v, fresh', path, k);
      OneMoreHeld(w, base, t, bits, p, v, fresh', path, k);
    }
  }

  lemma OneMoreHeld(w: View, base: nat, t: DIType, bits: nat, p: Path, v: PyValue,
                    fresh': PyValue, path: seq<string>, k: nat)
    requires ValidPath(t, p) && Container(v) && k < Count(v)
    requires Conforms(t, p, v) && Conforms(t, p, fresh') && Like(v, fresh')
    requires ReadChildren(w, base, t, bits, p, fresh', k).Some?
    requires Compared(ChildReports(v, ReadChildren(w, base, t, bits, p, fresh', k).value, path),
                      AllComeBack(t, ChildLeaves(t, p, v, k)))
    requires var r := ReadBack(w, base, t, bits, ChildPath(t, p, fresh', k), ChildValue(fresh', k));
             && r.Some?
             && Compared(Mismatches(ChildValue(v, k), r.value, path + [ChildName(v, k)]),
                         AllComeBack(t, Leaves(t, ChildPath(t, p, v, k), ChildValue(v, k))))
    ensures ReadChildren(w, base, t, bits, p, fresh', k + 1).Some?
    ensures Compared(ChildReports(v, ReadChildren(w, base, t, bits, p, fresh', k + 1).value, path),
                     AllComeBack(t, ChildLeaves(t, p, v, k + 1)))
  {
    hide Leaves, Mismatches, ReadBack, LeafOk, ReadChildren, Compared, ChildReports, AllComeBack, ChildSteps,
         ChildLeaves;
    var front, last := ChildLeaves(t, p, v, k), Leaves(t, ChildPath(t, p, v, k), ChildValue(v, k));
    LastChildLeaves(t, p, v, k + 1);
    ComeBackParts(t, front, last);
    OneMoreRead(w, base, t, bits, p, fresh', k);
    OneMoreReport(v, ReadChildren(w, base, t, bits, p, fresh', k).value,
                  ReadBack(w, base, t, bits, ChildPath(t, p, fresh', k), ChildValue(fresh', k)).value, path,
                  AllComeBack(t, front), AllComeBack(t, last));
  }

  lemma ComeBackParts(t: DIType, a: seq<Leaf>, b: seq<Leaf>)
    ensures AllComeBack(t, a + b) <==> AllComeBack(t, a) && AllComeBack(t, b)
  {
    hide ComesBack;
    assert forall i | 0 <= i < |a| :: (a + b)[i] == a[i];
    assert forall i | 0 <= i < |b| :: (a + b)[|a| + i] == b[i];
  }

  lemma OneMoreRead(w: View, base: nat, t: DIType, bits: nat, p: Path, v: PyValue, k: nat)
    requires ValidPath(t, p) && Container(v) && k < Count(v) && Conforms(t, p, v)
    requires ReadChildren(w, base, t, bits, p, v, k).Some?
    requires ReadBack(w, base, t, bits, ChildPath(t, p, v, k), ChildValue(v, k)).Some?
    ensures ReadChildren(w, base, t, bits, p, v, k + 1) ==
            var c := ReadBack(w, base, t, bits, ChildPath(t, p, v, k), ChildValue(v, k));
            Some(ReadChildren(w, base, t, bits, p, v, k).value + [c.value])
  {
    hide ReadBack, LeafOk, ChildSteps;
  }

  lemma ChildBack(w: View, base: nat, t: DIType, bits: nat, p: Path, v: PyValue, fresh': PyValue,
                  path: seq<string>, k: nat)
    requires WellFormed(t) && ValidPath(t, p) && Container(v) && k < Count(v)
    requires Conforms(t, p, v) && Conforms(t, p, fresh') && Like(v, fresh')
    requires var ls := Leaves(t, ChildPath(t, p, v, k), ChildValue(v, k));
             AllReady(t, bits, ls) && HoldsLeaves(w, base, t, bits, ls)
    requires Covers(w, base, Size(t))
    ensures var r := ReadBack(w, base, t, bits, ChildPath(t, p, fresh', k), ChildValue(fresh', k));
            && r.Some?
            && Compared(Mismatches(ChildValue(v, k), r.value, path + [ChildName(v, k)]),
                        AllComeBack(t, Leaves(t, ChildPath(t, p, v, k), ChildValue(v, k))))
    decreases v, 0, k
  {
    hide AllComeBack, Compared;
    assert ChildName(v, k) == ChildName(fresh', k);
    assert ChildPath(t, p, fresh', k) == ChildPath(t, p, v, k);
    ChildSpelling(t, p, v, k);
    HeldReadsBack(w, base, t, bits, ChildPath(t, p, v, k), ChildValue(v, k), ChildValue(fresh', k),
                  path + [ChildName(v, k)]);
  }

  lemma SplitReady(w: View, base: nat, t: DIType, bits: nat, a: seq<Leaf>, b: seq<Leaf>)
    requires AllReady(t, bits, a + b) && HoldsLeaves(w, base, t, bits, a + b)
    ensures AllReady(t, bits, a) && HoldsLeaves(w, base, t, bits, a)
    ensures AllReady(t, bits, b) && HoldsLeaves(w, base, t, bits, b)
  {
    forall i | 0 <= i < |a|
      ensures Ready(t, bits, a[i]) && HoldsLeaf(w, base, t, bits, a[i])
    {
      assert (a + b)[i] == a[i];
    }
    forall i | 0 <= i < |b|
      ensures Ready(t, bits, b[i]) && HoldsLeaf(w, base, t, bits, b[i])
    {
      assert (a + b)[|a| + i] == b[i];
    }
  }
}
