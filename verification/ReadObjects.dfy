// What reading an object from memory leaves for later uploads: when the object read can
// be uploaded again, and when memory already holds it.
module ReadObjects {
  import opened Common
  import opened DebugTypes
  import opened TypePaths
  import opened ByteMemory
  import opened FlatView
  import opened Spelling
  import opened PyValues
  import opened Primitives
  import opened Marshaller
  import opened Upload
  import opened Diff
  import opened RoundTrip
  import opened Marshalling
  import opened ObjectGraph
  import opened UploadPlan
  import opened ProxyWorld
  import opened ProxySteps

  // ---- One leaf ----

  /** A leaf that is read in full: found inside the object, of a standard and recorded
      size, over a value of the type its field is read as. */
  predicate Readable(t: DIType, bits: nat, l: Leaf) {
    && ValidPath(t, l.path) && Inside(t, l.path) && !EndsAtTypedefElement(t, l.path)
    && StandardSize(LeafKind(t, l.path), LeafSize(t, l.path), bits)
    && Suits(LeafKind(t, l.path), l.value)
  }

  ghost predicate AllReadable(t: DIType, bits: nat, ls: seq<Leaf>) {
    forall i | 0 <= i < |ls| :: Readable(t, bits, ls[i])
  }

  /** The bytes at the leaf's place come back from Python. */
  ghost predicate CanonicalAt(w: View, base: nat, t: DIType, bits: nat, l: Leaf) {
    && ValidPath(t, l.path) && LeafSize(t, l.path) > 0
    && Covers(w, LeafAddr(base, t, l.path), LeafSize(t, l.path))
    && Canonical(LeafKind(t, l.path), bits, ViewRead(w, LeafAddr(base, t, l.path), LeafSize(t, l.path)))
  }

  ghost predicate IsBool(t: DIType, l: Leaf) {
    ValidPath(t, l.path) && LeafKind(t, l.path) == KBool
  }

  /** The leaf after it has been read. */
  ghost predicate LeafRead(w: View, base: nat, t: DIType, bits: nat, l: Leaf, r: Leaf) {
    && r.path == l.path && ValidPath(t, l.path)
    && Overwritten(l.value, ReadLeaf(w, base, t, bits, l.path, l.value)) == Some(r.value)
  }

  /** What reading makes of a leaf's value, the type included. */
  predicate SameSort(x: PyValue, y: PyValue) {
    && (x.PyPtr? <==> y.PyPtr?)
    && (x.PyPtr? ==> y.ptr.Some? && y.cache == x.cache)
    && (IsInt(x) ==> IsInt(y))
    && (x.PyStr? ==> y.PyStr? || y.PyBytes?)
  }

  /** A leaf that was read is ready for writing and held by memory exactly if its bytes
      are canonical; it is ready exactly then, or if it is a boolean. */
  lemma LeafAfterReading(w: View, base: nat, t: DIType, bits: nat, l: Leaf)
    requires Readable(t, bits, l) && Covers(w, base, Size(t))
    ensures var x := Overwritten(l.value, ReadLeaf(w, base, t, bits, l.path, l.value));
            && x.Some? && SameSort(l.value, x.value) && !x.value.PyNone? && !Container(x.value)
            && var r := Leaf(l.path, x.value);
            && (Ready(t, bits, r) <==> CanonicalAt(w, base, t, bits, l) || IsBool(t, l))
            && (Ready(t, bits, r) && HoldsLeaf(w, base, t, bits, r) <==> CanonicalAt(w, base, t, bits, l))
            && ComesBack(t, r)
  {
    hide LeafKind, LeafSize, LeafAddr, Covers, ViewRead, Encode, Decode, Canonical, InRange, Inside, StandardSize,
         StopsAtElementRecord, ReadLeaf, HoldsLeaf;
    ReadInFull(w, base, t, bits, l);
    var kind, n := LeafKind(t, l.path), LeafSize(t, l.path);
    var b := ViewRead(w, LeafAddr(base, t, l.path), n);
    BytesRoundTrip(kind, n, bits, b, l.value);
    var r := Leaf(l.path, Overwritten(l.value, ReadLeaf(w, base, t, bits, l.path, l.value)).value);
    if Ready(t, bits, r) { HeldIfEncoded(w, base, t, bits, r, b); }
  }

  /** Memory holds a ready leaf exactly if the bytes at its place are its encoding. */
  lemma HeldIfEncoded(w: View, base: nat, t: DIType, bits: nat, r: Leaf, b: Bytes)
    requires Ready(t, bits, r) && !Unset(r.value) && RecordedSize(t, r.path) == LeafSize(t, r.path)
    requires Covers(w, LeafAddr(base, t, r.path), LeafSize(t, r.path))
    requires b == ViewRead(w, LeafAddr(base, t, r.path), LeafSize(t, r.path))
    ensures HoldsLeaf(w, base, t, bits, r) <==>
            Encode(LeafKind(t, r.path), LeafSize(t, r.path), bits, Payload(r.value)) == Write(b)
  {
    hide Ready, LeafKind, LeafSize, LeafAddr, Covers, ViewRead, Encode;
    ReadyIsEncodable(t, bits, r);
  }

  lemma ReadInFull(w: View, base: nat, t: DIType, bits: nat, l: Leaf)
    requires Readable(t, bits, l) && Covers(w, base, Size(t))
    ensures Covers(w, LeafAddr(base, t, l.path), LeafSize(t, l.path)) && LeafSize(t, l.path) > 0
    ensures |ViewRead(w, LeafAddr(base, t, l.path), LeafSize(t, l.path))| == LeafSize(t, l.path)
    ensures !StopsAtElementRecord(t, l.path) && RecordedSize(t, l.path) == LeafSize(t, l.path)
    ensures ReadLeaf(w, base, t, bits, l.path, l.value) ==
            Decode(LeafKind(t, l.path), bits, ViewRead(w, LeafAddr(base, t, l.path), LeafSize(t, l.path)), l.value)
  {
    hide LeafKind, LeafAddr, Covers;
    LeafInside(w, base, t, l.path);
  }

  // ---- A whole object ----

  /** What reading makes of an object: the same fields and items, and of each leaf a value
      of its sort. */
  predicate ReadOver(x: PyValue, y: PyValue)
    decreases x
  {
    if Container(x) then
      && Container(y) && y.PyObject? == x.PyObject? && Count(y) == Count(x)
      && forall k | 0 <= k < Count(x) ::
           ChildName(y, k) == ChildName(x, k) && ReadOver(ChildValue(x, k), ChildValue(y, k))
    else if x.PyNone? then y.PyNone?
    else !Container(y) && !y.PyNone? && SameSort(x, y)
  }

  lemma ReadableParts(t: DIType, bits: nat, a: seq<Leaf>, b: seq<Leaf>)
    requires AllReadable(t, bits, a + b)
    ensures AllReadable(t, bits, a) && AllReadable(t, bits, b)
  {
    hide Readable;
    assert forall i | 0 <= i < |a| :: a[i] == (a + b)[i];
    assert forall i | 0 <= i < |b| :: b[i] == (a + b)[|a| + i];
  }

  lemma {:induction false} ObjectAfterReading(w: View, base: nat, t: DIType, bits: nat, p: Path, v: PyValue)
    requires ValidPath(t, p) && Conforms(t, p, v) && AllReadable(t, bits, Leaves(t, p, v)) && Covers(w, base, Size(t))
    ensures ReadBack(w, base, t, bits, p, v).Some?
    ensures ReadOver(v, ReadBack(w, base, t, bits, p, v).value)
    decreases v, 1, 0
  {
    hide Readable, Covers, LeafOk, ReadLeaf, ChildLeaves, ChildSteps, AllReadable, Overwritten;
    if Container(v) {
      ChildrenAfterReading(w, base, t, bits, p, v, Count(v));
    } else if !v.PyNone? {
      OneReadable(t, bits, Leaf(p, v));
      LeafAfterReading(w, base, t, bits, Leaf(p, v));
    }
  }

  lemma OneReadable(t: DIType, bits: nat, l: Leaf)
    requires AllReadable(t, bits, [l])
    ensures Readable(t, bits, l)
  {
    assert [l][0] == l;
  }

  lemma {:induction false} ChildrenAfterReading(w: View, base: nat, t: DIType, bits: nat, p: Path, v: PyValue, n: nat)
    requires ValidPath(t, p) && Container(v) && n <= Count(v) && Conforms(t, p, v)
    requires AllReadable(t, bits, ChildLeaves(t, p, v, n)) && Covers(w, base, Size(t))
    ensures ReadChildren(w, base, t, bits, p, v, n).Some?
    ensures AllOver(v, ReadChildren(w, base, t, bits, p, v, n).value)
    decreases v, 0, n
  {
    hide Covers, LeafOk, ReadBack, ReadChildren, ChildSteps, AllReadable, ReadOver, Leaves, ChildLeaves, AllOver;
    if n == 0 {
      NothingReadYet(w, base, t, bits, p, v);
    } else {
      var k := n - 1;
      LastChildLeaves(t, p, v, n);
      ReadableParts(t, bits, ChildLeaves(t, p, v, k), Leaves(t, ChildPath(t, p, v, k), ChildValue(v, k)));
      ChildrenAfterReading(w, base, t, bits, p, v, k);
      ObjectAfterReading(w, base, t, bits, ChildPath(t, p, v, k), ChildValue(v, k));
      OneMoreRead(w, base, t, bits, p, v, k);
      OneMoreOver(v, ReadChildren(w, base, t, bits, p, v, k).value,
                  ReadBack(w, base, t, bits, ChildPath(t, p, v, k), ChildValue(v, k)).value);
    }
  }

  lemma NothingReadYet(w: View, base: nat, t: DIType, bits: nat, p: Path, v: PyValue)
    requires ValidPath(t, p) && Container(v) && Conforms(t, p, v)
    ensures ReadChildren(w, base, t, bits, p, v, 0) == Some([]) && AllOver(v, [])
  {
  }

  ghost predicate AllOver(v: PyValue, cs: seq<PyValue>)
    requires Container(v)
  {
    |cs| <= Count(v) && forall k | 0 <= k < |cs| :: ReadOver(ChildValue(v, k), cs[k])
  }

  lemma OneMoreOver(v: PyValue, cs: seq<PyValue>, c: PyValue)
    requires Container(v) && AllOver(v, cs) && |cs| < Count(v) && ReadOver(ChildValue(v, |cs|), c)
    ensures AllOver(v, cs + [c])
  {
    hide ReadOver;
  }

  lemma {:induction false} ReadOverConforms(t: DIType, p: Path, v: PyValue, r: PyValue)
    requires ValidPath(t, p) && Conforms(t, p, v) && ReadOver(v, r)
    ensures Conforms(t, p, r)
    decreases v
  {
    hide LeafOk;
    if Container(v) {
      NamesStayDistinct(v, r);
      forall k | 0 <= k < Count(r)
        ensures var q := ChildSteps(TypeAt(t, p), r, k);
                q.Some? && ValidPath(t, p + q.value) && Conforms(t, p + q.value, ChildValue(r, k))
      {
        StepsStay(TypeAt(t, p), v, r, k);
        ReadOverConforms(t, p + ChildSteps(TypeAt(t, p), v, k).value, ChildValue(v, k), ChildValue(r, k));
      }
    }
  }

  lemma NamesStayDistinct(v: PyValue, r: PyValue)
    requires Container(v) && ReadOver(v, r) && DistinctNames(v)
    ensures DistinctNames(r)
  {
    if r.PyObject? {
      forall j, k | 0 <= j < k < |r.fields|
        ensures r.fields[j].name != r.fields[k].name
      {
        assert ChildName(r, j) == ChildName(v, j) && ChildName(r, k) == ChildName(v, k);
      }
    }
  }

  lemma StepsStay(t: DIType, v: PyValue, r: PyValue, k: nat)
    requires Container(v) && ReadOver(v, r) && k < Count(v)
    ensures ChildSteps(t, r, k) == ChildSteps(t, v, k)
  {
    assert ChildName(r, k) == ChildName(v, k);
  }

  // ---- Its leaves ----

  ghost predicate AllRead(w: View, base: nat, t: DIType, bits: nat, ls: seq<Leaf>, rs: seq<Leaf>) {
    |rs| == |ls| && forall i | 0 <= i < |ls| :: LeafRead(w, base, t, bits, ls[i], rs[i])
  }

  lemma AllReadBoth(w: View, base: nat, t: DIType, bits: nat, a: seq<Leaf>, b: seq<Leaf>, c: seq<Leaf>, d: seq<Leaf>)
    requires AllRead(w, base, t, bits, a, c) && AllRead(w, base, t, bits, b, d)
    ensures AllRead(w, base, t, bits, a + b, c + d)
  {
    hide LeafRead;
  }

  lemma NoLeavesRead(w: View, base: nat, t: DIType, bits: nat, p: Path, v: PyValue, r: PyValue)
    requires ValidPath(t, p) && Container(v) && Container(r) && Conforms(t, p, v) && Conforms(t, p, r)
    ensures AllRead(w, base, t, bits, ChildLeaves(t, p, v, 0), ChildLeaves(t, p, r, 0))
  {
  }

  lemma SameContainer(v: PyValue, r: PyValue)
    requires Container(v) && ReadOver(v, r)
    ensures Container(r) && Count(r) == Count(v)
  {
  }

  lemma ChildrenOver(t: DIType, p: Path, v: PyValue, r: PyValue, k: nat)
    requires ValidPath(t, p) && Container(v) && k < Count(v)
    requires Conforms(t, p, v) && Conforms(t, p, r) && ReadOver(v, r)
    ensures Container(r) && k < Count(r) && ReadOver(ChildValue(v, k), ChildValue(r, k))
    ensures ChildSteps(TypeAt(t, p), v, k).Some? && ChildSteps(TypeAt(t, p), r, k) == ChildSteps(TypeAt(t, p), v, k)
    ensures var c := ChildPath(t, p, v, k);
            && c == ChildPath(t, p, r, k) && ValidPath(t, c)
            && Conforms(t, c, ChildValue(v, k)) && Conforms(t, c, ChildValue(r, k))
  {
    hide LeafOk, ChildSteps;
    StepsStay(TypeAt(t, p), v, r, k);
  }

  lemma {:induction false} LeavesAfterReading(w: View, base: nat, t: DIType, bits: nat, p: Path, v: PyValue, r: PyValue)
    requires ValidPath(t, p) && Conforms(t, p, v) && Conforms(t, p, r) && ReadOver(v, r)
    requires ReadBack(w, base, t, bits, p, v) == Some(r)
    ensures AllRead(w, base, t, bits, Leaves(t, p, v), Leaves(t, p, r))
    decreases v, 1, 0
  {
    hide LeafOk, ChildLeaves, ReadLeaf, ChildSteps, ReadChildren;
    if Container(v) {
      LeavesOfChildrenRead(w, base, t, bits, p, v, r, Count(v));
    }
  }

  lemma {:induction false} LeavesOfChildrenRead(w: View, base: nat, t: DIType, bits: nat, p: Path, v: PyValue,
                                                r: PyValue, n: nat)
    requires ValidPath(t, p) && Container(v) && n <= Count(v)
    requires Conforms(t, p, v) && Conforms(t, p, r) && ReadOver(v, r)
    requires ReadBack(w, base, t, bits, p, v) == Some(r)
    ensures AllRead(w, base, t, bits, ChildLeaves(t, p, v, n), ChildLeaves(t, p, r, n))
    decreases v, 0, n
  {
    hide LeafOk, ReadChildren, ReadBack, ChildSteps, AllRead, Leaves, ChildLeaves, Conforms, ReadOver;
    SameContainer(v, r);
    if n == 0 {
      NoLeavesRead(w, base, t, bits, p, v, r);
    } else {
      LeavesOfChildrenRead(w, base, t, bits, p, v, r, n - 1);
      LeavesOfChildRead(w, base, t, bits, p, v, r, n - 1);
      OneMoreLeafList(w, base, t, bits, p, v, r, n - 1);
    }
  }

  lemma {:induction false} LeavesOfChildRead(w: View, base: nat, t: DIType, bits: nat, p: Path, v: PyValue, r: PyValue,
                                             k: nat)
    requires ValidPath(t, p) && Container(v) && k < Count(v)
    requires Conforms(t, p, v) && Conforms(t, p, r) && ReadOver(v, r)
    requires ReadBack(w, base, t, bits, p, v) == Some(r)
    ensures Container(r) && k < Count(r)
    ensures ChildSteps(TypeAt(t, p), v, k).Some? && ChildSteps(TypeAt(t, p), r, k) == ChildSteps(TypeAt(t, p), v, k)
    ensures var c := ChildPath(t, p, v, k);
            && c == ChildPath(t, p, r, k) && ValidPath(t, c)
            && Conforms(t, c, ChildValue(v, k)) && Conforms(t, c, ChildValue(r, k))
            && AllRead(w, base, t, bits, Leaves(t, c, ChildValue(v, k)), Leaves(t, c, ChildValue(r, k)))
    decreases v, 0, k
  {
    hide LeafOk, ReadChildren, ReadBack, ChildSteps, AllRead, Leaves, ChildLeaves, Conforms, ReadOver;
    ChildrenOver(t, p, v, r, k);
    ChildRead(w, base, t, bits, p, v, r, k);
    LeavesAfterReading(w, base, t, bits, ChildPath(t, p, v, k), ChildValue(v, k), ChildValue(r, k));
  }

  lemma OneMoreLeafList(w: View, base: nat, t: DIType, bits: nat, p: Path, v: PyValue, r: PyValue, k: nat)
    requires ValidPath(t, p) && Container(v) && Container(r) && k < Count(v) && k < Count(r)
    requires Conforms(t, p, v) && Conforms(t, p, r)
    requires ChildSteps(TypeAt(t, p), r, k) == ChildSteps(TypeAt(t, p), v, k)
    requires AllRead(w, base, t, bits, ChildLeaves(t, p, v, k), ChildLeaves(t, p, r, k))
    requires AllRead(w, base, t, bits, Leaves(t, ChildPath(t, p, v, k), ChildValue(v, k)),
                     Leaves(t, ChildPath(t, p, r, k), ChildValue(r, k)))
    ensures AllRead(w, base, t, bits, ChildLeaves(t, p, v, k + 1), ChildLeaves(t, p, r, k + 1))
  {
    hide AllRead, Leaves, ChildLeaves, LeafOk, ChildSteps;
    LastChildLeaves(t, p, v, k + 1);
    LastChildLeaves(t, p, r, k + 1);
    AllReadBoth(w, base, t, bits, ChildLeaves(t, p, v, k), Leaves(t, ChildPath(t, p, v, k), ChildValue(v, k)),
                ChildLeaves(t, p, r, k), Leaves(t, ChildPath(t, p, r, k), ChildValue(r, k)));
  }

  lemma ChildRead(w: View, base: nat, t: DIType, bits: nat, p: Path, v: PyValue, r: PyValue, k: nat)
    requires ValidPath(t, p) && Container(v) && k < Count(v) && Conforms(t, p, v)
    requires ReadBack(w, base, t, bits, p, v) == Some(r)
    ensures Container(r) && k < Count(r)
    ensures ReadBack(w, base, t, bits, ChildPath(t, p, v, k), ChildValue(v, k)) == Some(ChildValue(r, k))
  {
    hide LeafOk, ChildSteps, ReadChildren;
    ReadChildAt(w, base, t, bits, p, v, Count(v), k);
  }

  lemma {:induction false} ReadChildAt(w: View, base: nat, t: DIType, bits: nat, p: Path, v: PyValue, n: nat, k: nat)
    requires ValidPath(t, p) && Container(v) && k < n <= Count(v) && Conforms(t, p, v)
    requires ReadChildren(w, base, t, bits, p, v, n).Some?
    ensures ReadBack(w, base, t, bits, ChildPath(t, p, v, k), ChildValue(v, k)) ==
            Some(ReadChildren(w, base, t, bits, p, v, n).value[k])
    decreases n
  {
    hide LeafOk, ReadBack, ChildSteps;
    if k < n - 1 { ReadChildAt(w, base, t, bits, p, v, n - 1, k); }
  }

  // ---- The object read is one that can be uploaded again ----

  /** Compared with what its class makes, the object read is of the same shape once all
      its leaves are ready: text has been read as text. */
  lemma {:induction false} LikeAfterReading(t: DIType, bits: nat, p: Path, v: PyValue, r: PyValue, y: PyValue)
    requires ValidPath(t, p) && Conforms(t, p, v) && Conforms(t, p, r) && ReadOver(v, r) && Like(v, y)
    requires AllReadable(t, bits, Leaves(t, p, v)) && AllReady(t, bits, Leaves(t, p, r))
    ensures Like(r, y)
    decreases v
  {
    hide LeafOk, Ready, Readable, ChildSteps, ChildLeaves, AllReadable, AllReady;
    if Container(v) {
      forall k | 0 <= k < Count(r)
        ensures ChildName(r, k) == ChildName(y, k) && Like(ChildValue(r, k), ChildValue(y, k))
      {
        ChildrenOver(t, p, v, r, k);
        ChildLists(t, bits, p, v, k);
        ChildLists(t, bits, p, r, k);
        assert ChildName(r, k) == ChildName(v, k) == ChildName(y, k);
        LikeAfterReading(t, bits, ChildPath(t, p, v, k), ChildValue(v, k), ChildValue(r, k), ChildValue(y, k));
      }
    } else if !v.PyNone? {
      OneReadable(t, bits, Leaf(p, v));
      TextReadAsText(t, bits, Leaf(p, v), Leaf(p, r));
    }
  }

  lemma TextReadAsText(t: DIType, bits: nat, l: Leaf, r: Leaf)
    requires Readable(t, bits, l) && AllReady(t, bits, [r]) && r.path == l.path
    ensures Ready(t, bits, r) && (l.value.PyStr? ==> r.value.PyStr?) && !l.value.PyBytes?
  {
    assert [r][0] == r;
  }

  /** What holds of the leaves of a container holds of each child's. */
  lemma ChildLists(t: DIType, bits: nat, p: Path, v: PyValue, k: nat)
    requires ValidPath(t, p) && Container(v) && k < Count(v) && Conforms(t, p, v)
    ensures var ls, cs := Leaves(t, p, v), Leaves(t, ChildPath(t, p, v, k), ChildValue(v, k));
            && (AllReadable(t, bits, ls) ==> AllReadable(t, bits, cs))
            && (AllReady(t, bits, ls) ==> AllReady(t, bits, cs))
  {
    hide Readable, Ready, Leaves, ChildLeaves, LeafOk;
    var rest := RestOfLeaves(t, p, v, k);
    var a, cs := ChildLeaves(t, p, v, k), Leaves(t, ChildPath(t, p, v, k), ChildValue(v, k));
    assert forall i | 0 <= i < |cs| :: cs[i] == (a + (cs + rest))[|a| + i];
  }

  /** An object read is its own plan: every pointer is set. */
  lemma {:induction false} OwnPlan(t: DIType, bits: nat, p: Path, v: PyValue, r: PyValue)
    requires ValidPath(t, p) && Conforms(t, p, v) && Conforms(t, p, r) && ReadOver(v, r)
    requires AllReady(t, bits, Leaves(t, p, r))
    ensures FitsPlan(r, r, PointerLimit(bits))
    decreases v
  {
    hide LeafOk, Ready, ChildSteps, ChildLeaves, AllReady;
    if r.PyObject? {
      assert Container(v);
      forall k | 0 <= k < |r.fields|
        ensures FitsPlan(r.fields[k].value, r.fields[k].value, PointerLimit(bits))
      {
        ChildrenOver(t, p, v, r, k);
        ChildLists(t, bits, p, r, k);
        OwnPlan(t, bits, ChildPath(t, p, v, k), ChildValue(v, k), ChildValue(r, k));
      }
    } else if r.PyPtr? {
      PointerInRange(t, bits, Leaf(p, r));
    }
  }

  lemma PointerInRange(t: DIType, bits: nat, l: Leaf)
    requires AllReady(t, bits, [l]) && l.value.PyPtr?
    ensures l.value.ptr.Some? ==> 0 <= l.value.ptr.value < PointerLimit(bits)
  {
    hide Inside, LeafKind, LeafSize;
    assert Ready(t, bits, [l][0]);
  }

  /** Reading leaves the targets pointers name alone. */
  lemma {:induction false} PendingAfterReading(v: PyValue, r: PyValue, at: Position)
    requires ReadOver(v, r)
    ensures HasAt(v, at) <==> HasAt(r, at)
    ensures HasAt(v, at) ==> (Pending(At(v, at)) <==> Pending(At(r, at)))
    ensures HasAt(v, at) && Pending(At(v, at)) ==> At(r, at).cache == At(v, at).cache
    decreases at
  {
    if at != [] && v.PyObject? && at[0] < |v.fields| {
      assert ChildValue(v, at[0]) == v.fields[at[0]].value && ChildValue(r, at[0]) == r.fields[at[0]].value;
      PendingAfterReading(v.fields[at[0]].value, r.fields[at[0]].value, at[1..]);
    }
  }

  // ---- All leaves together ----

  ghost predicate AllCanonical(w: View, base: nat, t: DIType, bits: nat, ls: seq<Leaf>) {
    forall i | 0 <= i < |ls| :: CanonicalAt(w, base, t, bits, ls[i])
  }

  ghost predicate CanonicalButBools(w: View, base: nat, t: DIType, bits: nat, ls: seq<Leaf>) {
    forall i | 0 <= i < |ls| :: CanonicalAt(w, base, t, bits, ls[i]) || IsBool(t, ls[i])
  }

  lemma AllAfterReading(w: View, base: nat, t: DIType, bits: nat, ls: seq<Leaf>, rs: seq<Leaf>)
    requires AllReadable(t, bits, ls) && AllRead(w, base, t, bits, ls, rs) && Covers(w, base, Size(t))
    ensures AllReady(t, bits, rs) <==> CanonicalButBools(w, base, t, bits, ls)
    ensures AllReady(t, bits, rs) && HoldsLeaves(w, base, t, bits, rs) <==> AllCanonical(w, base, t, bits, ls)
    ensures AllComeBack(t, rs)
  {
    hide Ready, HoldsLeaf, CanonicalAt, IsBool, ComesBack, Covers;
    forall i | 0 <= i < |ls|
      ensures Ready(t, bits, rs[i]) <==> CanonicalAt(w, base, t, bits, ls[i]) || IsBool(t, ls[i])
      ensures Ready(t, bits, rs[i]) && HoldsLeaf(w, base, t, bits, rs[i]) <==> CanonicalAt(w, base, t, bits, ls[i])
      ensures ComesBack(t, rs[i])
    {
      OneAfterReading(w, base, t, bits, ls[i], rs[i]);
    }
  }

  lemma OneAfterReading(w: View, base: nat, t: DIType, bits: nat, l: Leaf, r: Leaf)
    requires Readable(t, bits, l) && LeafRead(w, base, t, bits, l, r) && Covers(w, base, Size(t))
    ensures Ready(t, bits, r) <==> CanonicalAt(w, base, t, bits, l) || IsBool(t, l)
    ensures Ready(t, bits, r) && HoldsLeaf(w, base, t, bits, r) <==> CanonicalAt(w, base, t, bits, l)
    ensures ComesBack(t, r)
  {
    hide Ready, HoldsLeaf, CanonicalAt, IsBool, ComesBack, Covers, Readable, ReadLeaf;
    LeafAfterReading(w, base, t, bits, l);
    assert r == Leaf(l.path, r.value);
  }

  /** No two fields share a place: reading sets them all. */
  ghost predicate NothingShared(t: DIType, ls: seq<Leaf>) {
    forall i, j | 0 <= i < j < |ls| :: PlacesApart(t, ls[i], ls[j])
  }

  lemma StillApart(w: View, base: nat, t: DIType, bits: nat, ls: seq<Leaf>, rs: seq<Leaf>)
    requires AllReadable(t, bits, ls) && AllRead(w, base, t, bits, ls, rs) && AllReady(t, bits, rs)
    requires Covers(w, base, Size(t))
    ensures AllPlacesApart(t, bits, rs) <==> NothingShared(t, ls)
  {
    hide Readable, Ready, Written, LeafRead, Covers;
    forall i | 0 <= i < |rs|
      ensures rs[i].path == ls[i].path && Written(t, bits, rs[i])
    {
      assert LeafRead(w, base, t, bits, ls[i], rs[i]) && Readable(t, bits, ls[i]) && Ready(t, bits, rs[i]);
      WrittenAgain(w, base, t, bits, ls[i], rs[i]);
    }
    forall i, j | 0 <= i < j < |rs|
      ensures PlacesApart(t, rs[i], rs[j]) <==> PlacesApart(t, ls[i], ls[j])
    {
    }
  }

  lemma WrittenAgain(w: View, base: nat, t: DIType, bits: nat, l: Leaf, r: Leaf)
    requires Readable(t, bits, l) && LeafRead(w, base, t, bits, l, r) && Ready(t, bits, r) && Covers(w, base, Size(t))
    ensures r.path == l.path && Written(t, bits, r)
  {
    hide Ready, HoldsLeaf, CanonicalAt, IsBool, ComesBack, Covers, Readable, ReadLeaf, Written;
    LeafAfterReading(w, base, t, bits, l);
    ReadyIsEncodable(t, bits, r);
  }

  // ---- The world after reading ----

  /** An object all of whose fields are read in full. */
  ghost predicate ReadInFullOf(o: PyObj, bits: nat) {
    && ValidPath(o.ty, []) && Conforms(o.ty, [], o.body)
    && AllReadable(o.ty, bits, Leaves(o.ty, [], o.body))
  }

  lemma FullReadsStayInside(o: PyObj, bits: nat)
    requires ReadInFullOf(o, bits)
    ensures NoOverread(o.ty, Leaves(o.ty, [], o.body))
  {
    hide Leaves, Conforms;
    var ls := Leaves(o.ty, [], o.body);
    forall k | 0 <= k < |ls|
      ensures ValidPath(o.ty, ls[k].path) && Inside(o.ty, ls[k].path)
    {
      assert Readable(o.ty, bits, ls[k]);
    }
  }

  /** Address `a` is in one block and apart from the other objects. */
  ghost predicate PlaceFor(w: World, i: Id, a: nat) {
    && i in w.objects && (w.objects[i].addr.Some? ==> w.objects[i].addr == Some(a))
    && Covers(w.view, a, Size(w.objects[i].ty))
    && (exists b: nat :: Within(w.starts, b, a, Size(w.objects[i].ty)))
    && forall j | j in w.objects && j != i :: Separate(w.objects[j], w.objects[i].(addr := Some(a)))
  }

  function AfterReading(w: World, i: Id, a: nat, r: PyValue): World
    requires i in w.objects
  {
    w.(objects := w.objects[i := w.objects[i].(addr := Some(a), body := r)],
       registered := w.registered[i := a], objectMap := w.objectMap[a := i])
  }

  /** After reading an object an upload can start if and only if every field held
      canonical bytes or is a boolean, and no two fields share a place; the object is its
      own plan. Memory then holds the object as uploaded if and only if every field held
      canonical bytes and no pointer names a target. Other objects stay as they are. */
  lemma ReadingKeepsWorld(w: World, i: Id, a: nat, plan: map<Id, PyValue>, bits: nat)
    requires WorldOk(w, plan, bits) && PlaceFor(w, i, a) && ReadInFullOf(w.objects[i], bits)
    ensures var o := w.objects[i];
            var read := ReadBack(w.view, a, o.ty, bits, [], o.body);
            && read.Some?
            && var w' := AfterReading(w, i, a, read.value);
               && (WorldOk(w', plan[i := read.value], bits) <==>
                     && CanonicalButBools(w.view, a, o.ty, bits, Leaves(o.ty, [], o.body))
                     && NothingShared(o.ty, Leaves(o.ty, [], o.body)))
               && (WorldOk(w', plan[i := read.value], bits) ==>
                     (Complete(w', i, bits) <==>
                        AllCanonical(w.view, a, o.ty, bits, Leaves(o.ty, [], o.body)) && PendingSlots(o.body) == {}))
               && forall j | j != i :: Complete(w', j, bits) <==> Complete(w, j, bits)
  {
    hide Separate, RefsOk, Housed, MapsAgree, Covers, Leaves, Conforms, AllReadable, NothingShared, AllCanonical,
         CanonicalButBools, ReadBack, Uploaded, FitsPlan;
    var o := w.objects[i];
    var ls := Leaves(o.ty, [], o.body);
    assert ObjectOk(o, plan[i], bits);
    ObjectLeaves(o, plan[i], bits);
    ObjectAfterReading(w.view, a, o.ty, bits, [], o.body);
    var r := ReadBack(w.view, a, o.ty, bits, [], o.body).value;
    ReadOverConforms(o.ty, [], o.body, r);
    LeavesAfterReading(w.view, a, o.ty, bits, [], o.body, r);
    AllAfterReading(w.view, a, o.ty, bits, ls, Leaves(o.ty, [], r));
    ReadObjectOk(w, i, a, r, plan, bits);
    WorldAfterReading(w, i, a, r, plan, bits);
    CompleteAfterReading(w, i, a, r, bits);
  }

  lemma ReadObjectOk(w: World, i: Id, a: nat, r: PyValue, plan: map<Id, PyValue>, bits: nat)
    requires WorldOk(w, plan, bits) && i in w.objects && ReadInFullOf(w.objects[i], bits)
    requires ReadOver(w.objects[i].body, r) && Conforms(w.objects[i].ty, [], r)
    requires AllRead(w.view, a, w.objects[i].ty, bits, Leaves(w.objects[i].ty, [], w.objects[i].body),
                     Leaves(w.objects[i].ty, [], r))
    requires Covers(w.view, a, Size(w.objects[i].ty))
    ensures var o := w.objects[i];
            ObjectOk(o.(addr := Some(a), body := r), r, bits) <==>
            AllReady(o.ty, bits, Leaves(o.ty, [], r)) && NothingShared(o.ty, Leaves(o.ty, [], o.body))
  {
    hide Separate, RefsOk, Housed, MapsAgree, Conforms, AllReadable, AllReady, FitsPlan, ReadOver, AllRead, Like,
         AllPlacesApart, Leaves, NothingShared, Covers;
    var o := w.objects[i];
    assert ObjectOk(o, plan[i], bits);
    PlannedUploadable(o.ty, bits, plan[i], o.body, o.fresh');
    if AllReady(o.ty, bits, Leaves(o.ty, [], r)) {
      StillApart(w.view, a, o.ty, bits, Leaves(o.ty, [], o.body), Leaves(o.ty, [], r));
      LikeAfterReading(o.ty, bits, [], o.body, r, o.fresh');
      OwnPlan(o.ty, bits, [], o.body, r);
    }
  }

  lemma WorldAfterReading(w: World, i: Id, a: nat, r: PyValue, plan: map<Id, PyValue>, bits: nat)
    requires i in w.objects && WorldOk(w, plan, bits) && PlaceFor(w, i, a) && ReadOver(w.objects[i].body, r)
    ensures WorldOk(AfterReading(w, i, a, r), plan[i := r], bits) <==>
            ObjectOk(w.objects[i].(addr := Some(a), body := r), r, bits)
  {
    hide AllObjectsOk, AllRefsOk, AllHoused, AllSeparate, MapsAgree, PlaceFor, ReadOver;
    RefsAfterReading(w, i, a, r);
    MapsAfterReading(w, i, a, r);
    HousedAfterReading(w, i, a, r);
    AllSeparateAfterReading(w, i, a, r);
    ObjectsAfterReading(w, i, a, r, plan, bits);
  }

  lemma ObjectsAfterReading(w: World, i: Id, a: nat, r: PyValue, plan: map<Id, PyValue>, bits: nat)
    requires AllObjectsOk(w.objects, plan, bits) && i in w.objects
    ensures AllObjectsOk(AfterReading(w, i, a, r).objects, plan[i := r], bits) <==>
            ObjectOk(w.objects[i].(addr := Some(a), body := r), r, bits)
  {
    hide ObjectOk;
    var os, plan' := AfterReading(w, i, a, r).objects, plan[i := r];
    assert os[i] == w.objects[i].(addr := Some(a), body := r) && plan'[i] == r;
    forall j | j in os && j != i
      ensures ObjectOk(os[j], plan'[j], bits)
    {
      assert ObjectOk(w.objects[j], plan[j], bits);
    }
  }

  lemma HousedAfterReading(w: World, i: Id, a: nat, r: PyValue)
    requires AllHoused(w) && PlaceFor(w, i, a)
    ensures AllHoused(AfterReading(w, i, a, r))
  {
    hide Covers, Within, Separate;
    var w' := AfterReading(w, i, a, r);
    forall j | j in w'.objects ensures Housed(w', w'.objects[j]) {
      assert Housed(w, w.objects[j]);
    }
  }

  lemma AllSeparateAfterReading(w: World, i: Id, a: nat, r: PyValue)
    requires i in w.objects && AllSeparate(w.objects) && PlaceFor(w, i, a)
    ensures AllSeparate(AfterReading(w, i, a, r).objects)
  {
    hide PlaceFor, Separate;
    var os := AfterReading(w, i, a, r).objects;
    forall j, k | j in os && k in os && j != k
      ensures Separate(os[j], os[k])
    {
      SeparateAfterReading(w, i, a, r, j, k);
    }
  }

  lemma SeparateAfterReading(w: World, i: Id, a: nat, r: PyValue, j: Id, k: Id)
    requires AllSeparate(w.objects) && PlaceFor(w, i, a) && j in w.objects && k in w.objects && j != k
    ensures Separate(AfterReading(w, i, a, r).objects[j], AfterReading(w, i, a, r).objects[k])
  {
    if j == i {
      assert Separate(w.objects[k], w.objects[i].(addr := Some(a)));
    } else if k == i {
      assert Separate(w.objects[j], w.objects[i].(addr := Some(a)));
    } else {
      assert Separate(w.objects[j], w.objects[k]);
    }
  }

  lemma MapsAfterReading(w: World, i: Id, a: nat, r: PyValue)
    requires MapsAgree(w) && PlaceFor(w, i, a)
    ensures MapsAgree(AfterReading(w, i, a, r))
  {
    hide Covers, Separate;
    if a in w.objectMap { OwnAddress(w, i, a); }
  }

  /** Only the object itself can have been known at its address. */
  lemma OwnAddress(w: World, i: Id, a: nat)
    requires MapsAgree(w) && PlaceFor(w, i, a) && a in w.objectMap
    ensures w.objectMap[a] == i
  {
  }

  lemma RefsAfterReading(w: World, i: Id, a: nat, r: PyValue)
    requires AllRefsOk(w.objects) && i in w.objects && ReadOver(w.objects[i].body, r)
    ensures AllRefsOk(AfterReading(w, i, a, r).objects)
  {
    hide ReadOver;
    var os, os' := w.objects, AfterReading(w, i, a, r).objects;
    forall j | j in os' ensures RefsOk(os', os'[j].body) {
      assert RefsOk(os, os[j].body);
      if j != i {
        SameRefs(os, os', os[j].body);
      } else {
        forall at | HasAt(r, at) && Pending(At(r, at))
          ensures RefOk(os', At(r, at).cache.value)
        {
          PendingAfterReading(os[i].body, r, at);
          assert RefOk(os, At(os[i].body, at).cache.value);
        }
      }
    }
  }

  lemma CompleteAfterReading(w: World, i: Id, a: nat, r: PyValue, bits: nat)
    requires i in w.objects && ReadOver(w.objects[i].body, r)
    requires ValidPath(w.objects[i].ty, []) && Conforms(w.objects[i].ty, [], r)
    requires AllComeBack(w.objects[i].ty, Leaves(w.objects[i].ty, [], r))
    ensures Complete(AfterReading(w, i, a, r), i, bits) <==>
            HoldsLeaves(w.view, a, w.objects[i].ty, bits, Leaves(w.objects[i].ty, [], r)) &&
            PendingSlots(w.objects[i].body) == {}
    ensures forall j | j != i :: Complete(AfterReading(w, i, a, r), j, bits) <==> Complete(w, j, bits)
  {
    hide HoldsLeaves, AllComeBack, Conforms, Leaves, ReadOver, PendingSlots;
    var x := w.objects[i].body;
    forall at ensures at in PendingSlots(x) <==> at in PendingSlots(r) {
      PendingSlotsAt(x, at);
      PendingSlotsAt(r, at);
      PendingAfterReading(x, r, at);
    }
    assert PendingSlots(x) == PendingSlots(r);
  }
}
