// set_struct and get_struct as the interpreter runs them: recursion over the object,
// each leaf through a resolved path and a translated address.
module Marshalling {
  import opened Common
  import opened ByteMemory
  import opened DebugTypes
  import opened TypePaths
  import opened Resolver
  import opened Spelling
  import opened Offsets
  import opened FlatView
  import opened Interpreter
  import opened PyValues
  import opened Primitives
  import opened Marshaller
  import opened Upload
  import opened Diff
  import opened RoundTrip
  import opened TypedLeaves

  // ---- Leaves in order, up to the first exception or abort ----

  /** How writing ends. */
  datatype Ending = Finished | Exception | Abort

  datatype Progress = Progress(view: View, ending: Ending)

  /** How writing one leaf ends: irx aborts where it finds no size or the walk does, but
      walks only if there is something to write. */
  function LeafEnding(t: DIType, bits: nat, l: Leaf): Ending
    requires ValidPath(t, l.path)
  {
    if StopsAtElementRecord(t, l.path) then Abort else
    match EncodeLeaf(t, bits, l)
    case PackError => Exception
    case NoWrite => Finished
    case Write(_) => if PlaceOf(t, l.path).Some? then Finished else Abort
  }

  ghost function UploadLeaves(v: View, base: nat, t: DIType, bits: nat, ls: seq<Leaf>): Progress {
    if ls == [] then Progress(v, Finished) else
    var r, l := UploadLeaves(v, base, t, bits, ls[..|ls| - 1]), ls[|ls| - 1];
    if r.ending != Finished then r
    else if ValidPath(t, l.path) && LeafEnding(t, bits, l) != Finished then Progress(r.view, LeafEnding(t, bits, l))
    else Progress(WriteLeaf(r.view, base, t, bits, l), Finished)
  }

  /** An upload ends as the first leaf does that cannot be written: the `k`-th. */
  lemma {:induction false} UploadEnding(v: View, base: nat, t: DIType, bits: nat, ls: seq<Leaf>) returns (k: nat)
    requires forall i | 0 <= i < |ls| :: ValidPath(t, ls[i].path)
    ensures k <= |ls| && forall i | 0 <= i < k :: LeafEnding(t, bits, ls[i]) == Finished
    ensures UploadLeaves(v, base, t, bits, ls).ending == if k < |ls| then LeafEnding(t, bits, ls[k]) else Finished
    ensures k < |ls| ==> LeafEnding(t, bits, ls[k]) != Finished
    decreases ls
  {
    hide LeafEnding, WriteLeaf, ValidPath;
    if ls == [] {
      k := 0;
    } else {
      var n := |ls| - 1;
      k := UploadEnding(v, base, t, bits, ls[..n]);
      if k == n && LeafEnding(t, bits, ls[n]) == Finished { k := n + 1; }
    }
  }

  lemma {:induction false} UploadsCompose(v: View, base: nat, t: DIType, bits: nat, a: seq<Leaf>, b: seq<Leaf>)
    ensures var r := UploadLeaves(v, base, t, bits, a);
            UploadLeaves(v, base, t, bits, a + b) ==
            if r.ending == Finished then UploadLeaves(r.view, base, t, bits, b) else r
    decreases b
  {
    if b == [] {
      assert a + b == a;
    } else {
      assert (a + b)[..|a + b| - 1] == a + b[..|b| - 1];
      UploadsCompose(v, base, t, bits, a, b[..|b| - 1]);
    }
  }

  /** Without exceptions every leaf is written. */
  lemma {:induction false} UploadIsWrites(v: View, base: nat, t: DIType, bits: nat, ls: seq<Leaf>)
    requires AllEncodable(t, bits, ls)
    ensures UploadLeaves(v, base, t, bits, ls) == Progress(WriteLeaves(v, base, t, bits, ls), Finished)
    decreases ls
  {
    if ls != [] {
      assert Encodable(t, bits, ls[|ls| - 1]);
      UploadIsWrites(v, base, t, bits, ls[..|ls| - 1]);
    }
  }

  /** No leaf is written past the end of the object. */
  ghost predicate NoOverflow(t: DIType, bits: nat, ls: seq<Leaf>) {
    forall i | 0 <= i < |ls| :: Written(t, bits, ls[i]) && Addressable(t, ls[i].path) ==>
                                  LeafPlace(t, ls[i].path) + |EncodeLeaf(t, bits, ls[i]).bytes| <= Size(t)
  }

  /** No leaf is read past the end of the object. */
  ghost predicate NoOverread(t: DIType, ls: seq<Leaf>) {
    forall i | 0 <= i < |ls| :: ValidPath(t, ls[i].path) && Addressable(t, ls[i].path) ==>
                                  LeafPlace(t, ls[i].path) + RecordedSize(t, ls[i].path) <= Size(t)
  }

  lemma NoOverflowParts(t: DIType, bits: nat, a: seq<Leaf>, b: seq<Leaf>)
    ensures NoOverflow(t, bits, a + b) ==> NoOverflow(t, bits, a) && NoOverflow(t, bits, b)
    ensures NoOverread(t, a + b) ==> NoOverread(t, a) && NoOverread(t, b)
  {
    hide Written, Addressable, LeafPlace, EncodeLeaf, RecordedSize;
    assert forall i | 0 <= i < |a| :: a[i] == (a + b)[i];
    assert forall i | 0 <= i < |b| :: b[i] == (a + b)[|a| + i];
  }

  /** What the accessors learn about a leaf. */
  lemma LeafInfo(t: DIType, p: Path)
    requires ValidPath(t, p) && LeafOk(t, p)
    ensures var r := DirectInfo(t, Designators(t, p));
            if StopsAtElementRecord(t, p) then !r.Info?
            else r.Info? && KindOf(r.info.basicType) == LeafKind(t, p) && r.info.bytes == RecordedSize(t, p)
  {
    SpellingInfo(t, p);
    LastIndex(t, p);
    SizeRecorded(t, p);
  }

  // ---- Writing ----

  /** The bytes are at `a` now, and nothing else has changed; or nothing at all has. */
  ghost predicate StoredAs(r: Packed, a: nat, before: View, after: View, ending: Ending) {
    match r
    case PackError => ending == Exception && after == before
    case NoWrite => ending == Finished && after == before
    case Write(b) =>
      ending == Finished && Covers(after, a, |b|) && ViewRead(after, a, |b|) == b && SameOutside(before, after, a, |b|)
  }

  /** Writing one leaf has done what its C type and value ask for. */
  ghost predicate LeafStored(t: DIType, bits: nat, p: Path, v: PyValue, base: nat, before: View, after: View,
                             ending: Ending)
    requires ValidPath(t, p)
  {
    exists r :: PackedAs(Strip(TypeAt(t, p)), RecordedSize(t, p), bits, v, r) &&
                StoredAs(r, LeafAddr(base, t, p), before, after, ending)
  }

  lemma LeafIsStored(w: View, base: nat, t: DIType, bits: nat, l: Leaf)
    requires WellFormed(t) && ValidPath(t, l.path) && Addressable(t, l.path) && NoOverflow(t, bits, [l])
    requires Covers(w, base, Size(t))
    ensures var r := UploadLeaves(w, base, t, bits, [l]);
            LeafStored(t, bits, l.path, l.value, base, w, r.view, r.ending)
  {
    hide PackedAs, EncodeLeaf, ViewRead, Covers, UploadLeaves, PlaceOf, StopsAtElementRecord;
    LeafPacked(t, bits, l);
    OneUpload(w, base, t, bits, l);
    var packed := EncodeLeaf(t, bits, l);
    if packed.Write? {
      assert Written(t, bits, [l][0]);
      CoversPart(w, base, Size(t), LeafAddr(base, t, l.path), |packed.bytes|);
      WrittenThere(w, LeafAddr(base, t, l.path), packed.bytes);
    }
    assert StoredAs(packed, LeafAddr(base, t, l.path), w, UploadLeaves(w, base, t, bits, [l]).view,
                    UploadLeaves(w, base, t, bits, [l]).ending);
  }

  lemma WrittenThere(w: View, a: nat, b: Bytes)
    requires Covers(w, a, |b|)
    ensures Covers(ViewWrite(w, a, b), a, |b|) && ViewRead(ViewWrite(w, a, b), a, |b|) == b
    ensures SameOutside(w, ViewWrite(w, a, b), a, |b|)
  {
  }

  method SetStructPrimitive(irx: MyInterpreter, t: DIType, base: nat, data: PyValue, path: seq<string>, bits: nat,
                            ghost l: Leaf, ghost b: nat) returns (ending: Ending)
    requires irx.Mapped() && ValidPath(t, l.path) && LeafOk(t, l.path)
    requires path == Designators(t, l.path) && data == Payload(l.value)
    requires Within(irx.allocator.vvmemStart, b, base, Size(t)) && NoOverflow(t, bits, [l])
    modifies irx.mem
    ensures Progress(irx.View(), ending) == UploadLeaves(old(irx.View()), base, t, bits, [l])
  {
    OneUpload(irx.View(), base, t, bits, l);
    LeafInfo(t, l.path);
    var info := GetStructFieldInfo2(t, path);
    if !info.Info? { return Abort; }
    var packed := Encode(KindOf(info.info.basicType), info.info.bytes, bits, data);
    assert packed == EncodeLeaf(t, bits, l);
    match packed
    case PackError => return Exception;
    case NoWrite => return Finished;
    case Write(bytes) =>
      assert Written(t, bits, [l][0]);
      var ok := irx.StructSet(t, base, path, bytes, l.path, b, LeafAddr(base, t, l.path));
      return if ok then Finished else Abort;
  }

  lemma NothingUploaded(v: View, base: nat, t: DIType, bits: nat)
    ensures UploadLeaves(v, base, t, bits, []) == Progress(v, Finished)
  {
  }

  lemma OneUpload(v: View, base: nat, t: DIType, bits: nat, l: Leaf)
    requires ValidPath(t, l.path)
    ensures UploadLeaves(v, base, t, bits, [l]) ==
            var e := LeafEnding(t, bits, l);
            Progress(if e == Finished && EncodeLeaf(t, bits, l).Write?
                     then ViewWrite(v, LeafAddr(base, t, l.path), EncodeLeaf(t, bits, l).bytes) else v, e)
  {
    assert [l][..0] == [];
    assert UploadLeaves(v, base, t, bits, []) == Progress(v, Finished);
  }

  /** set_struct: the leaves are written in field order until one raises or aborts. */
  method SetStruct(irx: MyInterpreter, t: DIType, base: nat, v: PyValue, path: seq<string>, bits: nat,
                   ghost p: Path, ghost b: nat) returns (ending: Ending)
    requires irx.Mapped() && WellFormed(t) && ValidPath(t, p) && Conforms(t, p, v) && path == Designators(t, p)
    requires Within(irx.allocator.vvmemStart, b, base, Size(t)) && NoOverflow(t, bits, Leaves(t, p, v))
    modifies irx.mem
    ensures Progress(irx.View(), ending) == UploadLeaves(old(irx.View()), base, t, bits, Leaves(t, p, v))
    ensures !Container(v) && !v.PyNone? && Addressable(t, p) ==>
              LeafStored(t, bits, p, v, base, old(irx.View()), irx.View(), ending)
    decreases v, 1
  {
    hide LeafStored, Addressable, NoOverflow, MyInterpreter.View, UploadLeaves, LeafOk;
    if Container(v) {
      ending := SetChildren(irx, t, base, v, path, bits, p, b);
    } else if v.PyNone? {
      ending := Finished;
      NothingUploaded(irx.View(), base, t, bits);
    } else {
      ghost var before := irx.View();
      irx.Covered(b, base, Size(t));
      ending := SetStructPrimitive(irx, t, base, Payload(v), path, bits, Leaf(p, v), b);
      if Addressable(t, p) { LeafIsStored(before, base, t, bits, Leaf(p, v)); }
    }
  }

  /** The loops of set_struct over list items and dataclass fields. */
  method SetChildren(irx: MyInterpreter, t: DIType, base: nat, v: PyValue, path: seq<string>, bits: nat,
                     ghost p: Path, ghost b: nat) returns (ending: Ending)
    requires irx.Mapped() && WellFormed(t) && ValidPath(t, p) && Conforms(t, p, v) && path == Designators(t, p)
    requires Within(irx.allocator.vvmemStart, b, base, Size(t)) && NoOverflow(t, bits, Leaves(t, p, v))
    requires Container(v)
    modifies irx.mem
    ensures Progress(irx.View(), ending) == UploadLeaves(old(irx.View()), base, t, bits, Leaves(t, p, v))
    decreases v, 0, Count(v)
  {
    ghost var start, cur := irx.View(), irx.View();
    ending := Finished;
    for k := 0 to Count(v)
      invariant ending == Finished && cur == irx.View()
      invariant Progress(cur, Finished) == UploadLeaves(start, base, t, bits, ChildLeaves(t, p, v, k))
    {
      ending := SetChild(irx, t, base, v, k, path, bits, p, b);
      ghost var next := irx.View();
      ChildUploaded(start, cur, Progress(next, ending), base, t, bits, p, v, k);
      if ending != Finished { return; }
      cur := next;
    }
  }

  method SetChild(irx: MyInterpreter, t: DIType, base: nat, v: PyValue, k: nat, path: seq<string>, bits: nat,
                  ghost p: Path, ghost b: nat) returns (ending: Ending)
    requires irx.Mapped() && WellFormed(t) && ValidPath(t, p) && Container(v) && k < Count(v)
    requires Conforms(t, p, v) && path == Designators(t, p)
    requires Within(irx.allocator.vvmemStart, b, base, Size(t)) && NoOverflow(t, bits, Leaves(t, p, v))
    modifies irx.mem
    ensures Progress(irx.View(), ending) ==
            UploadLeaves(old(irx.View()), base, t, bits, Leaves(t, ChildPath(t, p, v, k), ChildValue(v, k)))
    decreases v, 0, k
  {
    ChildReady(t, p, v, bits, k);
    ending := SetStruct(irx, t, base, ChildValue(v, k), path + [ChildName(v, k)], bits, ChildPath(t, p, v, k), b);
  }

  /** What the recursive call for a child asks for. */
  lemma ChildReady(t: DIType, p: Path, v: PyValue, bits: nat, k: nat)
    requires WellFormed(t) && ValidPath(t, p) && Container(v) && Conforms(t, p, v) && k < Count(v)
    requires NoOverflow(t, bits, Leaves(t, p, v))
    ensures var c := ChildPath(t, p, v, k);
            && ValidPath(t, c) && Conforms(t, c, ChildValue(v, k))
            && Designators(t, c) == Designators(t, p) + [ChildName(v, k)]
            && NoOverflow(t, bits, Leaves(t, c, ChildValue(v, k)))
  {
    ChildSpelling(t, p, v, k);
    var rest := RestOfLeaves(t, p, v, k);
    var child := Leaves(t, ChildPath(t, p, v, k), ChildValue(v, k));
    NoOverflowParts(t, bits, ChildLeaves(t, p, v, k), child + rest);
    NoOverflowParts(t, bits, child, rest);
  }

  /** One more child: the upload so far goes on, or has stopped for good. */
  lemma ChildUploaded(start: View, cur: View, next: Progress, base: nat, t: DIType, bits: nat, p: Path, v: PyValue,
                      k: nat)
    requires ValidPath(t, p) && Container(v) && Conforms(t, p, v) && k < Count(v)
    requires Progress(cur, Finished) == UploadLeaves(start, base, t, bits, ChildLeaves(t, p, v, k))
    requires next == UploadLeaves(cur, base, t, bits, Leaves(t, ChildPath(t, p, v, k), ChildValue(v, k)))
    ensures next == UploadLeaves(start, base, t, bits, ChildLeaves(t, p, v, k + 1))
    ensures next.ending != Finished ==> next == UploadLeaves(start, base, t, bits, Leaves(t, p, v))
  {
    var rest := RestOfLeaves(t, p, v, k);
    UploadsCompose(start, base, t, bits, ChildLeaves(t, p, v, k), Leaves(t, ChildPath(t, p, v, k), ChildValue(v, k)));
    UploadsCompose(start, base, t, bits, ChildLeaves(t, p, v, k + 1), rest);
  }

  /** The leaves of the children from the `k`-th on. */
  lemma {:induction false} RestFrom(t: DIType, p: Path, v: PyValue, k: nat, n: nat) returns (rest: seq<Leaf>)
    requires ValidPath(t, p) && Container(v) && Conforms(t, p, v) && k <= n <= Count(v)
    ensures ChildLeaves(t, p, v, n) == ChildLeaves(t, p, v, k) + rest
    decreases n
  {
    if k == n {
      rest := [];
    } else {
      rest := RestFrom(t, p, v, k, n - 1);
      var last := Leaves(t, ChildPath(t, p, v, n - 1), ChildValue(v, n - 1));
      Associative(ChildLeaves(t, p, v, k), rest, last);
      rest := rest + last;
    }
  }

  lemma Associative(a: seq<Leaf>, b: seq<Leaf>, c: seq<Leaf>)
    ensures (a + b) + c == a + (b + c)
  {
  }

  lemma RestOfLeaves(t: DIType, p: Path, v: PyValue, k: nat) returns (rest: seq<Leaf>)
    requires ValidPath(t, p) && Container(v) && Conforms(t, p, v) && k < Count(v)
    ensures Leaves(t, p, v) == ChildLeaves(t, p, v, k) + (Leaves(t, ChildPath(t, p, v, k), ChildValue(v, k)) + rest)
    ensures Leaves(t, p, v) == ChildLeaves(t, p, v, k + 1) + rest
  {
    rest := RestFrom(t, p, v, k + 1, Count(v));
    Associative(ChildLeaves(t, p, v, k), Leaves(t, ChildPath(t, p, v, k), ChildValue(v, k)), rest);
  }

  // ---- Reading ----

  /** Reading one leaf over value `v` has given what its C type and the bytes ask for; a
      pointer object keeps its target. */
  ghost predicate LeafFetched(t: DIType, bits: nat, p: Path, v: PyValue, b: Bytes, r: Option<PyValue>)
    requires ValidPath(t, p)
  {
    exists u :: ReadAs(Strip(TypeAt(t, p)), bits, v, b, u) &&
                r == match u
                     case UnpackError => None
                     case Value(x) =>
                       if !v.PyPtr? then Some(x)
                       else match x
                         case PyInt(n) => Some(PyPtr(Some(n), v.cache))
                         case PyNone => Some(PyPtr(None, v.cache))
                         case _ => None
  }

  lemma LeafIsFetched(w: View, base: nat, t: DIType, bits: nat, p: Path, v: PyValue)
    requires WellFormed(t) && ValidPath(t, p) && Conforms(t, p, v) && Addressable(t, p)
    requires !Container(v) && !v.PyNone? && Covers(w, LeafAddr(base, t, p), RecordedSize(t, p))
    ensures LeafFetched(t, bits, p, v, ViewRead(w, LeafAddr(base, t, p), RecordedSize(t, p)),
                        ReadBack(w, base, t, bits, p, v))
  {
    hide ReadAs, Decode, Covers, Conforms, PlaceOf, StopsAtElementRecord;
    var b := ViewRead(w, LeafAddr(base, t, p), RecordedSize(t, p));
    LeafUnpacked(t, bits, p, v, b);
    NothingToRead(LeafKind(t, p), bits, v, b);
  }

  method GetStructPrimitive(irx: MyInterpreter, t: DIType, base: nat, data: PyValue, path: seq<string>, bits: nat,
                            ghost p: Path, ghost b: nat) returns (r: Unpacked)
    requires irx.Mapped() && ValidPath(t, p) && LeafOk(t, p) && path == Designators(t, p)
    requires Within(irx.allocator.vvmemStart, b, base, Size(t)) && NoOverread(t, [Leaf(p, data)])
    ensures r == ReadLeaf(irx.View(), base, t, bits, p, data)
  {
    LeafInfo(t, p);
    assert [Leaf(p, data)][0].path == p;
    var info := GetStructFieldInfo2(t, path);
    if !info.Info? { return UnpackError; }
    if info.info.bytes == 0 { return Value(PyNone); }
    var bytes := irx.StructGet(t, base, path, info.info.bytes, p, b, LeafAddr(base, t, p));
    if bytes.None? { return UnpackError; }
    return Decode(KindOf(info.info.basicType), bits, bytes.value, data);
  }

  /** get_struct: every leaf of `v` is replaced by what memory holds for it. */
  method GetStruct(irx: MyInterpreter, t: DIType, base: nat, v: PyValue, path: seq<string>, bits: nat,
                   ghost p: Path, ghost b: nat) returns (r: Option<PyValue>)
    requires irx.Mapped() && WellFormed(t) && ValidPath(t, p) && Conforms(t, p, v) && path == Designators(t, p)
    requires Within(irx.allocator.vvmemStart, b, base, Size(t)) && NoOverread(t, Leaves(t, p, v))
    ensures r == ReadBack(irx.View(), base, t, bits, p, v)
    ensures !Container(v) && !v.PyNone? && Addressable(t, p) ==>
              var a, n := LeafAddr(base, t, p), RecordedSize(t, p);
              Covers(irx.View(), a, n) && LeafFetched(t, bits, p, v, ViewRead(irx.View(), a, n), r)
    decreases v
  {
    hide NoOverread, LeafOk, ReadLeaf;
    if Container(v) {
      var children := [];
      for k := 0 to Count(v)
        invariant ReadChildren(irx.View(), base, t, bits, p, v, k) == Some(children)
      {
        ChildSpelling(t, p, v, k);
        ChildReadable(t, p, v, k);
        var c := GetStruct(irx, t, base, ChildValue(v, k), path + [ChildName(v, k)], bits, ChildPath(t, p, v, k), b);
        if c.None? {
          ReadingStops(irx.View(), base, t, bits, p, v, k + 1);
          return None;
        }
        children := children + [c.value];
      }
      return Some(WithChildren(v, children));
    } else if v.PyNone? {
      return Some(PyNone);
    } else {
      if Addressable(t, p) {
        irx.Covered(b, base, Size(t));
        LeafInBounds(t, base, p, v, irx.View());
        LeafIsFetched(irx.View(), base, t, bits, p, v);
      }
      var u := GetStructPrimitive(irx, t, base, v, path, bits, p, b);
      return Overwritten(v, u);
    }
  }

  lemma LeafInBounds(t: DIType, base: nat, p: Path, v: PyValue, w: View)
    requires ValidPath(t, p) && Addressable(t, p) && NoOverread(t, [Leaf(p, v)]) && Covers(w, base, Size(t))
    ensures Covers(w, LeafAddr(base, t, p), RecordedSize(t, p))
  {
    assert [Leaf(p, v)][0].path == p;
    CoversPart(w, base, Size(t), LeafAddr(base, t, p), RecordedSize(t, p));
  }

  lemma ChildReadable(t: DIType, p: Path, v: PyValue, k: nat)
    requires ValidPath(t, p) && Container(v) && Conforms(t, p, v) && k < Count(v)
    requires NoOverread(t, Leaves(t, p, v))
    ensures NoOverread(t, Leaves(t, ChildPath(t, p, v, k), ChildValue(v, k)))
  {
    hide NoOverread;
    var rest := RestOfLeaves(t, p, v, k);
    var child := Leaves(t, ChildPath(t, p, v, k), ChildValue(v, k));
    NoOverflowParts(t, 0, ChildLeaves(t, p, v, k), child + rest);
    NoOverflowParts(t, 0, child, rest);
  }

  lemma {:induction false} ReadingStops(w: View, base: nat, t: DIType, bits: nat, p: Path, v: PyValue, k: nat)
    requires ValidPath(t, p) && Container(v) && Conforms(t, p, v) && k <= Count(v)
    requires ReadChildren(w, base, t, bits, p, v, k) == None
    ensures ReadChildren(w, base, t, bits, p, v, Count(v)) == None
    decreases Count(v) - k
  {
    if k < Count(v) { ReadingStops(w, base, t, bits, p, v, k + 1); }
  }

  // ---- A fresh object has the leaves of the object it is compared with ----

  predicate SamePaths(a: seq<Leaf>, b: seq<Leaf>) {
    |a| == |b| && forall i | 0 <= i < |a| :: a[i].path == b[i].path
  }

  lemma {:induction false} LikeLeaves(t: DIType, p: Path, v: PyValue, y: PyValue)
    requires ValidPath(t, p) && Conforms(t, p, v) && Conforms(t, p, y) && Like(v, y)
    ensures SamePaths(Leaves(t, p, v), Leaves(t, p, y))
    decreases v, 1, 0
  {
    if Container(v) { LikeChildLeaves(t, p, v, y, Count(v)); }
  }

  lemma {:induction false} LikeChildLeaves(t: DIType, p: Path, v: PyValue, y: PyValue, n: nat)
    requires ValidPath(t, p) && Container(v) && n <= Count(v)
    requires Conforms(t, p, v) && Conforms(t, p, y) && Like(v, y)
    ensures SamePaths(ChildLeaves(t, p, v, n), ChildLeaves(t, p, y, n))
    decreases v, 0, n
  {
    hide Leaves, LeafOk, ChildLeaves, SamePaths, ChildSteps;
    if n > 0 {
      var k := n - 1;
      LikeChildLeaves(t, p, v, y, k);
      LikePaths(t, p, v, y, k);
      LikeLeaves(t, ChildPath(t, p, v, k), ChildValue(v, k), ChildValue(y, k));
      LastChildLeaves(t, p, v, n);
      LastChildLeaves(t, p, y, n);
      SamePathsBoth(ChildLeaves(t, p, v, k), ChildLeaves(t, p, y, k),
                    Leaves(t, ChildPath(t, p, v, k), ChildValue(v, k)),
                    Leaves(t, ChildPath(t, p, v, k), ChildValue(y, k)));
    } else {
      assert SamePaths(ChildLeaves(t, p, v, 0), ChildLeaves(t, p, y, 0)) by { NoChildLeaves(t, p, v, y); }
    }
  }

  lemma NoChildLeaves(t: DIType, p: Path, v: PyValue, y: PyValue)
    requires ValidPath(t, p) && Container(v) && Container(y) && Conforms(t, p, v) && Conforms(t, p, y)
    ensures SamePaths(ChildLeaves(t, p, v, 0), ChildLeaves(t, p, y, 0))
  {
  }

  lemma SamePathsBoth(a: seq<Leaf>, b: seq<Leaf>, c: seq<Leaf>, d: seq<Leaf>)
    requires SamePaths(a, b) && SamePaths(c, d)
    ensures SamePaths(a + c, b + d)
  {
  }

  lemma LikePaths(t: DIType, p: Path, v: PyValue, y: PyValue, k: nat)
    requires ValidPath(t, p) && Container(v) && k < Count(v)
    requires Conforms(t, p, v) && Conforms(t, p, y) && Like(v, y)
    ensures Container(y) && k < Count(y) && Like(ChildValue(v, k), ChildValue(y, k))
    ensures ChildSteps(TypeAt(t, p), v, k) == ChildSteps(TypeAt(t, p), y, k)
    ensures ChildPath(t, p, v, k) == ChildPath(t, p, y, k)
  {
    assert ChildName(v, k) == ChildName(y, k);
  }

  // ---- The theorem ----

  /** An object whose leaves are in range and found inside it, with no two set leaves in
      the same place, and a fresh object of its class. */
  ghost predicate Uploadable(t: DIType, bits: nat, v: PyValue, fresh': PyValue) {
    && t.Struct? && WellFormed(t)
    && Conforms(t, [], v) && Conforms(t, [], fresh') && Like(v, fresh')
    && AllReady(t, bits, Leaves(t, [], v))
    && AllPlacesApart(t, bits, Leaves(t, [], v))
  }

  /** Where the walk is right for every leaf, it is enough that at most one member of each
      union is set. */
  lemma PlacesFromUnions(t: DIType, bits: nat, v: PyValue)
    requires WellFormed(t) && ValidPath(t, []) && Conforms(t, [], v)
    requires AllRight(t, Leaves(t, [], v)) && OnePerUnion(t, bits, Leaves(t, [], v))
    ensures AllPlacesApart(t, bits, Leaves(t, [], v))
    ensures forall l | l in Leaves(t, [], v) :: ValidPath(t, l.path) && Inside(t, l.path)
  {
    LeavesApart(t, [], v);
    OnePerUnionApart(t, bits, Leaves(t, [], v));
  }

  /** The fresh object can be read from where the object was written. */
  lemma FreshReadable(t: DIType, bits: nat, v: PyValue, fresh': PyValue)
    requires Uploadable(t, bits, v, fresh')
    ensures ValidPath(t, []) && NoOverread(t, Leaves(t, [], fresh')) && NoOverflow(t, bits, Leaves(t, [], v))
  {
    LikeLeaves(t, [], v, fresh');
    var ls, fs := Leaves(t, [], v), Leaves(t, [], fresh');
    forall i | 0 <= i < |fs|
      ensures ls[i].path == fs[i].path && Ready(t, bits, ls[i])
    {
    }
    AllReadyEncodable(t, bits, ls);
    forall i | 0 <= i < |ls| ensures Encodable(t, bits, ls[i]) {
    }
  }

  /** Writing the object and reading it into a fresh one ends in a report, and the report
      is empty exactly if every leaf comes back: no leaf but a pointer is an element of an
      array of a typedef. It does not matter whether the leaves are where C puts them. */
  lemma ObjectRoundTrip(w: View, base: nat, t: DIType, bits: nat, v: PyValue, fresh': PyValue)
    requires Uploadable(t, bits, v, fresh') && Covers(w, base, Size(t))
    ensures var r := UploadLeaves(w, base, t, bits, Leaves(t, [], v));
            && r.ending == Finished
            && HoldsLeaves(r.view, base, t, bits, Leaves(t, [], v))
            && SameOutside(w, r.view, base, Size(t))
            && ReadBack(r.view, base, t, bits, [], fresh').Some?
            && var report := Mismatches(v, ReadBack(r.view, base, t, bits, [], fresh').value, []);
               report.Some? && (report == Some([]) <==> AllComeBack(t, Leaves(t, [], v)))
  {
    var ls := Leaves(t, [], v);
    AllReadyEncodable(t, bits, ls);
    UploadIsWrites(w, base, t, bits, ls);
    UploadHolds(w, base, t, bits, ls);
    WritesStayInside(w, base, t, bits, ls);
    var u := WriteLeaves(w, base, t, bits, ls);
    assert Covers(u, base, Size(t));
    HeldReadsBack(u, base, t, bits, [], v, fresh', []);
  }
}
