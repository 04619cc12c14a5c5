// What an upload leaves behind: the graph of Python objects, in interpreter memory.
module UploadedGraph {
  import opened Common
  import opened ByteMemory
  import opened DebugTypes
  import opened TypePaths
  import opened FlatView
  import opened PyValues
  import opened Diff
  import opened Primitives
  import opened Marshaller
  import opened Upload
  import opened RoundTrip
  import opened Marshalling
  import opened ObjectGraph
  import opened UploadPlan
  import opened ProxyWorld
  import opened ProxySteps

  // ---- Before the first upload ----

  ghost function PlanOf(os: Objects): map<Id, PyValue> {
    map i | i in os :: Settled(os[i].body)
  }

  /** New objects with nothing registered are a world `put` can start from. */
  lemma FirstUpload(w: World, bits: nat)
    requires w.registered == map[] && w.objectMap == map[] && BelowEnd(w.starts)
    requires forall i | i in w.objects ::
               && w.objects[i].addr.None?
               && Uploadable(w.objects[i].ty, bits, Settled(w.objects[i].body), w.objects[i].fresh')
               && PointersIn(w.objects[i].body, PointerLimit(bits))
               && RefsOk(w.objects, w.objects[i].body)
    ensures WorldOk(w, PlanOf(w.objects), bits) && RegisteredComplete(w, bits)
  {
    hide Uploadable, FitsPlan, PointersIn, RefsOk;
    forall i | i in w.objects
      ensures ObjectOk(w.objects[i], PlanOf(w.objects)[i], bits)
    {
      SettledFits(w.objects[i].body, PointerLimit(bits));
    }
  }

  // ---- The whole graph ----

  ghost predicate RegisteredComplete(w: World, bits: nat) {
    forall i | i in w.registered :: Complete(w, i, bits)
  }

  /** Once all registered objects are uploaded, they stay so over any further uploads. */
  lemma RegisteredStayComplete(w: World, w': World, bits: nat)
    requires RegisteredComplete(w, bits) && Progressed(w, w', {}, bits)
    ensures RegisteredComplete(w', bits)
  {
    hide Uploaded, ObjectsKept, MemoryKept, TargetsReached;
    forall i | i in w'.registered
      ensures Complete(w', i, bits)
    {
      if i in w.registered { assert Complete(w, i, bits); }
    }
  }

  /** Everything that could be reached from the uploaded object is uploaded. */
  lemma {:induction false} GraphUploaded(w: World, w': World, path: seq<Id>, bits: nat)
    requires Progressed(w, w', {}, bits) && RegisteredComplete(w, bits)
    requires Chain(w.objects, path) && Complete(w', path[0], bits)
    ensures Complete(w', path[|path| - 1], bits)
    decreases path
  {
    if |path| > 1 {
      NextUploaded(w, w', path[0], path[1], bits);
      assert path[1..][|path| - 2] == path[|path| - 1];
      assert forall k | 0 <= k < |path| - 1 :: path[1..][k] == path[k + 1];
      forall k | 0 <= k < |path| - 2
        ensures HasPointerTo(w.objects[path[1..][k]].body, path[1..][k + 1])
      {
        assert HasPointerTo(w.objects[path[k + 1]].body, path[k + 1 + 1]);
      }
      GraphUploaded(w, w', path[1..], bits);
    }
  }

  lemma NextUploaded(w: World, w': World, i: Id, j: Id, bits: nat)
    requires Progressed(w, w', {}, bits) && RegisteredComplete(w, bits)
    requires i in w.objects && HasPointerTo(w.objects[i].body, j) && Complete(w', i, bits)
    ensures Complete(w', j, bits)
  {
    hide ObjectsKept, MemoryKept, HoldsLeaves;
    var at, c :| Targets(w.objects[i].body, at, c) && c.target == j;
    PendingSlotsAt(w'.objects[i].body, at);
    assert Reached(w, w', j, {}, bits);
    if j in w.registered { assert Complete(w, j, bits); }
  }

  /** An upload that ended well has met nothing that does not come back. */
  lemma NobodyBlamed(w: World, w': World, i: Id, plan: map<Id, PyValue>, bits: nat)
    requires Progressed(w, w', {}, bits) && RegisteredComplete(w, bits) && Complete(w', i, bits)
    requires WorldOk(w', plan, bits)
    ensures !Blamed(w.objects, plan, i)
  {
    hide UploadsKept, MemoryKept, TargetsReached, PlacesNew, ObjectsKept, RegisteredComplete, WorldOk, Returns,
         Complete;
    forall j | Reaches(w.objects, i, j) && j in w.objects && j in plan
      ensures Returns(w.objects[j], plan[j])
    {
      var path :| Chain(w.objects, path) && path[0] == i && path[|path| - 1] == j;
      GraphUploaded(w, w', path, bits);
      CompleteReturns(w, w', j, plan, bits);
    }
  }

  lemma CompleteReturns(w: World, w': World, j: Id, plan: map<Id, PyValue>, bits: nat)
    requires ObjectsKept(w, w') && WorldOk(w', plan, bits) && Complete(w', j, bits)
    ensures j in w.objects && j in plan && Returns(w.objects[j], plan[j])
  {
    hide Separate, Housed, RefsOk, HoldsLeaves, Evolves;
    assert SameObject(w.objects[j], w'.objects[j], AddressesOf(w'.objects));
    var o := w'.objects[j];
    assert ObjectOk(o, plan[j], bits);
    PlanComesBack(o.ty, plan[j], o.body, PointerLimit(bits));
  }

  // ---- Linked pointers, in the object and in memory ----

  /** The C path of a position in the object. */
  ghost function SlotPath(t: DIType, p: Path, v: PyValue, at: Position): Path
    requires ValidPath(t, p) && Conforms(t, p, v) && HasAt(v, at)
    decreases at
  {
    if at == [] then p else SlotPath(t, ChildPath(t, p, v, at[0]), v.fields[at[0]].value, at[1..])
  }

  lemma {:induction false} ChildLeavesInclude(t: DIType, p: Path, v: PyValue, k: nat, n: nat, l: Leaf)
    requires ValidPath(t, p) && Container(v) && k < n <= Count(v) && Conforms(t, p, v)
    requires l in Leaves(t, ChildPath(t, p, v, k), ChildValue(v, k))
    ensures l in ChildLeaves(t, p, v, n)
    decreases n
  {
    if k < n - 1 { ChildLeavesInclude(t, p, v, k, n - 1, l); }
  }

  /** The value at a position is a leaf, at that position's path. */
  lemma {:induction false} SlotIsLeaf(t: DIType, p: Path, v: PyValue, at: Position)
    requires ValidPath(t, p) && Conforms(t, p, v) && HasAt(v, at) && At(v, at).PyPtr?
    ensures Leaf(SlotPath(t, p, v, at), At(v, at)) in Leaves(t, p, v)
    decreases at
  {
    if at != [] {
      var k := at[0];
      SlotIsLeaf(t, ChildPath(t, p, v, k), v.fields[k].value, at[1..]);
      ChildLeavesInclude(t, p, v, k, Count(v), Leaf(SlotPath(t, p, v, at), At(v, at)));
    }
  }

  /** A pointer that named a target now holds the target's address plus the offset. */
  lemma PointerLinked(w: World, w': World, i: Id, at: Position, c: ObjectOffset, bits: nat)
    requires ObjectsKept(w, w') && i in w.objects && Targets(w.objects[i].body, at, c) && Complete(w', i, bits)
    ensures HasAt(w'.objects[i].body, at) && c.target in AddressesOf(w'.objects)
    ensures At(w'.objects[i].body, at) == PyPtr(Some(AddressesOf(w'.objects)[c.target] + c.offset), None)
  {
    hide HoldsLeaves, Conforms, Evolves, HasAt, At;
    var addr := AddressesOf(w'.objects);
    assert SameObject(w.objects[i], w'.objects[i], addr);
    SlotLinked(w.objects[i].body, w'.objects[i].body, at, c, addr);
  }

  lemma SlotLinked(x: PyValue, y: PyValue, at: Position, c: ObjectOffset, addr: Addresses)
    requires Evolves(x, y, addr) && PendingSlots(y) == {} && Targets(x, at, c)
    ensures HasAt(y, at) && c.target in addr && At(y, at) == PyPtr(Some(addr[c.target] + c.offset), None)
  {
    EvolvesAt(x, y, addr, at);
    PendingSlotsAt(y, at);
  }

  /** And so does the pointer's field in interpreter memory. */
  lemma LinkInMemory(w: World, w': World, i: Id, at: Position, c: ObjectOffset, plan: map<Id, PyValue>, bits: nat)
    requires ObjectsKept(w, w') && i in w.objects && Targets(w.objects[i].body, at, c) && Complete(w', i, bits)
    requires WorldOk(w', plan, bits)
    ensures HasAt(w'.objects[i].body, at) && c.target in AddressesOf(w'.objects)
    ensures var o := w'.objects[i];
            var p := SlotPath(o.ty, [], o.body, at);
            && ValidPath(o.ty, p)
            && Covers(w'.view, LeafAddr(o.addr.value, o.ty, p), LeafSize(o.ty, p))
            && FromLe(ViewRead(w'.view, LeafAddr(o.addr.value, o.ty, p), LeafSize(o.ty, p))) ==
               AddressesOf(w'.objects)[c.target] + c.offset
  {
    hide Separate, Housed, MapsAgree, RefsOk, SameObject;
    PointerLinked(w, w', i, at, c, bits);
    assert ObjectOk(w'.objects[i], plan[i], bits);
    StoredPointer(w'.view, w'.objects[i], plan[i], at, bits);
  }

  lemma StoredPointer(w: View, o: PyObj, plan: PyValue, at: Position, bits: nat)
    requires ObjectOk(o, plan, bits) && Uploaded(w, o, bits)
    requires HasAt(o.body, at) && At(o.body, at).PyPtr? && At(o.body, at).ptr.Some?
    ensures var p := SlotPath(o.ty, [], o.body, at);
            && ValidPath(o.ty, p)
            && Covers(w, LeafAddr(o.addr.value, o.ty, p), LeafSize(o.ty, p))
            && FromLe(ViewRead(w, LeafAddr(o.addr.value, o.ty, p), LeafSize(o.ty, p))) == At(o.body, at).ptr.value
  {
    hide FitsPlan, AllPlacesApart, Decode;
    PlannedUploadable(o.ty, bits, plan, o.body, o.fresh');
    SlotIsLeaf(o.ty, [], o.body, at);
    var l := Leaf(SlotPath(o.ty, [], o.body, at), At(o.body, at));
    var ls := Leaves(o.ty, [], o.body);
    var k :| 0 <= k < |ls| && ls[k] == l;
    assert Ready(o.ty, bits, ls[k]) && HoldsLeaf(w, o.addr.value, o.ty, bits, ls[k]);
    PointerBytes(o.ty, bits, l);
  }

  lemma PointerBytes(t: DIType, bits: nat, l: Leaf)
    requires Ready(t, bits, l) && l.value.PyPtr? && l.value.ptr.Some?
    ensures Written(t, bits, l) && |EncodeLeaf(t, bits, l).bytes| == LeafSize(t, l.path)
    ensures FromLe(EncodeLeaf(t, bits, l).bytes) == l.value.ptr.value
  {
    hide Decode;
    ReadyIsEncodable(t, bits, l);
    LeRoundTrip(l.value.ptr.value, LeafSize(t, l.path));
  }

  /** Equal pointers point at the same place of the same object: the memory graph has
      the shape of the Python graph. */
  lemma SamePlace(w: World, plan: map<Id, PyValue>, c: ObjectOffset, d: ObjectOffset, bits: nat)
    requires WorldOk(w, plan, bits) && c.target in AddressesOf(w.objects) && d.target in AddressesOf(w.objects)
    requires c.offset < Size(w.objects[c.target].ty) && d.offset < Size(w.objects[d.target].ty)
    ensures AddressesOf(w.objects)[c.target] + c.offset == AddressesOf(w.objects)[d.target] + d.offset <==> c == d
  {
    hide ObjectOk, RefsOk, Housed, MapsAgree;
    if c.target != d.target {
      assert Separate(w.objects[c.target], w.objects[d.target]);
    }
  }

  /** An uploaded object is registered where its address says, so dereferencing that
      address finds the object itself; and read from memory into a new object it shows no
      difference. */
  lemma UploadedReadsBack(w: World, plan: map<Id, PyValue>, i: Id, bits: nat)
    requires WorldOk(w, plan, bits) && Complete(w, i, bits)
    ensures i in w.registered ==> w.objects[i].addr.value in w.objectMap && w.objectMap[w.objects[i].addr.value] == i
    ensures var o := w.objects[i];
            && ValidPath(o.ty, []) && Conforms(o.ty, [], o.fresh')
            && ReadBack(w.view, o.addr.value, o.ty, bits, [], o.fresh').Some?
            && Mismatches(o.body, ReadBack(w.view, o.addr.value, o.ty, bits, [], o.fresh').value, []) == Some([])
  {
    hide Separate, RefsOk, Mismatches, FitsPlan, ReadBack;
    var o := w.objects[i];
    assert ObjectOk(o, plan[i], bits) && Housed(w, o);
    ObjectLeaves(o, plan[i], bits);
    HeldReadsBack(w.view, o.addr.value, o.ty, bits, [], o.body, o.fresh', []);
  }

  /** An old address in an object was in it before. */
  lemma OldAddressInOldObject(w: World, w': World, i: Id, k: nat)
    requires ObjectsKept(w, w') && PlacesNew(w, w') && k in w.view && InObject(w', i, k)
    ensures InObject(w, i, k)
  {
    hide Evolves;
    assert SameObject(w.objects[i], w'.objects[i], AddressesOf(w'.objects));
    if GivenAddress(w, w', i) {
    }
  }

  /** Memory that belonged to no object is as it was: new objects lie in memory that was
      not there before. */
  lemma ForeignMemoryKept(w: World, w': World, k: nat, bits: nat)
    requires Progressed(w, w', {}, bits) && k in w.view && forall i | i in w.objects :: !InObject(w, i, k)
    ensures k in w'.view && w'.view[k] == w.view[k]
  {
    hide Uploaded, UploadsKept, TargetsReached, ObjectsKept, PlacesNew;
    if w'.view[k] != w.view[k] {
      var i :| InObject(w', i, k) && (i in {} || Complete(w', i, bits));
      OldAddressInOldObject(w, w', i, k);
    }
  }
}
