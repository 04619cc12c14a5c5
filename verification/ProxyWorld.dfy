// What an upload works on: the Python objects, the addresses they have been given, and
// interpreter memory; and what every step of an upload keeps.
module ProxyWorld {
  import opened Common
  import opened DebugTypes
  import opened TypePaths
  import opened AddressSpace
  import opened FlatView
  import opened PyValues
  import opened Marshaller
  import opened Upload
  import opened RoundTrip
  import opened Marshalling
  import opened ObjectGraph
  import opened UploadPlan

  /** A dataclass object: its C type, its address once it has one, its fields, and the
      fields of a new object of its class. */
  datatype PyObj = PyObj(ty: DIType, addr: Option<nat>, body: PyValue, fresh': PyValue)

  type Objects = map<Id, PyObj>

  /** The state an upload changes. `starts` are the allocator's blocks. */
  datatype World = World(objects: Objects, registered: Addresses, objectMap: map<nat, Id>,
                         starts: AllocationMap, view: View)

  ghost function AddressesOf(os: Objects): Addresses {
    map i | i in os && os[i].addr.Some? :: os[i].addr.value
  }

  /** All pointers that still name a target. */
  ghost function PendingIn(os: Objects): set<(Id, Position)> {
    set i, at | i in os && at in PendingSlots(os[i].body) :: (i, at)
  }

  // ---- Well-formed worlds ----

  ghost predicate ObjectOk(o: PyObj, plan: PyValue, bits: nat) {
    Uploadable(o.ty, bits, plan, o.fresh') && FitsPlan(plan, o.body, PointerLimit(bits))
  }

  ghost predicate RefOk(os: Objects, c: ObjectOffset) {
    c.target in os && c.offset <= Size(os[c.target].ty)
  }

  /** Pending pointers name known objects, and places in them. */
  ghost predicate RefsOk(os: Objects, v: PyValue) {
    forall at | HasAt(v, at) && Pending(At(v, at)) :: RefOk(os, At(v, at).cache.value)
  }

  /** An object with an address lies inside one block. */
  ghost predicate Housed(w: World, o: PyObj) {
    o.addr.Some? ==>
      && Covers(w.view, o.addr.value, Size(o.ty))
      && exists b: nat :: Within(w.starts, b, o.addr.value, Size(o.ty))
  }

  predicate Separate(x: PyObj, y: PyObj) {
    x.addr.Some? && y.addr.Some? ==>
      x.addr != y.addr && Disjoint(x.addr.value, Size(x.ty), y.addr.value, Size(y.ty))
  }

  ghost predicate AllSeparate(os: Objects) {
    forall i, j | i in os && j in os && i != j :: Separate(os[i], os[j])
  }

  /** The two object maps are inverse to each other and agree with the objects. */
  ghost predicate MapsAgree(w: World) {
    && (forall i | i in w.registered ::
          && i in w.objects && w.objects[i].addr == Some(w.registered[i])
          && w.registered[i] in w.objectMap && w.objectMap[w.registered[i]] == i)
    && (forall a | a in w.objectMap :: w.objectMap[a] in w.registered && w.registered[w.objectMap[a]] == a)
  }

  ghost predicate AllObjectsOk(os: Objects, plan: map<Id, PyValue>, bits: nat) {
    os.Keys == plan.Keys && forall i | i in os :: ObjectOk(os[i], plan[i], bits)
  }

  ghost predicate AllRefsOk(os: Objects) {
    forall i | i in os :: RefsOk(os, os[i].body)
  }

  ghost predicate AllHoused(w: World) {
    forall i | i in w.objects :: Housed(w, w.objects[i])
  }

  ghost predicate WorldOk(w: World, plan: map<Id, PyValue>, bits: nat) {
    && AllObjectsOk(w.objects, plan, bits)
    && AllRefsOk(w.objects)
    && AllHoused(w)
    && AllSeparate(w.objects)
    && MapsAgree(w)
    && BelowEnd(w.starts)
  }

  // ---- Uploaded objects ----

  /** The object has an address, none of its pointers names a target, memory holds every
      leaf of it, and every leaf comes back when it is read. */
  ghost predicate Uploaded(v: View, o: PyObj, bits: nat) {
    && o.addr.Some? && PendingSlots(o.body) == {}
    && ValidPath(o.ty, []) && Conforms(o.ty, [], o.body)
    && HoldsLeaves(v, o.addr.value, o.ty, bits, Leaves(o.ty, [], o.body))
    && AllComeBack(o.ty, Leaves(o.ty, [], o.body))
  }

  ghost predicate Complete(w: World, i: Id, bits: nat) {
    i in w.objects && Uploaded(w.view, w.objects[i], bits)
  }

  // ---- What a step of an upload keeps ----

  /** The object keeps its type and address, and only pending pointers are rewritten:
      each to its target's address plus the offset. */
  ghost predicate SameObject(x: PyObj, y: PyObj, addr: Addresses) {
    && y.ty == x.ty && y.fresh' == x.fresh'
    && (x.addr.Some? ==> y.addr == x.addr)
    && Evolves(x.body, y.body, addr)
  }

  ghost predicate ObjectsKept(w: World, w': World) {
    && w'.objects.Keys == w.objects.Keys
    && forall i | i in w.objects :: SameObject(w.objects[i], w'.objects[i], AddressesOf(w'.objects))
  }

  /** Objects that are `open` are being worked on by a caller. */
  ghost predicate UploadsKept(w: World, w': World, open: set<Id>, bits: nat) {
    && (forall i | Complete(w, i, bits) :: Complete(w', i, bits))
    && (forall i | i in w.objects && i in w'.objects && i !in open ::
          w'.objects[i] == w.objects[i] || Complete(w', i, bits))
    && Below(w.registered, w'.registered)
    && (forall i | i in w'.registered && i !in open :: i in w.registered || Complete(w', i, bits))
  }

  ghost predicate InObject(w: World, i: Id, k: nat) {
    && i in w.objects && w.objects[i].addr.Some?
    && w.objects[i].addr.value <= k < w.objects[i].addr.value + Size(w.objects[i].ty)
  }

  ghost predicate InWorkedOn(w: World, k: nat, open: set<Id>, bits: nat) {
    exists i :: InObject(w, i, k) && (i in open || Complete(w, i, bits))
  }

  /** Blocks stay, and memory changes only inside uploaded objects. */
  ghost predicate MemoryKept(w: World, w': World, open: set<Id>, bits: nat) {
    && (forall s | s in w.starts :: s in w'.starts && w'.starts[s] == w.starts[s])
    && forall k | k in w.view :: k in w'.view && (w'.view[k] == w.view[k] || InWorkedOn(w', k, open, bits))
  }

  /** The slot at `at` names `c`. */
  predicate Targets(v: PyValue, at: Position, c: ObjectOffset) {
    HasAt(v, at) && Pending(At(v, at)) && At(v, at).cache == Some(c)
  }

  ghost predicate GivenAddress(w: World, w': World, i: Id) {
    i in w.objects && i in w'.objects && w.objects[i].addr.None? && w'.objects[i].addr.Some?
  }

  /** Objects that got an address are registered, and lie in memory that was not there. */
  ghost predicate PlacesNew(w: World, w': World) {
    forall i | GivenAddress(w, w', i) ::
      && i in w'.registered
      && forall k | k in w.view :: !InObject(w', i, k)
  }

  ghost predicate Reached(w: World, w': World, t: Id, open: set<Id>, bits: nat) {
    t in w.registered || t in open || Complete(w', t, bits)
  }

  /** Whatever a pointer has stopped naming was registered before or is uploaded. */
  ghost predicate TargetsReached(w: World, w': World, open: set<Id>, bits: nat) {
    forall i, at, c | i in w.objects && i in w'.objects && Targets(w.objects[i].body, at, c) ::
      Targets(w'.objects[i].body, at, c) || Reached(w, w', c.target, open, bits)
  }

  ghost predicate Progressed(w: World, w': World, open: set<Id>, bits: nat) {
    && ObjectsKept(w, w') && UploadsKept(w, w', open, bits) && MemoryKept(w, w', open, bits)
    && TargetsReached(w, w', open, bits) && PlacesNew(w, w')
  }

  lemma NothingDone(w: World, open: set<Id>, bits: nat)
    ensures Progressed(w, w, open, bits)
  {
    forall i | i in w.objects
      ensures SameObject(w.objects[i], w.objects[i], AddressesOf(w.objects))
    {
      EvolvesItself(w.objects[i].body, AddressesOf(w.objects));
    }
  }

  lemma AddressesKept(w: World, w': World)
    requires ObjectsKept(w, w')
    ensures Below(AddressesOf(w.objects), AddressesOf(w'.objects))
  {
    forall i | i in AddressesOf(w.objects)
      ensures i in AddressesOf(w'.objects) && AddressesOf(w'.objects)[i] == AddressesOf(w.objects)[i]
    {
      assert SameObject(w.objects[i], w'.objects[i], AddressesOf(w'.objects));
    }
  }

  lemma ObjectsKeptTwice(a: World, b: World, c: World)
    requires ObjectsKept(a, b) && ObjectsKept(b, c)
    ensures ObjectsKept(a, c)
  {
    AddressesKept(b, c);
    forall i | i in a.objects
      ensures SameObject(a.objects[i], c.objects[i], AddressesOf(c.objects))
    {
      assert SameObject(a.objects[i], b.objects[i], AddressesOf(b.objects));
      assert SameObject(b.objects[i], c.objects[i], AddressesOf(c.objects));
      EvolvesTransitive(a.objects[i].body, b.objects[i].body, c.objects[i].body, AddressesOf(b.objects),
                        AddressesOf(c.objects));
    }
  }

  lemma MemoryKeptTwice(a: World, b: World, c: World, open: set<Id>, bits: nat)
    requires ObjectsKept(b, c) && UploadsKept(b, c, open, bits)
    requires MemoryKept(a, b, open, bits) && MemoryKept(b, c, open, bits)
    ensures MemoryKept(a, c, open, bits)
  {
    forall k | k in a.view && k in c.view && c.view[k] != a.view[k]
      ensures InWorkedOn(c, k, open, bits)
    {
      if b.view[k] != a.view[k] {
        var i :| InObject(b, i, k) && (i in open || Complete(b, i, bits));
        assert SameObject(b.objects[i], c.objects[i], AddressesOf(c.objects));
        assert InObject(c, i, k);
      }
    }
  }

  lemma TargetsReachedTwice(a: World, b: World, c: World, open: set<Id>, bits: nat)
    requires a.objects.Keys == b.objects.Keys == c.objects.Keys
    requires UploadsKept(a, b, open, bits) && UploadsKept(b, c, open, bits)
    requires TargetsReached(a, b, open, bits) && TargetsReached(b, c, open, bits)
    ensures TargetsReached(a, c, open, bits)
  {
    hide Complete, Targets;
    forall i, at, t | i in a.objects && Targets(a.objects[i].body, at, t)
      ensures Targets(c.objects[i].body, at, t) || Reached(a, c, t.target, open, bits)
    {
      if Targets(b.objects[i].body, at, t) {
        assert Targets(c.objects[i].body, at, t) || Reached(b, c, t.target, open, bits);
      } else {
        assert Reached(a, b, t.target, open, bits);
      }
    }
  }

  lemma PlacesNewTwice(a: World, b: World, c: World)
    requires ObjectsKept(a, b) && ObjectsKept(b, c) && Below(b.registered, c.registered) && a.view.Keys <= b.view.Keys
    requires PlacesNew(a, b) && PlacesNew(b, c)
    ensures PlacesNew(a, c)
  {
    forall i | GivenAddress(a, c, i)
      ensures i in c.registered && forall k | k in a.view :: !InObject(c, i, k)
    {
      if b.objects[i].addr.Some? {
        assert GivenAddress(a, b, i);
        assert SameObject(b.objects[i], c.objects[i], AddressesOf(c.objects));
        assert forall k | k in a.view :: InObject(c, i, k) ==> InObject(b, i, k);
      } else {
        assert GivenAddress(b, c, i);
      }
    }
  }

  /** Steps compose: what each keeps, all of them keep. */
  lemma ProgressTwice(a: World, b: World, c: World, open: set<Id>, bits: nat)
    requires Progressed(a, b, open, bits) && Progressed(b, c, open, bits)
    ensures Progressed(a, c, open, bits)
  {
    ObjectsKeptTwice(a, b, c);
    MemoryKeptTwice(a, b, c, open, bits);
    TargetsReachedTwice(a, b, c, open, bits);
    PlacesNewTwice(a, b, c);
  }

  /** An object that is complete in the end need not be called open. */
  lemma Closed(w: World, w': World, i: Id, bits: nat)
    requires Progressed(w, w', {i}, bits) && Complete(w', i, bits)
    ensures Progressed(w, w', {}, bits)
  {
    forall k | k in w.view && k in w'.view && w'.view[k] != w.view[k]
      ensures InWorkedOn(w', k, {}, bits)
    {
      var j :| InObject(w', j, k) && (j in {i} || Complete(w', j, bits));
      assert Complete(w', j, bits);
    }
  }

  lemma Opened(w: World, w': World, open: set<Id>, bits: nat)
    requires Progressed(w, w', {}, bits)
    ensures Progressed(w, w', open, bits)
  {
    forall k | k in w.view && k in w'.view && w'.view[k] != w.view[k]
      ensures InWorkedOn(w', k, open, bits)
    {
      var j :| InObject(w', j, k) && (j in {} || Complete(w', j, bits));
      assert InObject(w', j, k) && (j in open || Complete(w', j, bits));
    }
  }

  /** Progress only removes pending pointers. */
  lemma PendingShrinks(w: World, w': World)
    requires ObjectsKept(w, w')
    ensures PendingIn(w'.objects) <= PendingIn(w.objects)
  {
    forall i, at | i in w'.objects && at in PendingSlots(w'.objects[i].body)
      ensures at in PendingSlots(w.objects[i].body)
    {
      assert SameObject(w.objects[i], w'.objects[i], AddressesOf(w'.objects));
      EvolvesShrinks(w.objects[i].body, w'.objects[i].body, AddressesOf(w'.objects));
    }
  }

  // ---- Chains of pointers ----

  ghost predicate HasPointerTo(v: PyValue, j: Id) {
    exists at, c :: Targets(v, at, c) && c.target == j
  }

  /** Each object has a pointer that names the next one. */
  ghost predicate Chain(os: Objects, path: seq<Id>) {
    && path != []
    && (forall k | 0 <= k < |path| :: path[k] in os)
    && forall k | 0 <= k < |path| - 1 :: HasPointerTo(os[path[k]].body, path[k + 1])
  }

  ghost predicate Reaches(os: Objects, i: Id, j: Id) {
    exists path :: Chain(os, path) && path[0] == i && path[|path| - 1] == j
  }

  /** Every leaf of the object comes back from memory; its plan tells. */
  ghost predicate Returns(o: PyObj, plan: PyValue) {
    ValidPath(o.ty, []) && Conforms(o.ty, [], plan) && AllComeBack(o.ty, Leaves(o.ty, [], plan))
  }

  /** From `i` an object can be reached that does not come back. */
  ghost predicate Blamed(os: Objects, plan: map<Id, PyValue>, i: Id) {
    exists j :: Reaches(os, i, j) && j in os && j in plan && !Returns(os[j], plan[j])
  }

  /** The same objects, with no pointer that names more. */
  ghost predicate FewerPointers(os: Objects, os': Objects) {
    && os'.Keys == os.Keys
    && forall i | i in os :: os'[i].ty == os[i].ty &&
                             forall j | HasPointerTo(os'[i].body, j) :: HasPointerTo(os[i].body, j)
  }

  lemma BlamedBefore(os: Objects, os': Objects, plan: map<Id, PyValue>, i: Id)
    requires FewerPointers(os, os') && Blamed(os', plan, i)
    ensures Blamed(os, plan, i)
  {
    hide HasPointerTo, Returns;
    var j :| Reaches(os', i, j) && j in os' && j in plan && !Returns(os'[j], plan[j]);
    var path :| Chain(os', path) && path[0] == i && path[|path| - 1] == j;
    assert Chain(os, path);
    assert Reaches(os, i, j);
    SameReturns(os[j], os'[j], plan[j]);
  }

  lemma SameReturns(o: PyObj, o': PyObj, plan: PyValue)
    requires o.ty == o'.ty
    ensures Returns(o, plan) <==> Returns(o', plan)
  {
  }

  lemma BlamedThrough(os: Objects, plan: map<Id, PyValue>, i: Id, k: Id)
    requires i in os && HasPointerTo(os[i].body, k) && Blamed(os, plan, k)
    ensures Blamed(os, plan, i)
  {
    hide HasPointerTo, Returns;
    var j :| Reaches(os, k, j) && j in os && j in plan && !Returns(os[j], plan[j]);
    var path :| Chain(os, path) && path[0] == k && path[|path| - 1] == j;
    var longer := [i] + path;
    assert forall n | 0 < n < |longer| :: longer[n] == path[n - 1];
    assert Chain(os, longer) by {
      forall n | 0 <= n < |longer| - 1 ensures HasPointerTo(os[longer[n]].body, longer[n + 1]) {
        if n > 0 { assert HasPointerTo(os[path[n - 1]].body, path[n - 1 + 1]); }
      }
    }
    assert Reaches(os, i, j);
  }

  lemma BlamedItself(os: Objects, plan: map<Id, PyValue>, i: Id)
    requires i in os && i in plan && !Returns(os[i], plan[i])
    ensures Blamed(os, plan, i)
  {
    assert Chain(os, [i]);
    assert Reaches(os, i, i);
  }

  lemma PointersKept(w: World, w': World)
    requires ObjectsKept(w, w')
    ensures FewerPointers(w.objects, w'.objects)
  {
    forall i, j | i in w.objects && HasPointerTo(w'.objects[i].body, j)
      ensures HasPointerTo(w.objects[i].body, j)
    {
      var at, c :| Targets(w'.objects[i].body, at, c) && c.target == j;
      assert SameObject(w.objects[i], w'.objects[i], AddressesOf(w'.objects));
      StillTargets(w.objects[i].body, w'.objects[i].body, AddressesOf(w'.objects), at, c);
    }
    assert forall i | i in w.objects :: SameObject(w.objects[i], w'.objects[i], AddressesOf(w'.objects));
  }

  lemma StillTargets(x: PyValue, y: PyValue, addr: Addresses, at: Position, c: ObjectOffset)
    requires Evolves(x, y, addr) && Targets(y, at, c)
    ensures Targets(x, at, c)
  {
    EvolvesAt(x, y, addr, at);
  }
}
