// The steps of an upload: give an object an address, clear a pointer's target, store
// the target's address, write the object to memory.
module ProxySteps {
  import opened Common
  import opened DebugTypes
  import opened AddressSpace
  import opened FlatView
  import opened PyValues
  import opened Marshaller
  import opened Upload
  import opened RoundTrip
  import opened Marshalling
  import opened ObjectGraph
  import opened UploadPlan
  import opened ProxyWorld

  lemma ObjectLeaves(o: PyObj, plan: PyValue, bits: nat)
    requires ObjectOk(o, plan, bits)
    ensures Uploadable(o.ty, bits, o.body, o.fresh')
    ensures AllEncodable(o.ty, bits, Leaves(o.ty, [], o.body))
  {
    PlannedUploadable(o.ty, bits, plan, o.body, o.fresh');
    AllReadyEncodable(o.ty, bits, Leaves(o.ty, [], o.body));
  }

  /** An uploaded object stays uploaded while its bytes stay. */
  lemma StillUploaded(v: View, w: View, o: PyObj, plan: PyValue, bits: nat)
    requires ObjectOk(o, plan, bits) && Uploaded(v, o, bits)
    requires forall k: nat | o.addr.value <= k < o.addr.value + Size(o.ty) && k in v :: k in w && w[k] == v[k]
    ensures Uploaded(w, o, bits)
  {
    ObjectLeaves(o, plan, bits);
    HoldsFrame(v, w, o.addr.value, o.ty, bits, Leaves(o.ty, [], o.body));
  }

  // ---- A new address ----

  function Registered(w: World, i: Id, v: nat, starts: AllocationMap, view: View): World
    requires i in w.objects
  {
    World(w.objects[i := w.objects[i].(addr := Some(v))], w.registered[i := v], w.objectMap[v := i], starts, view)
  }

  /** What a new block at `v` brings, and what it leaves alone. */
  ghost predicate Grown(w: World, v: nat, size: nat, starts: AllocationMap, view: View) {
    && v !in w.starts && v in starts && starts[v].size == size && starts == w.starts[v := starts[v]]
    && (forall s | s in w.starts :: s + w.starts[s].size < v)
    && Extends(view, w.view) && Covers(view, v, size)
    && (forall k: nat | v <= k < v + size :: k !in w.view)
    && BelowEnd(starts)
  }

  lemma NewHousing(w: World, w': World, o: PyObj)
    requires Housed(w, o) && Extends(w'.view, w.view)
    requires forall s | s in w.starts :: s in w'.starts && w'.starts[s] == w.starts[s]
    ensures Housed(w', o)
  {
    if o.addr.Some? {
      var b: nat :| Within(w.starts, b, o.addr.value, Size(o.ty));
      assert Within(w'.starts, b, o.addr.value, Size(o.ty));
    }
  }

  /** Every object with an address ends before the new block. */
  lemma NewIsSeparate(w: World, o: PyObj, v: nat)
    requires Housed(w, o) && forall s | s in w.starts :: s + w.starts[s].size < v
    ensures o.addr.Some? ==> o.addr.value + Size(o.ty) < v
  {
    if o.addr.Some? {
      var b: nat :| Within(w.starts, b, o.addr.value, Size(o.ty));
    }
  }

  lemma NewIsHoused(w: World, i: Id, v: nat, starts: AllocationMap, view: View)
    requires AllHoused(w) && AllSeparate(w.objects) && i in w.objects && w.objects[i].addr.None?
    requires Grown(w, v, Size(w.objects[i].ty), starts, view)
    ensures AllHoused(Registered(w, i, v, starts, view))
    ensures AllSeparate(Registered(w, i, v, starts, view).objects)
    ensures forall j | j in w.objects :: w.objects[j].addr != Some(v)
  {
    var w' := Registered(w, i, v, starts, view);
    forall j | j in w.objects
      ensures Housed(w', w'.objects[j])
      ensures w.objects[j].addr.Some? ==> w.objects[j].addr.value + Size(w.objects[j].ty) < v
    {
      assert Housed(w, w.objects[j]);
      NewIsSeparate(w, w.objects[j], v);
      if j == i { assert Within(starts, v, v, Size(w.objects[i].ty)); } else { NewHousing(w, w', w.objects[j]); }
    }
    forall j, k | j in w'.objects && k in w'.objects && j != k
      ensures Separate(w'.objects[j], w'.objects[k])
    {
      assert Separate(w.objects[j], w.objects[k]);
    }
  }

  lemma NewMapsAgree(w: World, i: Id, v: nat, starts: AllocationMap, view: View)
    requires MapsAgree(w) && i in w.objects && w.objects[i].addr.None?
    requires forall j | j in w.objects :: w.objects[j].addr != Some(v)
    ensures MapsAgree(Registered(w, i, v, starts, view))
  {
    assert v !in w.objectMap;
  }

  /** The objects are the same, as far as types and the given bodies go. */
  lemma SameBodies(os: Objects, os': Objects, plan: map<Id, PyValue>, bits: nat)
    requires AllObjectsOk(os, plan, bits) && AllRefsOk(os) && os'.Keys == os.Keys
    requires forall i | i in os :: os'[i] == os[i].(addr := os'[i].addr)
    ensures AllObjectsOk(os', plan, bits) && AllRefsOk(os')
  {
    forall j | j in os
      ensures ObjectOk(os'[j], plan[j], bits) && RefsOk(os', os'[j].body)
    {
      assert ObjectOk(os[j], plan[j], bits) && RefsOk(os, os[j].body);
      SameRefs(os, os', os[j].body);
    }
  }

  lemma SameRefs(os: Objects, os': Objects, v: PyValue)
    requires RefsOk(os, v) && forall i | i in os :: i in os' && os'[i].ty == os[i].ty
    ensures RefsOk(os', v)
  {
    forall at | HasAt(v, at) && Pending(At(v, at))
      ensures RefOk(os', At(v, at).cache.value)
    {
      assert RefOk(os, At(v, at).cache.value);
    }
  }

  lemma AddressGiven(w: World, i: Id, v: nat, starts: AllocationMap, view: View, plan: map<Id, PyValue>, bits: nat)
    requires WorldOk(w, plan, bits) && i in w.objects && w.objects[i].addr.None?
    requires Grown(w, v, Size(w.objects[i].ty), starts, view)
    ensures WorldOk(Registered(w, i, v, starts, view), plan, bits)
    ensures Progressed(w, Registered(w, i, v, starts, view), {i}, bits)
    ensures PendingIn(Registered(w, i, v, starts, view).objects) == PendingIn(w.objects)
  {
    hide AllObjectsOk, AllRefsOk, AllHoused, AllSeparate, MapsAgree, UploadsKept, MemoryKept, ObjectsKept, PlacesNew;
    var w' := Registered(w, i, v, starts, view);
    NewIsHoused(w, i, v, starts, view);
    NewMapsAgree(w, i, v, starts, view);
    SameBodies(w.objects, w'.objects, plan, bits);
    NewKeepsObjects(w, i, v, starts, view);
    NewKeepsUploads(w, i, v, starts, view, plan, bits);
  }

  lemma NewKeepsObjects(w: World, i: Id, v: nat, starts: AllocationMap, view: View)
    requires i in w.objects && w.objects[i].addr.None? && Grown(w, v, Size(w.objects[i].ty), starts, view)
    ensures ObjectsKept(w, Registered(w, i, v, starts, view))
    ensures PlacesNew(w, Registered(w, i, v, starts, view))
    ensures forall bits :: MemoryKept(w, Registered(w, i, v, starts, view), {i}, bits)
  {
    var w' := Registered(w, i, v, starts, view);
    forall j | j in w.objects
      ensures SameObject(w.objects[j], w'.objects[j], AddressesOf(w'.objects))
    {
      EvolvesItself(w.objects[j].body, AddressesOf(w'.objects));
    }
  }

  lemma NewKeepsUploads(w: World, i: Id, v: nat, starts: AllocationMap, view: View, plan: map<Id, PyValue>, bits: nat)
    requires AllObjectsOk(w.objects, plan, bits) && MapsAgree(w) && i in w.objects && w.objects[i].addr.None?
    requires Grown(w, v, Size(w.objects[i].ty), starts, view)
    ensures UploadsKept(w, Registered(w, i, v, starts, view), {i}, bits)
  {
    hide ObjectOk, RefsOk, Uploaded, Separate, Housed, Covers, Within;
    forall j | Complete(w, j, bits)
      ensures Complete(Registered(w, i, v, starts, view), j, bits)
    {
      assert ObjectOk(w.objects[j], plan[j], bits);
      StillUploaded(w.view, view, w.objects[j], plan[j], bits);
    }
  }

  // ---- One pointer ----

  function WithSlot(w: World, i: Id, at: Position, x: PyValue): World
    requires i in w.objects && HasAt(w.objects[i].body, at)
  {
    w.(objects := w.objects[i := w.objects[i].(body := SetAt(w.objects[i].body, at, x))])
  }

  /** Rewriting a slot to a value the plan allows and that names no target. */
  lemma SlotWellFormed(w: World, i: Id, at: Position, p: Option<int>, plan: map<Id, PyValue>, bits: nat)
    requires WorldOk(w, plan, bits) && i in w.objects
    requires HasAt(w.objects[i].body, at) && At(w.objects[i].body, at).PyPtr?
    requires HasAt(plan[i], at) ==> FitsPlan(At(plan[i], at), PyPtr(p, None), PointerLimit(bits))
    ensures WorldOk(WithSlot(w, i, at, PyPtr(p, None)), plan, bits)
  {
    hide ObjectOk, RefsOk, Housed, FitsPlan;
    var w' := WithSlot(w, i, at, PyPtr(p, None));
    SlotObjectsOk(w, i, at, p, plan, bits);
    SlotRefsOk(w, i, at, p);
    BodyElsewhere(w, w', i);
  }

  lemma SlotObjectsOk(w: World, i: Id, at: Position, p: Option<int>, plan: map<Id, PyValue>, bits: nat)
    requires AllObjectsOk(w.objects, plan, bits) && i in w.objects && HasAt(w.objects[i].body, at)
    requires HasAt(plan[i], at) ==> FitsPlan(At(plan[i], at), PyPtr(p, None), PointerLimit(bits))
    ensures AllObjectsOk(WithSlot(w, i, at, PyPtr(p, None)).objects, plan, bits)
  {
    hide Uploadable;
    assert ObjectOk(w.objects[i], plan[i], bits);
    PlanAt(plan[i], w.objects[i].body, PointerLimit(bits), at);
    PlanSetAt(plan[i], w.objects[i].body, PointerLimit(bits), at, PyPtr(p, None));
  }

  lemma SlotRefsOk(w: World, i: Id, at: Position, p: Option<int>)
    requires AllRefsOk(w.objects) && i in w.objects && HasAt(w.objects[i].body, at) && At(w.objects[i].body, at).PyPtr?
    ensures AllRefsOk(WithSlot(w, i, at, PyPtr(p, None)).objects)
  {
    hide RefsOk;
    var os, os' := w.objects, WithSlot(w, i, at, PyPtr(p, None)).objects;
    forall j | j in os
      ensures RefsOk(os', os'[j].body)
    {
      assert RefsOk(os, os[j].body);
      SameRefs(os, os', os[j].body);
      if j == i { FewerRefs(os', os[i].body, at, p); }
    }
  }

  /** `w'` differs from `b` in one body only. */
  ghost predicate OnlyBody(b: World, w': World, i: Id) {
    && i in b.objects && w'.objects.Keys == b.objects.Keys
    && (forall j | j in b.objects && j != i :: w'.objects[j] == b.objects[j])
    && w'.objects[i] == b.objects[i].(body := w'.objects[i].body)
    && w'.registered == b.registered && w'.objectMap == b.objectMap && w'.starts == b.starts && w'.view == b.view
  }

  lemma BodyElsewhere(b: World, w': World, i: Id)
    requires OnlyBody(b, w', i) && AllHoused(b) && AllSeparate(b.objects) && MapsAgree(b)
    ensures AllHoused(w') && AllSeparate(w'.objects) && MapsAgree(w')
  {
    forall j | j in w'.objects
      ensures Housed(w', w'.objects[j])
    {
      assert Housed(b, b.objects[j]);
    }
    forall j, k | j in w'.objects && k in w'.objects && j != k
      ensures Separate(w'.objects[j], w'.objects[k])
    {
      assert Separate(b.objects[j], b.objects[k]);
    }
  }

  lemma FewerRefs(os: Objects, v: PyValue, at: Position, p: Option<int>)
    requires RefsOk(os, v) && HasAt(v, at) && At(v, at).PyPtr?
    ensures RefsOk(os, SetAt(v, at, PyPtr(p, None)))
  {
    var v' := SetAt(v, at, PyPtr(p, None));
    forall s | HasAt(v', s) && Pending(At(v', s))
      ensures RefOk(os, At(v', s).cache.value)
    {
      SetAtSlot(v, at, PyPtr(p, None), s);
      assert At(v', s) == At(v, s);
    }
  }

  function Cleared(w: World, i: Id, at: Position): World
    requires i in w.objects && HasAt(w.objects[i].body, at) && At(w.objects[i].body, at).PyPtr?
  {
    WithSlot(w, i, at, PyPtr(At(w.objects[i].body, at).ptr, None))
  }

  /** The target of a slot is forgotten before the target is uploaded. */
  lemma TargetCleared(w: World, i: Id, at: Position, c: ObjectOffset, plan: map<Id, PyValue>, bits: nat)
    requires WorldOk(w, plan, bits) && i in w.objects && Targets(w.objects[i].body, at, c)
    ensures WorldOk(Cleared(w, i, at), plan, bits)
    ensures PendingIn(Cleared(w, i, at).objects) < PendingIn(w.objects)
  {
    hide FitsPlan, Uploadable, Separate, MapsAgree;
    var v := w.objects[i].body;
    assert ObjectOk(w.objects[i], plan[i], bits);
    PlanAt(plan[i], v, PointerLimit(bits), at);
    ClearedPointerFits(At(plan[i], at), At(v, at), PointerLimit(bits));
    SlotWellFormed(w, i, at, At(v, at).ptr, plan, bits);
    FewerPending(w, i, at, c);
  }

  lemma ClearedPointers(w: World, i: Id, at: Position, c: ObjectOffset)
    requires i in w.objects && Targets(w.objects[i].body, at, c)
    ensures FewerPointers(w.objects, Cleared(w, i, at).objects)
    ensures HasPointerTo(w.objects[i].body, c.target)
  {
    var x := PyPtr(At(w.objects[i].body, at).ptr, None);
    forall j, s, d | Targets(SetAt(w.objects[i].body, at, x), s, d) && d.target == j
      ensures HasPointerTo(w.objects[i].body, j)
    {
      SetAtSlot(w.objects[i].body, at, x, s);
      assert Targets(w.objects[i].body, s, d);
    }
  }

  lemma ClearedPointerFits(plan: PyValue, x: PyValue, limit: nat)
    requires FitsPlan(plan, x, limit) && x.PyPtr?
    ensures FitsPlan(plan, PyPtr(x.ptr, None), limit)
  {
  }

  lemma FewerPending(w: World, i: Id, at: Position, c: ObjectOffset)
    requires i in w.objects && Targets(w.objects[i].body, at, c)
    ensures PendingIn(Cleared(w, i, at).objects) < PendingIn(w.objects)
  {
    var v := w.objects[i].body;
    ClearingSlot(v, at, At(v, at).ptr);
    PendingSlotsAt(v, at);
    assert (i, at) in PendingIn(w.objects);
  }

  /** Clear, upload the target, store its address: seen as one step. */
  lemma TargetLinked(w: World, b: World, i: Id, at: Position, c: ObjectOffset, p: int, bits: nat)
    requires i in w.objects && Targets(w.objects[i].body, at, c) && Progressed(Cleared(w, i, at), b, {i}, bits)
    requires c.target in b.objects && b.objects[c.target].addr.Some? && p == b.objects[c.target].addr.value + c.offset
    requires c.target in w.registered || Complete(b, c.target, bits)
    ensures i in b.objects && HasAt(b.objects[i].body, at) && At(b.objects[i].body, at).PyPtr?
    ensures Progressed(w, WithSlot(b, i, at, PyPtr(Some(p), None)), {i}, bits)
  {
    hide UploadsKept, MemoryKept, Evolves, SetAt, PlacesNew;
    var cleared := Cleared(w, i, at);
    SlotLinked(w.objects[i].body, b.objects[i].body, at, c, p, w, cleared, b, i);
    PendingSlotsAt(w.objects[i].body, at);
    var w' := WithSlot(b, i, at, PyPtr(Some(p), None));
    LinkedObjects(w, cleared, b, w', i);
    LinkedUploads(w, cleared, b, w', i, bits);
    LinkedMemory(w, cleared, b, w', i, bits);
    LinkedTargets(w, b, i, at, c, p, bits);
    LinkedPlaces(w, cleared, b, w', i);
  }

  /** The address stored fits the plan, and the world with it is well formed. */
  lemma LinkedWellFormed(w: World, b: World, i: Id, at: Position, c: ObjectOffset, p: int, plan: map<Id, PyValue>,
                         bits: nat)
    requires WorldOk(w, plan, bits) && i in w.objects && Targets(w.objects[i].body, at, c)
    requires WorldOk(b, plan, bits) && ObjectsKept(Cleared(w, i, at), b)
    requires c.target in b.objects && b.objects[c.target].addr.Some? && p == b.objects[c.target].addr.value + c.offset
    requires HasAt(b.objects[i].body, at) && At(b.objects[i].body, at).PyPtr?
    ensures WorldOk(WithSlot(b, i, at, PyPtr(Some(p), None)), plan, bits)
  {
    hide WorldOk, FitsPlan, Evolves;
    var cleared := Cleared(w, i, at);
    assert SameObject(cleared.objects[c.target], b.objects[c.target], AddressesOf(b.objects));
    PointerPlanned(w, b, i, at, c, p, plan, bits);
    SlotWellFormed(b, i, at, Some(p), plan, bits);
  }

  lemma SlotLinked(x: PyValue, y: PyValue, at: Position, c: ObjectOffset, p: int, w: World, cleared: World, b: World,
                   i: Id)
    requires i in w.objects && x == w.objects[i].body && Targets(x, at, c)
    requires cleared == WithSlot(w, i, at, PyPtr(At(x, at).ptr, None))
    requires ObjectsKept(cleared, b) && y == b.objects[i].body
    requires c.target in b.objects && b.objects[c.target].addr.Some? && p == b.objects[c.target].addr.value + c.offset
    ensures HasAt(y, at) && At(y, at).PyPtr?
    ensures Evolves(x, SetAt(y, at, PyPtr(Some(p), None)), AddressesOf(b.objects))
  {
    hide SetAt, At, HasAt, Evolves;
    assert SameObject(cleared.objects[i], b.objects[i], AddressesOf(b.objects));
    LinkAround(x, at, y, AddressesOf(b.objects));
  }

  lemma PointerPlanned(w: World, b: World, i: Id, at: Position, c: ObjectOffset, p: int, plan: map<Id, PyValue>,
                       bits: nat)
    requires WorldOk(w, plan, bits) && i in w.objects && Targets(w.objects[i].body, at, c)
    requires WorldOk(b, plan, bits)
    requires c.target in b.objects && b.objects[c.target].addr.Some? && p == b.objects[c.target].addr.value + c.offset
    requires c.target in w.objects ==> b.objects[c.target].ty == w.objects[c.target].ty
    ensures HasAt(plan[i], at) && FitsPlan(At(plan[i], at), PyPtr(Some(p), None), PointerLimit(bits))
  {
    hide Uploadable, Separate, MapsAgree;
    assert ObjectOk(w.objects[i], plan[i], bits) && RefsOk(w.objects, w.objects[i].body);
    assert RefOk(w.objects, c) && Housed(b, b.objects[c.target]);
    PlanAt(plan[i], w.objects[i].body, PointerLimit(bits), at);
    InAddressWindow(b, b.objects[c.target], c.offset);
  }

  /** A place in an object with an address is in the address window. */
  lemma InAddressWindow(b: World, o: PyObj, offset: nat)
    requires Housed(b, o) && BelowEnd(b.starts) && o.addr.Some? && offset <= Size(o.ty)
    ensures o.addr.value + offset < END_ADDR
  {
    var h: nat :| Within(b.starts, h, o.addr.value, Size(o.ty));
    assert h + b.starts[h].size < END_ADDR;
  }

  lemma LinkedObjects(w: World, cleared: World, b: World, w': World, i: Id)
    requires OnlyBody(w, cleared, i) && ObjectsKept(cleared, b) && OnlyBody(b, w', i)
    requires Evolves(w.objects[i].body, w'.objects[i].body, AddressesOf(b.objects))
    ensures ObjectsKept(w, w')
  {
    assert AddressesOf(w'.objects) == AddressesOf(b.objects);
    forall j | j in w.objects
      ensures SameObject(w.objects[j], w'.objects[j], AddressesOf(w'.objects))
    {
      assert SameObject(cleared.objects[j], b.objects[j], AddressesOf(b.objects));
    }
  }

  lemma LinkedUploads(w: World, cleared: World, b: World, w': World, i: Id, bits: nat)
    requires OnlyBody(w, cleared, i) && UploadsKept(cleared, b, {i}, bits) && OnlyBody(b, w', i)
    requires PendingSlots(w.objects[i].body) != {}
    ensures UploadsKept(w, w', {i}, bits)
  {
    forall j | j != i
      ensures Complete(w, j, bits) <==> Complete(cleared, j, bits)
      ensures Complete(b, j, bits) <==> Complete(w', j, bits)
    {
    }
  }

  lemma LinkedMemory(w: World, cleared: World, b: World, w': World, i: Id, bits: nat)
    requires OnlyBody(w, cleared, i) && MemoryKept(cleared, b, {i}, bits) && OnlyBody(b, w', i)
    ensures MemoryKept(w, w', {i}, bits)
  {
    forall k | k in w.view && k in w'.view && w'.view[k] != w.view[k]
      ensures InWorkedOn(w', k, {i}, bits)
    {
      var j :| InObject(b, j, k) && (j in {i} || Complete(b, j, bits));
      assert InObject(w', j, k) && (j in {i} || Complete(w', j, bits));
    }
  }

  lemma LinkedPlaces(w: World, cleared: World, b: World, w': World, i: Id)
    requires OnlyBody(w, cleared, i) && PlacesNew(cleared, b) && OnlyBody(b, w', i)
    ensures PlacesNew(w, w')
  {
    forall j | GivenAddress(w, w', j)
      ensures j in w'.registered && forall k | k in w.view :: !InObject(w', j, k)
    {
      assert GivenAddress(cleared, b, j);
      assert forall k | k in w.view :: InObject(w', j, k) ==> InObject(b, j, k);
    }
  }

  lemma LinkedTargets(w: World, b: World, i: Id, at: Position, c: ObjectOffset, p: int, bits: nat)
    requires i in w.objects && Targets(w.objects[i].body, at, c) && i in b.objects
    requires HasAt(b.objects[i].body, at) && At(b.objects[i].body, at).PyPtr?
    requires TargetsReached(Cleared(w, i, at), b, {i}, bits)
    requires c.target in w.registered || Complete(b, c.target, bits)
    ensures TargetsReached(w, WithSlot(b, i, at, PyPtr(Some(p), None)), {i}, bits)
  {
    hide Uploaded;
    var cleared, w' := Cleared(w, i, at), WithSlot(b, i, at, PyPtr(Some(p), None));
    forall j, s, t | j in w.objects && j in w'.objects && Targets(w.objects[j].body, s, t)
      ensures Targets(w'.objects[j].body, s, t) || Reached(w, w', t.target, {i}, bits)
    {
      if j != i || s != at {
        if j == i {
          SetAtSlot(w.objects[i].body, at, PyPtr(At(w.objects[i].body, at).ptr, None), s);
          SetAtSlot(b.objects[i].body, at, PyPtr(Some(p), None), s);
        }
        assert Targets(cleared.objects[j].body, s, t);
        assert Targets(b.objects[j].body, s, t) || Reached(cleared, b, t.target, {i}, bits);
      }
    }
  }

  // ---- Writing the object ----

  lemma ObjectWritten(w: World, w': World, i: Id, plan: map<Id, PyValue>, bits: nat)
    requires WorldOk(w, plan, bits) && i in w.objects && w.objects[i].addr.Some?
    requires PendingSlots(w.objects[i].body) == {}
    requires w' == w.(view := w'.view) && SameOutside(w.view, w'.view, w.objects[i].addr.value, Size(w.objects[i].ty))
    requires Uploaded(w'.view, w.objects[i], bits)
    ensures WorldOk(w', plan, bits) && Complete(w', i, bits) && Progressed(w, w', {}, bits)
  {
    hide AllObjectsOk, AllRefsOk, AllHoused, AllSeparate, SameObject, UploadsKept;
    WrittenHoused(w, w');
    WrittenUploads(w, w', i, plan, bits);
    NothingDone(w, {}, bits);
    forall k | k in w.view && w'.view[k] != w.view[k]
      ensures InWorkedOn(w', k, {}, bits)
    {
      assert InObject(w', i, k) && Complete(w', i, bits);
    }
  }

  lemma WrittenHoused(w: World, w': World)
    requires AllHoused(w) && w' == w.(view := w'.view) && w'.view.Keys == w.view.Keys
    ensures AllHoused(w')
  {
    forall j | j in w.objects
      ensures Housed(w', w'.objects[j])
    {
      assert Housed(w, w.objects[j]);
      if w.objects[j].addr.Some? {
        var h: nat :| Within(w.starts, h, w.objects[j].addr.value, Size(w.objects[j].ty));
        assert Within(w'.starts, h, w.objects[j].addr.value, Size(w.objects[j].ty));
      }
    }
  }

  lemma WrittenUploads(w: World, w': World, i: Id, plan: map<Id, PyValue>, bits: nat)
    requires AllObjectsOk(w.objects, plan, bits) && AllSeparate(w.objects) && i in w.objects && w.objects[i].addr.Some?
    requires w' == w.(view := w'.view) && SameOutside(w.view, w'.view, w.objects[i].addr.value, Size(w.objects[i].ty))
    requires Uploaded(w'.view, w.objects[i], bits)
    ensures UploadsKept(w, w', {}, bits)
  {
    hide ObjectOk;
    forall j | Complete(w, j, bits)
      ensures Complete(w', j, bits)
    {
      if j != i {
        assert Separate(w.objects[i], w.objects[j]) && ObjectOk(w.objects[j], plan[j], bits);
        StillUploaded(w.view, w'.view, w.objects[j], plan[j], bits);
      }
    }
  }
}
