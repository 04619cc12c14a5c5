// StructProxy: uploading a Python object together with every object its pointers name.
module Proxy {
  import opened Common
  import opened DebugTypes
  import opened TypePaths
  import opened Layout
  import opened AddressSpace
  import opened FlatView
  import opened Interpreter
  import opened PyValues
  import opened Diff
  import opened Spelling
  import opened Offsets
  import opened Marshaller
  import opened Upload
  import opened RoundTrip
  import opened Marshalling
  import opened ObjectGraph
  import opened UploadPlan
  import opened ProxyWorld
  import opened ProxySteps
  import opened UploadedGraph
  import opened ReadObjects

  // ---- What progress means at one position ----

  /** A dataclass object stays one, with the same fields, and its pointers only lose
      their targets. */
  lemma FieldsKept(w: World, w': World, i: Id, at: Position)
    requires ObjectsKept(w, w') && i in w.objects
    requires HasAt(w.objects[i].body, at) && At(w.objects[i].body, at).PyObject?
    ensures HasAt(w'.objects[i].body, at) && At(w'.objects[i].body, at).PyObject?
    ensures w.objects[i].addr.Some? ==> w'.objects[i].addr == w.objects[i].addr
    ensures var x, y := At(w.objects[i].body, at).fields, At(w'.objects[i].body, at).fields;
            |x| == |y| && forall j | 0 <= j < |x| :: PendingSlots(y[j].value) <= PendingSlots(x[j].value)
  {
    var addr := AddressesOf(w'.objects);
    assert SameObject(w.objects[i], w'.objects[i], addr);
    EvolvesAt(w.objects[i].body, w'.objects[i].body, addr, at);
    var x, y := At(w.objects[i].body, at).fields, At(w'.objects[i].body, at).fields;
    forall j | 0 <= j < |x|
      ensures PendingSlots(y[j].value) <= PendingSlots(x[j].value)
    {
      EvolvesShrinks(x[j].value, y[j].value, addr);
    }
  }

  /** The object itself is not a pointer. */
  lemma RootIsNoPointer(w: World, i: Id, plan: map<Id, PyValue>, bits: nat)
    requires WorldOk(w, plan, bits) && i in w.objects
    ensures i in plan && !w.objects[i].body.PyPtr?
  {
    hide Separate, Housed, RefsOk;
    assert ObjectOk(w.objects[i], plan[i], bits);
  }

  /** irx_struct_get_size of the object's class. */
  lemma StructSize(w: World, i: Id, plan: map<Id, PyValue>, bits: nat)
    requires WorldOk(w, plan, bits) && i in w.objects
    ensures StoreSize(Lower(w.objects[i].ty)) == Size(w.objects[i].ty)
  {
    hide FitsPlan, Separate, Housed, RefsOk;
    assert ObjectOk(w.objects[i], plan[i], bits);
    LowerKeepsSize(w.objects[i].ty);
  }

  lemma PlanPosition(w: World, i: Id, at: Position, k: nat, plan: map<Id, PyValue>, bits: nat)
    requires WorldOk(w, plan, bits) && i in w.objects && HasAt(w.objects[i].body, at)
    requires At(w.objects[i].body, at).PyObject? && k < |At(w.objects[i].body, at).fields|
    ensures i in plan && HasAt(plan[i], at) && HasAt(plan[i], at + [k]) && At(plan[i], at + [k]) < At(plan[i], at)
    ensures HasAt(w.objects[i].body, at + [k])
    ensures At(w.objects[i].body, at + [k]) == At(w.objects[i].body, at).fields[k].value
  {
    hide Uploadable, Separate, Housed, MapsAgree, RefsOk;
    assert ObjectOk(w.objects[i], plan[i], bits);
    PlanAt(plan[i], w.objects[i].body, PointerLimit(bits), at);
    AtCompose(w.objects[i].body, at, k);
    AtCompose(plan[i], at, k);
  }

  /** How `put` ends: well, with the process out of addresses or memory, or with the
      assertion about the comparison failing. */
  datatype PutResult = Done | Exhausted | AssertionFailed

  class StructProxy {
    const irx: MyInterpreter
    /** Width of a pointer in the interpreted program. */
    const bits: nat
    /** The Python objects, by `id`. */
    var objects: Objects
    var objectMap: map<nat, Id>
    var reverseObjectMap: map<Id, nat>

    constructor (irx: MyInterpreter, bits: nat, objects: Objects)
      ensures this.irx == irx && this.bits == bits && this.objects == objects
      ensures objectMap == map[] && reverseObjectMap == map[]
    {
      this.irx, this.bits, this.objects := irx, bits, objects;
      objectMap, reverseObjectMap := map[], map[];
    }

    ghost function Now(): World
      reads this, irx, irx.allocator, irx.mem
    {
      World(objects, reverseObjectMap, objectMap, irx.allocator.vvmemStart, irx.View())
    }

    ghost predicate Usable(plan: map<Id, PyValue>)
      reads this, irx, irx.allocator, irx.allocator.vma, irx.mem
    {
      irx.Valid() && WorldOk(Now(), plan, bits)
    }

    /** The upload of an object and of everything its pointers name, cycles included. It
        ends; and unless the interpreter runs out of addresses or memory, it ends well
        exactly if nothing it can reach fails to come back: for the objects registered
        before being uploaded. Then the object is uploaded; so is every object that got an
        address or changed on the way, and every object that was uploaded before; and each
        pointer that named a target holds the target's address plus the offset. */
    method Put(id: Id, ghost plan: map<Id, PyValue>) returns (r: PutResult)
      requires Usable(plan) && id in objects
      modifies this, irx`allocations, irx`sizes, irx.allocator, irx.allocator.vma`lastAllocAddr, irx.mem
      ensures r.Done? ==> Usable(plan) && irx.frozen == old(irx.frozen)
      ensures r.Done? ==> Complete(Now(), id, bits) && Progressed(old(Now()), Now(), {}, bits)
      ensures r.Done? && RegisteredComplete(old(Now()), bits) ==> !Blamed(old(objects), plan, id)
      ensures r.AssertionFailed? ==> Blamed(old(objects), plan, id)
      decreases PendingIn(objects), 2
    {
      hide WorldOk, MyInterpreter.Valid, Complete, Progressed, Blamed, ObjectsKept, RegisteredComplete;
      ghost var before := Now();
      var given := Place(id, plan);
      if !given { return Exhausted; }
      ghost var placed := Now();
      RootIsNoPointer(placed, id, plan, bits);
      r := PutCache(id, [], plan);
      if !r.Done? {
        if r.AssertionFailed? { BlamedEarlier(before, placed, {id}, id, plan, bits); }
        return;
      }
      ghost var linked := Now();
      ProgressTwice(before, placed, linked, {id}, bits);
      var same := Write(id, plan);
      if !same {
        BlamedItself(objects, plan, id);
        BlamedEarlier(before, linked, {id}, id, plan, bits);
        return AssertionFailed;
      }
      PutFinished(before, linked, Now(), id, bits);
      if RegisteredComplete(before, bits) { NobodyBlamed(before, Now(), id, plan, bits); }
    }

    /** Allocation and registration of an object that has no address yet. */
    method Place(id: Id, ghost plan: map<Id, PyValue>) returns (ok: bool)
      requires Usable(plan) && id in objects
      modifies this, irx`allocations, irx`sizes, irx.allocator, irx.allocator.vma`lastAllocAddr
      ensures ok ==> Usable(plan) && irx.frozen == old(irx.frozen)
      ensures ok ==> id in objects && objects[id].addr.Some? && Progressed(old(Now()), Now(), {id}, bits)
      ensures ok ==> PendingIn(objects) == PendingIn(old(objects)) && objects[id].body == old(objects[id].body)
    {
      hide WorldOk, Progressed, Consistent, HostBlocksApart, Ordered, MyInterpreter.Valid, Extends, Covers;
      ghost var before := Now();
      if objects[id].addr.Some? {
        NothingDone(before, {id}, bits);
        return true;
      }
      StructSize(before, id, plan, bits);
      var a := irx.StructAlloc(StoreSize(Lower(objects[id].ty)));
      if a.None? { return false; }
      objects := objects[id := objects[id].(addr := a)];
      objectMap := objectMap[a.value := id];
      reverseObjectMap := reverseObjectMap[id := a.value];
      irx.Placed();
      AddressGiven(before, id, a.value, irx.allocator.vvmemStart, irx.View(), plan, bits);
      return true;
    }

    /** put_cache on the dataclass object at position `at` of object `id`. */
    method PutCache(id: Id, at: Position, ghost plan: map<Id, PyValue>) returns (r: PutResult)
      requires Usable(plan) && id in objects && objects[id].addr.Some?
      requires HasAt(objects[id].body, at) && !At(objects[id].body, at).PyPtr?
      requires id in plan && HasAt(plan[id], at)
      modifies this, irx`allocations, irx`sizes, irx.allocator, irx.allocator.vma`lastAllocAddr, irx.mem
      ensures r.Done? ==> Usable(plan) && irx.frozen == old(irx.frozen)
      ensures r.Done? ==> Progressed(old(Now()), Now(), {id}, bits)
      ensures r.Done? ==> id in objects && objects[id].addr.Some? && HasAt(objects[id].body, at)
      ensures r.Done? ==> PendingSlots(At(objects[id].body, at)) == {}
      ensures r.AssertionFailed? ==> Blamed(old(objects), plan, id)
      decreases PendingIn(objects), 1, At(plan[id], at), 1
    {
      hide WorldOk, Evolves, UploadsKept, MemoryKept, MyInterpreter.Valid, HasAt;
      ghost var start := Now();
      NothingDone(start, {id}, bits);
      if !At(objects[id].body, at).PyObject? { return Done; }
      var n := |At(objects[id].body, at).fields|;
      for k := 0 to n
        invariant Usable(plan) && irx.frozen == old(irx.frozen)
        invariant Progressed(start, Now(), {id}, bits)
        invariant id in objects && objects[id].addr.Some? && HasAt(objects[id].body, at)
        invariant At(objects[id].body, at).PyObject? && |At(objects[id].body, at).fields| == n
        invariant forall j | 0 <= j < k :: PendingSlots(At(objects[id].body, at).fields[j].value) == {}
      {
        ghost var now := Now();
        PendingShrinks(start, now);
        r := PutField(id, at, k, plan);
        if !r.Done? {
          if r.AssertionFailed? { BlamedEarlier(start, now, {id}, id, plan, bits); }
          return;
        }
        FieldsKept(now, Now(), id, at);
        AtCompose(objects[id].body, at, k);
        ProgressTwice(start, now, Now(), {id}, bits);
      }
      NoPendingAbove(At(objects[id].body, at));
      return Done;
    }

    /** One turn of the loop of put_cache. */
    method PutField(id: Id, at: Position, k: nat, ghost plan: map<Id, PyValue>) returns (r: PutResult)
      requires Usable(plan) && id in objects && objects[id].addr.Some?
      requires HasAt(objects[id].body, at) && At(objects[id].body, at).PyObject?
      requires k < |At(objects[id].body, at).fields|
      requires id in plan && HasAt(plan[id], at)
      modifies this, irx`allocations, irx`sizes, irx.allocator, irx.allocator.vma`lastAllocAddr, irx.mem
      ensures r.Done? ==> Usable(plan) && irx.frozen == old(irx.frozen)
      ensures r.Done? ==> Progressed(old(Now()), Now(), {id}, bits)
      ensures r.Done? ==> id in objects && HasAt(objects[id].body, at + [k])
      ensures r.Done? ==> PendingSlots(At(objects[id].body, at + [k])) == {}
      ensures r.AssertionFailed? ==> Blamed(old(objects), plan, id)
      decreases PendingIn(objects), 1, At(plan[id], at), 0
    {
      hide WorldOk, Progressed, MyInterpreter.Valid, HasAt;
      ghost var start := Now();
      NothingDone(start, {id}, bits);
      PlanPosition(start, id, at, k, plan, bits);
      var x := At(objects[id].body, at + [k]);
      if x.PyPtr? {
        if x.cache.Some? {
          r := PutTarget(id, at + [k], x.cache.value, plan);
        } else {
          r := Done;
        }
      } else if x.PyObject? {
        r := PutCache(id, at + [k], plan);
      } else {
        r := Done;
      }
    }

    /** A pointer that names its target: forget the target, upload it if it has not been
        registered, then store its address plus the offset. */
    method PutTarget(id: Id, at: Position, c: ObjectOffset, ghost plan: map<Id, PyValue>) returns (r: PutResult)
      requires Usable(plan) && id in objects && objects[id].addr.Some? && Targets(objects[id].body, at, c)
      modifies this, irx`allocations, irx`sizes, irx.allocator, irx.allocator.vma`lastAllocAddr, irx.mem
      ensures r.Done? ==> Usable(plan) && irx.frozen == old(irx.frozen)
      ensures r.Done? ==> Progressed(old(Now()), Now(), {id}, bits)
      ensures r.Done? ==> id in objects && HasAt(objects[id].body, at) && PendingSlots(At(objects[id].body, at)) == {}
      ensures r.AssertionFailed? ==> Blamed(old(objects), plan, id)
      decreases PendingIn(objects), 0
    {
      hide WorldOk, MyInterpreter.Valid, MemoryKept, HoldsLeaves, UploadsKept, HasAt, SetAt, ObjectsKept;
      ghost var start := Now();
      TargetCleared(start, id, at, c, plan, bits);
      TargetKnown(start, id, at, c, plan, bits);
      var body := objects[id].body;
      objects := objects[id := objects[id].(body := SetAt(body, at, PyPtr(At(body, at).ptr, None)))];
      ghost var cleared := Now();
      assert cleared == Cleared(start, id, at);
      if c.target in reverseObjectMap {
        NothingDone(cleared, {id}, bits);
      } else {
        r := Put(c.target, plan);
        if !r.Done? {
          if r.AssertionFailed? { BlamedTarget(start, id, at, c, plan); }
          return;
        }
        Opened(cleared, Now(), {id}, bits);
      }
      ghost var put := Now();
      var p := objects[c.target].addr.value + c.offset;
      TargetLinked(start, put, id, at, c, p, bits);
      LinkedWellFormed(start, put, id, at, c, p, plan, bits);
      objects := objects[id := objects[id].(body := SetAt(objects[id].body, at, PyPtr(Some(p), None)))];
      assert Now() == WithSlot(put, id, at, PyPtr(Some(p), None));
      SetAtSlot(put.objects[id].body, at, PyPtr(Some(p), None), at);
      return Done;
    }

    /** Writing the object, reading it into a new one and comparing the two: no
        difference is found exactly if the object comes back. */
    method Write(id: Id, ghost plan: map<Id, PyValue>) returns (same: bool)
      requires Usable(plan) && id in objects && objects[id].addr.Some? && PendingSlots(objects[id].body) == {}
      modifies irx.mem
      ensures same <==> id in plan && Returns(objects[id], plan[id])
      ensures same ==> Usable(plan) && Complete(Now(), id, bits) && Progressed(old(Now()), Now(), {}, bits)
      ensures irx.Valid() && id in plan
    {
      hide MyInterpreter.Valid, WorldOk, Uploadable, HoldsLeaves, Mismatches, ReadBack, Progressed, AllComeBack,
           Returns;
      ghost var before := Now();
      var o := objects[id];
      irx.Placed();
      ghost var b := Prepared(before, id, plan, bits);
      var written := SetStruct(irx, o.ty, o.addr.value, o.body, [], bits, [], b);
      ObjectRoundTrip(before.view, o.addr.value, o.ty, bits, o.body, o.fresh');
      var back := GetStruct(irx, o.ty, o.addr.value, o.fresh', [], bits, [], b);
      var mismatches := Compare(o.body, back.value, []);
      same := mismatches.value == [];
      if same { ObjectWritten(before, Now(), id, plan, bits); }
    }

    /** cache_offset: a place inside an object that has perhaps no address yet; `None` is
        an abort. */
    method CacheOffset(id: Id, path: seq<string>, ghost p: Path) returns (c: Option<ObjectOffset>)
      requires id in objects && MyInterpreter.Accessible(objects[id].ty, p) && path == Designators(objects[id].ty, p)
      ensures var t := objects[id].ty;
              && c == (if Addressable(t, p) then Some(ObjectOffset(id, PlaceOf(t, p).value)) else None)
              && (Addressable(t, p) && RightAt(Lower(t), t, p) ==>
                    c == Some(ObjectOffset(id, OffsetOf(t, p))) && RefOk(objects, c.value))
    {
      OffsetOfSpelling(objects[id].ty, p);
      PathInBounds(objects[id].ty, p);
      var bits := OffsetInBitsFromPath(objects[id].ty, path);
      if bits.None? { return None; }
      return Some(ObjectOffset(id, bits.value / 8));
    }

    /** Reading an object from its address, and registering it there. */
    method Get(id: Id, ptr: Option<nat>, ghost b: nat) returns (ok: bool)
      requires irx.Mapped() && id in objects
      requires objects[id].addr.None? <==> ptr.Some?
      requires var o := objects[id];
               && WellFormed(o.ty) && ValidPath(o.ty, []) && Conforms(o.ty, [], o.body)
               && NoOverread(o.ty, Leaves(o.ty, [], o.body))
               && Within(irx.allocator.vvmemStart, b, if ptr.Some? then ptr.value else o.addr.value, Size(o.ty))
      modifies this
      ensures var o := old(objects[id]);
              var a := if ptr.Some? then ptr.value else o.addr.value;
              var read := ReadBack(irx.View(), a, o.ty, bits, [], o.body);
              if ok then
                && read.Some? && objects == old(objects)[id := o.(addr := Some(a), body := read.value)]
                && objectMap == old(objectMap)[a := id] && reverseObjectMap == old(reverseObjectMap)[id := a]
              else read.None?
      ensures ok ==> Now() == AfterReading(old(Now()), id, objects[id].addr.value, objects[id].body)
    {
      var o := objects[id];
      var a := if ptr.Some? then ptr.value else o.addr.value;
      var body := GetStruct(irx, o.ty, a, o.body, [], bits, [], b);
      if body.None? { return false; }
      objects := objects[id := o.(addr := Some(a), body := body.value)];
      objectMap := objectMap[a := id];
      reverseObjectMap := reverseObjectMap[id := a];
      return true;
    }

    /** The object at an address: the one known there, else a new one read from memory.
        `fresh'` and `id` are what the pointer's class makes. */
    method Deref(addr: nat, ty: DIType, fresh': PyValue, id: Id, ghost b: nat) returns (r: Option<Id>)
      requires irx.Mapped() && id !in objects && WellFormed(ty) && ValidPath(ty, []) && Conforms(ty, [], fresh')
      requires NoOverread(ty, Leaves(ty, [], fresh'))
      requires addr !in objectMap ==> Within(irx.allocator.vvmemStart, b, addr, Size(ty))
      modifies this
      ensures addr in old(objectMap) ==>
                r == Some(old(objectMap)[addr]) && objects == old(objects) && objectMap == old(objectMap)
      ensures addr !in old(objectMap) ==>
                var read := ReadBack(irx.View(), addr, ty, bits, [], fresh');
                if read.Some? then
                  && r == Some(id) && addr in objectMap && objectMap[addr] == id
                  && objects == old(objects)[id := PyObj(ty, Some(addr), read.value, fresh')]
                else r == None
    {
      hide ReadBack, Conforms, Within, WellFormed, MyInterpreter.View;
      if addr !in objectMap {
        objects := objects[id := PyObj(ty, None, fresh', fresh')];
        var ok := Get(id, Some(addr), b);
        if !ok { return None; }
      }
      return Some(objectMap[addr]);
    }
  }

  lemma PutFinished(a: World, c: World, d: World, i: Id, bits: nat)
    requires Progressed(a, c, {i}, bits) && Progressed(c, d, {}, bits) && Complete(d, i, bits)
    ensures Progressed(a, d, {}, bits)
  {
    hide Progressed, Complete;
    Opened(c, d, {i}, bits);
    ProgressTwice(a, c, d, {i}, bits);
    Closed(a, d, i, bits);
  }

  /** What can be blamed later could be blamed before. */
  lemma BlamedEarlier(w: World, w': World, open: set<Id>, i: Id, plan: map<Id, PyValue>, bits: nat)
    requires Progressed(w, w', open, bits) && Blamed(w'.objects, plan, i)
    ensures Blamed(w.objects, plan, i)
  {
    hide Blamed, UploadsKept, MemoryKept, TargetsReached, PlacesNew;
    PointersKept(w, w');
    BlamedBefore(w.objects, w'.objects, plan, i);
  }

  lemma BlamedTarget(w: World, i: Id, at: Position, c: ObjectOffset, plan: map<Id, PyValue>)
    requires i in w.objects && Targets(w.objects[i].body, at, c) && Blamed(Cleared(w, i, at).objects, plan, c.target)
    ensures Blamed(w.objects, plan, i)
  {
    hide Blamed;
    ClearedPointers(w, i, at, c);
    BlamedBefore(w.objects, Cleared(w, i, at).objects, plan, c.target);
    BlamedThrough(w.objects, plan, i, c.target);
  }

  lemma TargetKnown(w: World, i: Id, at: Position, c: ObjectOffset, plan: map<Id, PyValue>, bits: nat)
    requires WorldOk(w, plan, bits) && i in w.objects && Targets(w.objects[i].body, at, c)
    ensures c.target in w.objects
    ensures c.target in w.registered ==> w.objects[c.target].addr.Some?
  {
    hide ObjectOk, Housed, Separate;
    assert RefsOk(w.objects, w.objects[i].body);
    assert RefOk(w.objects, c);
  }

  /** An object with nothing pending is ready to be written: it lies in a block, and
      every leaf can be encoded into its own bytes. */
  lemma Prepared(w: World, i: Id, plan: map<Id, PyValue>, bits: nat) returns (b: nat)
    requires WorldOk(w, plan, bits) && i in w.objects && w.objects[i].addr.Some?
    ensures var o := w.objects[i];
            && Within(w.starts, b, o.addr.value, Size(o.ty)) && Covers(w.view, o.addr.value, Size(o.ty))
            && Uploadable(o.ty, bits, o.body, o.fresh') && WellFormed(o.ty) && ValidPath(o.ty, [])
            && Conforms(o.ty, [], o.body) && Conforms(o.ty, [], o.fresh')
            && NoOverflow(o.ty, bits, Leaves(o.ty, [], o.body)) && NoOverread(o.ty, Leaves(o.ty, [], o.fresh'))
            && i in plan && (Returns(o, plan[i]) <==> AllComeBack(o.ty, Leaves(o.ty, [], o.body)))
  {
    hide Separate, RefsOk, FitsPlan, AllComeBack;
    var o := w.objects[i];
    assert ObjectOk(o, plan[i], bits) && Housed(w, o);
    b :| Within(w.starts, b, o.addr.value, Size(o.ty));
    ObjectLeaves(o, plan[i], bits);
    PlanComesBack(o.ty, plan[i], o.body, PointerLimit(bits));
    FreshReadable(o.ty, bits, o.body, o.fresh');
  }
}
