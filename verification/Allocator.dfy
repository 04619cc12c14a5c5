// IRXAllocator and MapAllocator: registering, looking up, translating and freeing
// blocks, freezing and rewinding the cursor, and teardown.
module Allocator {
  import opened Common
  import opened AddressSpace

  datatype Allocation = NoBlock | Block(start: nat, end: nat, data: AllocationData)

  /** `exit(EXIT_FAILURE)` has two causes in `add`. */
  datatype Added = Added(vvptr: nat) | OutOfAddresses | Overlapping

  // ---- The allocation list ----

  ghost predicate HasPointer(l: seq<AllocationData>, p: nat) {
    exists d :: d in l && d.vptr == p
  }

  /** The list holds exactly the entries of the start map, with host blocks apart. */
  ghost predicate Entries(starts: AllocationMap, l: seq<AllocationData>) {
    && (forall s | s in starts :: starts[s] in l)
    && (forall d | d in l :: d in starts.Values)
    && HostDisjoint(l)
  }

  /** Every pointer to free belongs to an entry, and is there once. */
  ghost predicate Owned(internal: seq<nat>, l: seq<AllocationData>) {
    Distinct(internal) && forall p | p in internal :: HasPointer(l, p)
  }

  lemma PutEntries(starts: AllocationMap, l: seq<AllocationData>, v: nat, d: AllocationData)
    requires Entries(starts, l) && v !in starts
    requires forall e | e in l :: HostApart(e.vptr, e.size, d.vptr, d.size)
    ensures Entries(starts[v := d], l + [d])
  {
    forall e | e in l + [d]
      ensures e in starts[v := d].Values
    {
      if e == d {
        assert v in starts[v := d].Keys && starts[v := d][v] == d;
      } else {
        assert e in l;
        var s :| s in starts && starts[s] == e;
        assert starts[v := d][s] == e;
      }
    }
  }

  lemma PutOwned(internal: seq<nat>, l: seq<AllocationData>, d: AllocationData)
    requires Owned(internal, l)
    ensures Owned(internal, l + [d])
    ensures d.vptr !in internal ==> Owned(internal + [d.vptr], l + [d])
  {
    forall p | p in internal
      ensures HasPointer(l + [d], p)
    {
      assert HasPointer(l, p);
      var e :| e in l && e.vptr == p;
      assert e in l + [d];
    }
    assert d in l + [d];
    assert HasPointer(l + [d], d.vptr);
    assert forall p | p in internal + [d.vptr] :: p in internal || p == d.vptr;
  }

  /** Entries are told apart by their host pointer as well. */
  lemma EntryOfPointer(starts: AllocationMap, ends: AllocationMap, l: seq<AllocationData>, s: nat, b: nat)
    requires Consistent(starts, ends) && Entries(starts, l) && s in starts && b in starts
    requires starts[s].vptr == starts[b].vptr
    ensures s == b
  {
    SamePointer(l, starts[s], starts[b]);
  }

  lemma EraseEntries(starts: AllocationMap, ends: AllocationMap, l: seq<AllocationData>, b: nat)
    requires Consistent(starts, ends) && Entries(starts, l) && b in starts
    ensures Entries(starts - {b}, Without(l, starts[b].vptr))
  {
    var vptr, starts' := starts[b].vptr, starts - {b};
    WithoutMembers(l, vptr);
    forall s | s in starts'
      ensures starts'[s] in Without(l, vptr)
    {
      assert starts[s] in l;
      if starts[s].vptr == vptr { EntryOfPointer(starts, ends, l, s, b); }
    }
    forall d | d in Without(l, vptr)
      ensures d in starts'.Values
    {
      WithoutMembersOf(l, vptr, d);
      var s :| s in starts && starts[s] == d;
      assert s in starts'.Keys && starts'[s] == d;
    }
  }

  lemma EraseOwned(internal: seq<nat>, l: seq<AllocationData>, vptr: nat)
    requires Owned(internal, l) && HostDisjoint(l)
    ensures Owned(Remove(internal, vptr), Without(l, vptr))
  {
    RemoveMembers(internal, vptr);
    WithoutMembers(l, vptr);
    forall p | p in Remove(internal, vptr)
      ensures HasPointer(Without(l, vptr), p)
    {
      assert HasPointer(l, p);
      var d :| d in l && d.vptr == p;
      assert d in Without(l, vptr);
    }
  }

  // ---- Changing one block in both maps ----

  lemma PutConsistent(starts: AllocationMap, ends: AllocationMap, v: nat, d: AllocationData)
    requires Consistent(starts, ends)
    requires forall s | s in starts :: s + starts[s].size < v
    requires forall s | s in starts :: starts[s] != d
    ensures Consistent(starts[v := d], ends[v + d.size := d])
  {
    PutOrdered(starts, v, d);
    var starts', ends' := starts[v := d], ends[v + d.size := d];
    forall s | s in starts'
      ensures EndAt(starts', s) in ends' && ends'[EndAt(starts', s)] == starts'[s]
    {
      if s != v { assert EndAt(starts, s) in ends; }
    }
    forall e | e in ends'
      ensures StartAt(ends', e) in starts' && starts'[StartAt(ends', e)] == ends'[e]
    {
      if e != v + d.size { assert StartAt(ends, e) in starts; }
    }
  }

  lemma PutOrdered(starts: AllocationMap, v: nat, d: AllocationData)
    requires Ordered(starts) && OwnEntries(starts)
    requires forall s | s in starts :: s + starts[s].size < v
    requires forall s | s in starts :: starts[s] != d
    ensures Ordered(starts[v := d]) && OwnEntries(starts[v := d])
  {
  }

  lemma EraseConsistent(starts: AllocationMap, ends: AllocationMap, v: nat)
    requires Consistent(starts, ends) && v in starts
    ensures Consistent(starts - {v}, ends - {v + starts[v].size})
  {
    var starts', ends' := starts - {v}, ends - {v + starts[v].size};
    assert EndAt(starts, v) in ends;
    forall s | s in starts'
      ensures EndAt(starts', s) in ends' && ends'[EndAt(starts', s)] == starts'[s]
    {
      assert EndAt(starts, s) in ends;
    }
    forall e | e in ends'
      ensures StartAt(ends', e) in starts' && starts'[StartAt(ends', e)] == ends'[e]
    {
      assert StartAt(ends, e) in starts;
    }
  }

  /** What holds of the two maps, the list, the pointers to free and the cursor in every
      reachable state. */
  ghost predicate State(starts: AllocationMap, ends: AllocationMap, l: seq<AllocationData>, internal: seq<nat>,
                        cursor: nat) {
    && Consistent(starts, ends)
    && (forall s | s in starts :: START_ADDR <= s && s + starts[s].size < cursor)
    && Entries(starts, l)
    && Owned(internal, l)
  }

  /** The cursor does not wrap around for anything that fits the host. */
  lemma CursorMoves(cursor: nat, size: nat)
    requires cursor <= END_ADDR && cursor % 4 == 0 && size <= HOST_LIMIT
    ensures size < Advance(size) && Moved(cursor, size) == cursor + Advance(size)
    ensures Moved(cursor, size) % 4 == 0
  {
    AdvanceExact(size);
  }

  lemma FewerBlocks(starts: AllocationMap, v: nat)
    requires v in starts
    ensures |starts - {v}| < |starts|
  {
    assert starts.Keys == (starts - {v}).Keys + {v};
  }

  lemma StateFacts(starts: AllocationMap, ends: AllocationMap, l: seq<AllocationData>, internal: seq<nat>, cursor: nat)
    requires State(starts, ends, l, internal, cursor)
    ensures Consistent(starts, ends) && Distinct(internal)
    ensures forall s | s in starts :: START_ADDR <= s && s + starts[s].size < cursor
  {
  }

  lemma PutState(starts: AllocationMap, ends: AllocationMap, l: seq<AllocationData>, internal: seq<nat>,
                 v: nat, d: AllocationData, cursor: nat)
    requires State(starts, ends, l, internal, v) && START_ADDR <= v && v + d.size < cursor
    requires d !in l && forall e | e in l :: HostApart(e.vptr, e.size, d.vptr, d.size)
    ensures State(starts[v := d], ends[v + d.size := d], l + [d], internal, cursor)
  {
    PutConsistent(starts, ends, v, d);
    PutEntries(starts, l, v, d);
    PutOwned(internal, l, d);
  }

  lemma EraseState(starts: AllocationMap, ends: AllocationMap, l: seq<AllocationData>, internal: seq<nat>,
                   v: nat, cursor: nat)
    requires State(starts, ends, l, internal, cursor) && v in starts
    ensures State(starts - {v}, ends - {v + starts[v].size}, Without(l, starts[v].vptr),
                  Remove(internal, starts[v].vptr), cursor)
  {
    EraseConsistent(starts, ends, v);
    EraseEntries(starts, ends, l, v);
    EraseOwned(internal, l, starts[v].vptr);
  }

  class MapAllocator {
    const vma: LinearVirtualMemoryAddressGenerator
    var vvmemStart: AllocationMap
    var vvmemEnd: AllocationMap
    var allocationsHolder: seq<AllocationData>
    /** Host pointers this allocator has to free. */
    var allocations: seq<nat>
    /** The calls made to the host's `free`, in order. */
    var freed: seq<nat>

    /** Every block lies below the cursor, the list and the maps hold the same entries,
        host blocks are apart, and the pointers to free belong to entries. */
    ghost predicate Valid()
      reads this, vma
    {
      && vma.Valid()
      && State(vvmemStart, vvmemEnd, allocationsHolder, allocations, vma.lastAllocAddr)
    }

    constructor ()
      ensures Valid() && fresh(vma) && fresh(this)
      ensures vma.lastAllocAddr == START_ADDR && vma.freezeStack == []
      ensures vvmemStart == map[] && vvmemEnd == map[] && allocationsHolder == []
      ensures allocations == [] && freed == []
    {
      vma := new LinearVirtualMemoryAddressGenerator();
      vvmemStart, vvmemEnd, allocationsHolder, allocations, freed := map[], map[], [], [], [];
    }

    /** Free room on the host for a new object. */
    predicate HostFits(vptr: nat, size: nat)
      reads this
    {
      && 0 < vptr && vptr + size <= HOST_LIMIT
      && forall d | d in allocationsHolder :: HostApart(d.vptr, d.size, vptr, size)
    }

    // ---- Lookup ----

    /** True between blocks too: some block starts at or below, some ends at or above. */
    method Has(vvptr: nat) returns (r: bool)
      requires Consistent(vvmemStart, vvmemEnd)
      ensures r <==> (exists s: nat :: s in vvmemStart && s <= vvptr) &&
                     (exists s: nat :: s in vvmemStart && vvptr <= s + vvmemStart[s].size)
    {
      var start := FindStart(vvmemStart, vvptr);
      var end := FindEnd(vvmemEnd, vvptr);
      r := start.Some? && end.Some?;
      if s: nat :| s in vvmemStart && vvptr <= s + vvmemStart[s].size {
        assert EndAt(vvmemStart, s) in vvmemEnd.Keys;
      }
      if end.Some? {
        assert StartAt(vvmemEnd, end.value) in vvmemStart;
        var s: nat := StartAt(vvmemEnd, end.value);
        assert vvptr <= s + vvmemStart[s].size;
      }
    }

    /** The block whose closed range holds the address, if there is one. */
    method Find(vvptr: nat) returns (r: Allocation)
      requires Consistent(vvmemStart, vvmemEnd)
      ensures match BlockOf(vvmemStart, vvptr)
              case None => r == NoBlock
              case Some(b) => r == Block(b, b + vvmemStart[b].size, vvmemStart[b])
    {
      var start := FindStart(vvmemStart, vvptr);
      var end := FindEnd(vvmemEnd, vvptr);
      LookupExact(vvmemStart, vvmemEnd, vvptr, start, end);
      if start.None? || end.None? { return NoBlock; }
      if vvmemStart[start.value] != vvmemEnd[end.value] { return NoBlock; }
      return Block(start.value, end.value, vvmemStart[start.value]);
    }

    /** The host address of an interpreter address; 0 outside every block. */
    ghost function HostOf(vvptr: nat): nat
      reads this
    {
      match BlockOf(vvmemStart, vvptr)
      case None => 0
      case Some(b) => vvmemStart[b].vptr + (vvptr - b)
    }

    method Vvptr2Vptr(vvptr: nat) returns (r: nat)
      requires Consistent(vvmemStart, vvmemEnd)
      ensures r == HostOf(vvptr)
    {
      var alloc := Find(vvptr);
      if alloc.Block? {
        return alloc.data.vptr + (vvptr - alloc.start);
      }
      return 0;
    }

    /** Only a block's own pointer translates back; 0 otherwise. */
    method Vptr2Vvptr(vptr: nat) returns (r: nat)
      requires Valid()
      ensures r != 0 ==> r in vvmemStart && vvmemStart[r].vptr == vptr
      ensures r == 0 ==> forall s | s in vvmemStart :: vvmemStart[s].vptr != vptr
    {
      StateFacts(vvmemStart, vvmemEnd, allocationsHolder, allocations, vma.lastAllocAddr);
      hide State;
      var rest := vvmemStart.Keys;
      while rest != {}
        invariant rest <= vvmemStart.Keys
        invariant forall s | s in vvmemStart && s !in rest :: vvmemStart[s].vptr != vptr
        decreases rest
      {
        var it :| it in rest;
        if vvmemStart[it].vptr == vptr {
          var offset := vptr - vvmemStart[it].vptr;
          return it + offset;
        }
        rest := rest - {it};
      }
      return 0;
    }

    // ---- Registering ----

    method Put(vvptr: nat, vptr: nat, size: nat)
      modifies this`allocationsHolder, this`vvmemStart, this`vvmemEnd
      ensures vvptr in vvmemStart
      ensures var d := vvmemStart[vvptr];
              && d == AllocationData(vptr, size)
              && vvmemStart == old(vvmemStart)[vvptr := d]
              && vvmemEnd == old(vvmemEnd)[vvptr + size := d]
              && allocationsHolder == old(allocationsHolder) + [d]
    {
      var d := AllocationData(vptr, size);
      allocationsHolder := allocationsHolder + [d];
      vvmemStart := vvmemStart[vvptr := d];
      vvmemEnd := vvmemEnd[vvptr + size := d];
    }

    /** The new state after a successful `add` of a host block at interpreter address `v`. */
    twostate predicate Registered(v: nat, vptr: nat, size: nat)
      reads this, vma
    {
      && v == old(vma.lastAllocAddr)
      && vma.lastAllocAddr == v + Advance(size)
      && v in vvmemStart && vvmemStart[v].vptr == vptr && vvmemStart[v].size == size
      && vvmemStart == old(vvmemStart)[v := vvmemStart[v]]
      && vvmemEnd == old(vvmemEnd)[v + size := vvmemStart[v]]
      && allocationsHolder == old(allocationsHolder) + [vvmemStart[v]]
    }

    /** The overlap check, for a range behind every block. */
    method Overlaps(v: nat, size: nat) returns (taken: bool)
      requires Consistent(vvmemStart, vvmemEnd)
      requires forall s | s in vvmemStart :: s + vvmemStart[s].size < v
      ensures !taken
    {
      NothingAbove(vvmemStart, v, v);
      NothingAbove(vvmemStart, v, v + size + 1);
      var below := Find(v);
      var above := Find(v + size + 1);
      return below.Block? || above.Block?;
    }

    /** The overlap check never fires. */
    method Add(vptr: nat, size: nat) returns (r: Added)
      requires Valid() && HostFits(vptr, size)
      modifies this`allocationsHolder, this`vvmemStart, this`vvmemEnd, vma`lastAllocAddr
      ensures !r.Overlapping?
      ensures r.Added? ==> Valid() && Registered(r.vvptr, vptr, size)
      ensures r.OutOfAddresses? <==> old(vma.lastAllocAddr) + Advance(size) > END_ADDR
    {
      CursorMoves(vma.lastAllocAddr, size);
      StateFacts(vvmemStart, vvmemEnd, allocationsHolder, allocations, vma.lastAllocAddr);
      hide State, Consistent, Distinct, HasPointer, Advance, Moved;
      ghost var starts, ends, l := vvmemStart, vvmemEnd, allocationsHolder;
      var next := vma.Next(size);
      if next.None? { return OutOfAddresses; }
      var v := next.value;
      var taken := Overlaps(v, size);
      if taken { return Overlapping; }
      Put(v, vptr, size);
      PutState(starts, ends, l, allocations, v, vvmemStart[v], vma.lastAllocAddr);
      return Added(v);
    }

    /** `vptr` is the block the host's `malloc` hands out. */
    method Malloc(vptr: nat, size: nat) returns (r: Added)
      requires Valid() && HostFits(vptr, size)
      modifies this`allocationsHolder, this`vvmemStart, this`vvmemEnd, this`allocations, vma`lastAllocAddr
      ensures !r.Overlapping?
      ensures r.Added? ==> Valid() && Registered(r.vvptr, vptr, size)
      ensures allocations == old(allocations) + [vptr]
      ensures r.OutOfAddresses? <==> old(vma.lastAllocAddr) + Advance(size) > END_ADDR
    {
      assert !HasPointer(allocationsHolder, vptr);
      r := Add(vptr, size);
      allocations := allocations + [vptr];
      if r.Added? {
        PutOwned(old(allocations), old(allocationsHolder), vvmemStart[r.vvptr]);
      }
    }

    // ---- Freeing ----

    method IsInternalAllocated(vptr: nat) returns (r: bool)
      ensures r <==> vptr in allocations
    {
      r := vptr in allocations;
    }

    /** The new state after the block at `b` is gone. */
    twostate predicate Unregistered(b: nat)
      reads this
    {
      && b in old(vvmemStart)
      && vvmemStart == old(vvmemStart) - {b}
      && vvmemEnd == old(vvmemEnd) - {b + old(vvmemStart)[b].size}
      && allocationsHolder == Without(old(allocationsHolder), old(vvmemStart)[b].vptr)
    }

    /** The block that is found leaves the maps and the list. */
    method RemoveBlock(vvptr: nat)
      requires Consistent(vvmemStart, vvmemEnd) && BlockOf(vvmemStart, vvptr).Some?
      modifies this`vvmemStart, this`vvmemEnd, this`allocationsHolder
      ensures Unregistered(old(BlockOf(vvmemStart, vvptr)).value)
    {
      var alloc := Find(vvptr);
      vvmemStart := vvmemStart - {alloc.start};
      vvmemEnd := vvmemEnd - {alloc.end};
      allocationsHolder := Without(allocationsHolder, alloc.data.vptr);
    }

    /** Gives the host block back if this allocator had asked for it. */
    method Free(vvptr: nat)
      requires Valid() && BlockOf(vvmemStart, vvptr).Some?
      modifies this
      ensures Valid()
      ensures Unregistered(old(BlockOf(vvmemStart, vvptr)).value)
      ensures var vptr := old(vvmemStart[BlockOf(vvmemStart, vvptr).value]).vptr;
              && allocations == Remove(old(allocations), vptr)
              && freed == old(freed) + (if vptr in old(allocations) then [vptr] else [])
    {
      hide Consistent, Entries, Owned;
      var alloc := Find(vvptr);
      var vptr := alloc.data.vptr;
      var internal := IsInternalAllocated(vptr);
      EraseState(vvmemStart, vvmemEnd, allocationsHolder, allocations, alloc.start, vma.lastAllocAddr);
      if internal {
        freed := freed + [vptr];
        allocations := Remove(allocations, vptr);
      } else {
        RemoveAbsent(allocations, vptr);
      }
      RemoveBlock(vvptr);
    }

    // ---- Freezing ----

    method Freeze()
      modifies vma`freezeStack
      ensures vma.freezeStack == old(vma.freezeStack) + [vma.lastAllocAddr]
    {
      vma.Freeze();
    }

    /** Rewinding is safe once everything above the mark has been freed. */
    method Reset()
      requires Valid() && vma.freezeStack != []
      requires var mark := vma.freezeStack[|vma.freezeStack| - 1];
               && START_ADDR <= mark <= END_ADDR && mark % 4 == 0
               && forall s | s in vvmemStart :: s + vvmemStart[s].size < mark
      modifies vma
      ensures Valid()
      ensures vma.lastAllocAddr == old(vma.freezeStack)[|old(vma.freezeStack)| - 1]
      ensures vma.freezeStack == old(vma.freezeStack)[..|old(vma.freezeStack)| - 1]
    {
      vma.Reset();
    }

    // ---- Teardown ----

    method Begin() returns (k: nat)
      requires |vvmemStart| > 0
      ensures k in vvmemStart && forall s | s in vvmemStart :: k <= s
    {
      k :| k in vvmemStart;
      var seen := {k};
      while seen != vvmemStart.Keys
        invariant seen <= vvmemStart.Keys && k in seen
        invariant forall s | s in seen :: k <= s
        decreases vvmemStart.Keys - seen
      {
        assert exists x :: x in vvmemStart.Keys && x !in seen;
        var it :| it in vvmemStart.Keys && it !in seen;
        seen := seen + {it};
        if it < k { k := it; }
      }
    }

    /** One turn of the destructor's loop. */
    method FreeFirst()
      requires Valid() && |vvmemStart| > 0
      modifies this
      ensures Valid() && |vvmemStart| < |old(vvmemStart)|
      ensures multiset(freed) + multiset(allocations) == multiset(old(freed)) + multiset(old(allocations))
      ensures old(freed) <= freed
    {
      StateFacts(vvmemStart, vvmemEnd, allocationsHolder, allocations, vma.lastAllocAddr);
      hide State;
      var first := Begin();
      BlockUnique(vvmemStart, first, first);
      FreedOnce(freed, allocations, vvmemStart[first].vptr);
      ghost var starts := vvmemStart;
      Free(first);
      FewerBlocks(starts, first);
    }

    /** The destructor frees every host block this allocator asked for exactly once, and
        no other, and leaves nothing registered. */
    method Destroy()
      requires Valid()
      modifies this
      ensures vvmemStart == map[] && vvmemEnd == map[] && allocationsHolder == [] && allocations == []
      ensures multiset(freed) == multiset(old(freed)) + multiset(old(allocations))
      ensures old(freed) <= freed
    {
      while |vvmemStart| > 0
        invariant Valid()
        invariant multiset(freed) + multiset(allocations) == multiset(old(freed)) + multiset(old(allocations))
        invariant old(freed) <= freed
        decreases |vvmemStart|
      {
        FreeFirst();
      }
      EndsImplyStarts(vvmemStart, vvmemEnd);
      NothingOwned(allocations, allocationsHolder, vvmemStart);
    }
  }

  /** Moving a pointer from the pointers to free to the log loses and repeats nothing. */
  lemma FreedOnce(freed: seq<nat>, internal: seq<nat>, vptr: nat)
    requires Distinct(internal)
    ensures multiset(freed + (if vptr in internal then [vptr] else [])) + multiset(Remove(internal, vptr)) ==
            multiset(freed) + multiset(internal)
  {
    if vptr in internal {
      RemoveMembers(internal, vptr);
    } else {
      RemoveAbsent(internal, vptr);
      assert freed + [] == freed;
    }
  }

  lemma EndsImplyStarts(starts: AllocationMap, ends: AllocationMap)
    requires Consistent(starts, ends)
    ensures ends != map[] ==> starts != map[]
  {
    if ends != map[] {
      var e :| e in ends;
      assert StartAt(ends, e) in starts;
    }
  }

  lemma NothingOwned(internal: seq<nat>, l: seq<AllocationData>, starts: AllocationMap)
    requires Entries(starts, l) && Owned(internal, l)
    ensures starts == map[] ==> l == []
    ensures l == [] ==> internal == []
  {
    if l != [] { assert l[0] in starts.Values; }
    if internal != [] { assert HasPointer(l, internal[0]); }
  }

  lemma NothingAbove(starts: AllocationMap, v: nat, k: nat)
    requires v <= k && forall s | s in starts :: s + starts[s].size < v
    ensures BlockOf(starts, k) == None
  {
  }

  lemma SamePointer(l: seq<AllocationData>, d: AllocationData, e: AllocationData)
    requires HostDisjoint(l) && d in l && e in l && d.vptr == e.vptr
    ensures d == e
  {
    var i :| 0 <= i < |l| && l[i] == d;
    var j :| 0 <= j < |l| && l[j] == e;
    assert !(i < j) && !(j < i);
  }
}
