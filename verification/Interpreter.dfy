// MyInterpreter's side of memory: creation, allocation, the reset between runs, and
// typed reads and writes through a translated base address.
module Interpreter {
  import opened Common
  import opened TypePaths
  import opened ByteMemory
  import opened AddressSpace
  import opened Allocator
  import opened FrozenState
  import opened FlatView
  import opened InitMemory
  import opened Layout
  import opened Globals
  import opened DebugTypes
  import opened Offsets
  import opened Spelling

  lemma EntriesApart(starts: AllocationMap, ends: AllocationMap, l: seq<AllocationData>)
    requires Consistent(starts, ends) && Entries(starts, l)
    ensures HostBlocksApart(starts)
  {
    forall s, t | s in starts && t in starts && s != t
      ensures HostApart(starts[s].vptr, starts[s].size, starts[t].vptr, starts[t].size)
    {
      var i :| 0 <= i < |l| && l[i] == starts[s];
      var j :| 0 <= j < |l| && l[j] == starts[t];
      if i < j {
        assert HostApart(l[i].vptr, l[i].size, l[j].vptr, l[j].size);
      } else {
        assert HostApart(l[j].vptr, l[j].size, l[i].vptr, l[i].size);
      }
    }
  }

  class MyInterpreter {
    const allocator: MapAllocator
    /** Host memory; indices are host addresses. */
    const mem: array<byte>
    /** Interpreter addresses handed out since creation or the last reset. */
    var allocations: seq<nat>
    /** The calls under way; what a frame holds plays no part here. */
    var ecStack: seq<nat>
    /** The value the last run ended with. */
    var exitValue: Option<Bytes>
    /** The global variables that have an initialiser. */
    var globals: seq<GlobalVariable>
    ghost var frozen: Frozen
    ghost var sizes: seq<nat>

    ghost predicate Valid()
      reads this, allocator, allocator.vma
    {
      && allocator.Valid()
      && mem.Length <= HOST_LIMIT
      && InHost(allocator.vvmemStart, mem.Length)
      && FrozenOk(frozen)
      && HaveBlocks(frozen.starts, globals)
      && allocator.vma.freezeStack == [frozen.mark]
      && FrozenPlus(frozen, allocations, allocator.vvmemStart, allocator.allocationsHolder, allocator.allocations)
      && allocations == Addresses(frozen.mark, sizes)
      && allocator.vma.lastAllocAddr == CursorAfter(frozen.mark, sizes)
    }

    ghost function View(): View
      reads this, allocator, mem
    {
      ViewOf(allocator.vvmemStart, mem[..])
    }

    constructor (mem: array<byte>)
      ensures fresh(this) && fresh(allocator) && fresh(allocator.vma) && this.mem == mem
      ensures allocator.Valid() && allocator.vvmemStart == map[] && allocator.vvmemEnd == map[]
      ensures allocator.allocationsHolder == [] && allocator.allocations == [] && allocations == []
      ensures allocator.vma.freezeStack == [] && allocator.vma.lastAllocAddr == START_ADDR
    {
      this.mem := mem;
      allocator := new MapAllocator();
      allocations, globals := [], [];
      ecStack, exitValue := [], None;
      frozen := Frozen(map[], map[], [], [], START_ADDR);
      sizes := [];
    }

    /** createInterpreter, from the registration of globals and functions on: each host
        object is added in turn, the globals first; the globals are initialised; then the
        allocator is frozen. `inits` are the globals' initialisers. False is the exit for
        an exhausted address window. */
    method CreateInterpreter(objects: seq<AllocationData>, inits: seq<Constant>) returns (ok: bool)
      requires allocator.Valid() && allocator.vvmemStart == map[] && allocator.vma.freezeStack == []
      requires allocations == [] && allocator.allocations == [] && mem.Length <= HOST_LIMIT
      requires HostDisjoint(objects)
      requires forall d | d in objects :: 0 < d.vptr && d.vptr + d.size <= mem.Length
      requires |inits| <= |objects|
      requires forall i | 0 <= i < |inits| :: WellTyped(inits[i]) && objects[i].size == AllocSize(TypeOf(inits[i]))
      modifies this, allocator, allocator.vma, mem
      ensures ok ==> Valid() && allocator.allocationsHolder == objects && frozen.starts == allocator.vvmemStart
      ensures ok ==> forall d | d in objects :: d in frozen.starts.Values
      ensures ok ==> |globals| == |inits| && forall i | 0 <= i < |globals| ::
                       && globals[i].init == inits[i]
                       && globals[i].vvptr in frozen.starts && frozen.starts[globals[i].vvptr] == objects[i]
      ensures ok ==> AllInitialised(View(), globals, |globals|)
    {
      var added := AddObjects(objects, inits);
      if !added { return false; }
      GlobalsHaveBlocks(allocator.vvmemStart, globals, objects, inits);
      EntriesApart(allocator.vvmemStart, allocator.vvmemEnd, allocator.allocationsHolder);
      InitializeGlobals();
      FreezeMemory();
      return true;
    }

    /** The first `i` host objects have been added and nothing else. */
    ghost predicate Holds(objects: seq<AllocationData>, inits: seq<Constant>, i: nat)
      requires i <= |objects| && |inits| <= |objects|
      reads this, allocator, allocator.vma
    {
      && allocator.Valid() && allocator.vma.freezeStack == [] && allocator.allocations == []
      && allocator.allocationsHolder == objects[..i]
      && InHost(allocator.vvmemStart, mem.Length)
      && GlobalsOf(allocator.vvmemStart, globals, objects, inits, i)
    }

    /** Adds the host objects in turn; the first of them are the globals with an initialiser. */
    method AddObjects(objects: seq<AllocationData>, inits: seq<Constant>) returns (ok: bool)
      requires allocator.Valid() && allocator.vvmemStart == map[] && allocator.vma.freezeStack == []
      requires allocator.allocations == [] && HostDisjoint(objects)
      requires |inits| <= |objects| && mem.Length <= HOST_LIMIT
      requires forall d | d in objects :: 0 < d.vptr && d.vptr + d.size <= mem.Length
      modifies this`globals, allocator, allocator.vma
      ensures ok ==> Holds(objects, inits, |objects|) && allocator.allocationsHolder == objects
    {
      EmptyList(allocator.vvmemStart, allocator.allocationsHolder);
      globals := [];
      for i := 0 to |objects|
        invariant Holds(objects, inits, i)
      {
        hide Holds;
        var added := AddObject(objects, inits, i);
        if !added { return false; }
      }
      assert objects[..|objects|] == objects;
      return true;
    }

    method AddObject(objects: seq<AllocationData>, inits: seq<Constant>, i: nat) returns (ok: bool)
      requires i < |objects| && |inits| <= |objects| && Holds(objects, inits, i)
      requires HostDisjoint(objects) && mem.Length <= HOST_LIMIT
      requires forall d | d in objects :: 0 < d.vptr && d.vptr + d.size <= mem.Length
      modifies this`globals, allocator, allocator.vma
      ensures ok ==> Holds(objects, inits, i + 1)
    {
      hide GlobalsOf, HostDisjoint, HostApart, State, InHost;
      var d := objects[i];
      assert d in objects;
      NextApart(objects, i);
      ghost var starts := allocator.vvmemStart;
      BlocksBelow(starts, allocator.vvmemEnd, allocator.allocationsHolder, [], allocator.vma.lastAllocAddr);
      var r := allocator.Add(d.vptr, d.size);
      if !r.Added? { return false; }
      assert objects[..i + 1] == objects[..i] + [d];
      MoreInHost(starts, r.vvptr, allocator.vvmemStart[r.vvptr], mem.Length);
      NewAddress(starts, r.vvptr);
      OneMoreRegistered(starts, globals, objects, inits, i, r.vvptr, allocator.vvmemStart);
      if i < |inits| { globals := globals + [GlobalVariable(r.vvptr, inits[i])]; }
      return true;
    }

    /** Everything registered so far becomes the state a reset goes back to. */
    method FreezeMemory()
      requires allocator.Valid() && allocator.vma.freezeStack == [] && allocator.allocations == []
      requires mem.Length <= HOST_LIMIT && InHost(allocator.vvmemStart, mem.Length)
      requires HaveBlocks(allocator.vvmemStart, globals)
      modifies this`frozen, this`sizes, this`allocations, allocator.vma
      ensures Valid() && frozen.starts == allocator.vvmemStart
    {
      frozen := Frozen(allocator.vvmemStart, allocator.vvmemEnd, allocator.allocationsHolder, [],
                       allocator.vma.lastAllocAddr);
      sizes, allocations := [], [];
      NothingExtra(frozen);
      allocator.Freeze();
    }

    /** Each global is looked up through its interpreter address and initialised in the
        host block found there. */
    method InitializeGlobals()
      requires Mapped() && HaveBlocks(allocator.vvmemStart, globals)
      modifies mem
      ensures AllInitialised(View(), globals, |globals|)
      ensures OnlyGlobalsChange(globals, old(View()), View())
    {
      ghost var start := View();
      for n := 0 to |globals|
        invariant AllInitialised(View(), globals, n) && OnlyGlobalsChange(globals, start, View())
      {
        hide AllInitialised, OnlyGlobalsChange, ImageOf, Consistent, WellPlaced, HasBlock, ViewOf;
        assert HasBlock(allocator.vvmemStart, globals[n]);
        OneMoreGlobal(allocator.vvmemStart, globals, n, start, mem[..]);
        InitializeGlobal(globals[n]);
      }
    }

    method InitializeGlobal(g: GlobalVariable)
      requires Mapped() && HasBlock(allocator.vvmemStart, g)
      requires allocator.vvmemStart[g.vvptr].vptr + AllocSize(TypeOf(g.init)) <= mem.Length
      modifies mem
      ensures mem[..] == Overlay(old(mem[..]), allocator.vvmemStart[g.vvptr].vptr, ImageOf(g.init))
    {
      hide ImageOf, Consistent, WellPlaced, Overlay, WellTyped, AllocSize;
      HostOfGlobal(allocator.vvmemStart, g, mem.Length);
      var known := allocator.Has(g.vvptr);
      if known {
        var ga := allocator.Vvptr2Vptr(g.vvptr);
        if ga != 0 { InitializeMemory(g.init, mem, ga); }
      }
    }

    /** `malloc` on the host: any free place, or failure. */
    method SafeMalloc(size: nat) returns (p: Option<nat>)
      ensures p.Some? ==> allocator.HostFits(p.value, size) && p.value + size <= mem.Length
    {
      var place: nat := *;
      if place + size <= mem.Length && allocator.HostFits(place, size) {
        return Some(place);
      }
      return None;
    }

    /** The block at `v` is new, lies behind every other block, and the other blocks are
        what they were. */
    twostate predicate NewBlock(v: nat, size: nat)
      reads this, allocator
    {
      && v !in old(allocator.vvmemStart)
      && v in allocator.vvmemStart && allocator.vvmemStart[v].size == size
      && allocator.vvmemStart == old(allocator.vvmemStart)[v := allocator.vvmemStart[v]]
      && forall s | s in old(allocator.vvmemStart) :: s + old(allocator.vvmemStart)[s].size < v
    }

    /** A new block at the cursor; the interpreter remembers it for the next reset.
        `None` is an abort. */
    method Malloc(size: nat) returns (r: Option<nat>)
      requires Valid()
      modifies this`allocations, this`sizes, allocator, allocator.vma`lastAllocAddr
      ensures frozen == old(frozen)
      ensures r.Some? ==> Valid() && r.value == old(allocator.vma.lastAllocAddr)
      ensures r.Some? ==> 0x5000_0000 <= r.value && r.value + size < 0x5800_0000 && r.value % 4 == 0
      ensures r.Some? ==> sizes == old(sizes) + [size] && allocations == old(allocations) + [r.value]
      ensures r.Some? ==> NewBlock(r.value, size)
    {
      hide HaveBlocks, State, InHost, FrozenPlus, FrozenOk, Addresses, CursorAfter;
      var host := SafeMalloc(size);
      if host.None? { return None; }
      ghost var starts, entries, internal := allocator.vvmemStart, allocator.allocationsHolder, allocator.allocations;
      BlocksBelow(starts, allocator.vvmemEnd, entries, internal, allocator.vma.lastAllocAddr);
      var alloc := allocator.Malloc(host.value, size);
      if !alloc.Added? { return None; }
      var v := alloc.vvptr;
      BlocksBelow(allocator.vvmemStart, allocator.vvmemEnd, allocator.allocationsHolder, allocator.allocations,
                  allocator.vma.lastAllocAddr);
      MoreInHost(starts, v, allocator.vvmemStart[v], mem.Length);
      PlusOne(frozen, allocations, starts, entries, internal, v, allocator.vvmemStart[v]);
      AddressesGrow(frozen.mark, sizes, size);
      allocations, sizes := allocations + [v], sizes + [size];
      return Some(v);
    }

    /** structAlloc: the new block is room for one object. Its bytes are new, and no
        byte of any other block changes. */
    method StructAlloc(size: nat) returns (r: Option<nat>)
      requires Valid()
      modifies this`allocations, this`sizes, allocator, allocator.vma`lastAllocAddr
      ensures frozen == old(frozen)
      ensures r.Some? ==> Valid() && NewBlock(r.value, size)
      ensures r.Some? ==> sizes == old(sizes) + [size] && allocations == old(allocations) + [r.value]
      ensures r.Some? ==> Extends(View(), old(View())) && Covers(View(), r.value, size)
      ensures r.Some? ==> forall k: nat | r.value <= k < r.value + size :: k !in old(View())
    {
      hide Valid, WellPlaced, Consistent, ViewOf, Covers, Extends;
      Placed();
      ghost var starts := allocator.vvmemStart;
      r := Malloc(size);
      if r.Some? {
        Placed();
        ViewGrows(starts, mem[..], r.value, allocator.vvmemStart[r.value]);
      }
    }

    /** The allocator part of the reset: free everything allocated since the freeze,
        rewind the cursor and freeze again. The allocator is back in exactly its frozen
        state, so the next run hands out the same addresses. */
    method ResetAllocations()
      requires Valid()
      modifies this`allocations, this`sizes, allocator, allocator.vma
      ensures Valid() && frozen == old(frozen) && sizes == [] && allocations == []
      ensures allocator.vvmemStart == frozen.starts && allocator.vvmemEnd == frozen.ends
      ensures allocator.allocationsHolder == frozen.entries && allocator.allocations == frozen.internal
      ensures allocator.vma.lastAllocAddr == frozen.mark && allocator.vma.freezeStack == [frozen.mark]
    {
      hide Consistent, HaveBlocks;
      for k := 0 to |allocations|
        invariant allocator.Valid() && allocator.vma.freezeStack == [frozen.mark]
        invariant allocations == old(allocations)
        invariant InHost(allocator.vvmemStart, mem.Length)
        invariant FrozenPlus(frozen, allocations[k..], allocator.vvmemStart, allocator.allocationsHolder,
                             allocator.allocations)
      {
        FreeOldest(k);
      }
      assert allocations[|allocations|..] == [];
      BackToFrozen(frozen, allocator.vvmemStart, allocator.vvmemEnd, allocator.allocationsHolder,
                   allocator.allocations);
      allocations, sizes := [], [];
      Refreeze();
    }

    method Refreeze()
      requires allocator.Valid() && allocator.vma.freezeStack == [frozen.mark]
      requires START_ADDR <= frozen.mark <= END_ADDR && frozen.mark % 4 == 0
      requires forall s | s in allocator.vvmemStart :: s + allocator.vvmemStart[s].size < frozen.mark
      modifies allocator.vma
      ensures allocator.Valid() && allocator.vma.freezeStack == [frozen.mark]
      ensures allocator.vma.lastAllocAddr == frozen.mark
    {
      allocator.Reset();
      allocator.Freeze();
    }

    /** Between runs: the allocator goes back to its frozen state and every global to
        its initialiser, and nothing is under way any more. */
    method ResetExtraAllocations()
      requires Valid()
      modifies this`allocations, this`sizes, this`ecStack, this`exitValue, allocator, allocator.vma, mem
      ensures Valid() && frozen == old(frozen) && sizes == [] && allocations == []
      ensures ecStack == [] && exitValue == None
      ensures ResetFrom(old(View()), View(), globals)
      ensures allocator.vvmemStart == frozen.starts && allocator.vvmemEnd == frozen.ends
      ensures allocator.allocationsHolder == frozen.entries && allocator.allocations == frozen.internal
      ensures allocator.vma.lastAllocAddr == frozen.mark && allocator.vma.freezeStack == [frozen.mark]
      ensures AllInitialised(View(), globals, |globals|)
    {
      hide FrozenPlus, FrozenOk, Addresses, CursorAfter, InHost, HaveBlocks, AllInitialised, OnlyGlobalsChange, Extends,
           ResetFrom;
      ghost var before := View();
      Placed();
      ghost var starts := allocator.vvmemStart;
      FrozenAmong(frozen, allocations, starts, allocator.allocationsHolder, allocator.allocations);
      ResetAllocations();
      ecStack, exitValue := [], None;
      Placed();
      ViewShrinks(starts, allocator.vvmemStart, mem[..]);
      ghost var shrunk := View();
      InitializeGlobals();
      OnlyGlobalsReset(globals, before, shrunk, View());
    }

    method FreeOldest(k: nat)
      requires k < |allocations| && FrozenOk(frozen)
      requires allocator.Valid() && InHost(allocator.vvmemStart, mem.Length)
      requires FrozenPlus(frozen, allocations[k..], allocator.vvmemStart, allocator.allocationsHolder,
                          allocator.allocations)
      modifies allocator
      ensures allocator.Valid() && InHost(allocator.vvmemStart, mem.Length)
      ensures FrozenPlus(frozen, allocations[k + 1..], allocator.vvmemStart, allocator.allocationsHolder,
                         allocator.allocations)
    {
      var vvptr := allocations[k];
      assert allocations[k..][0] == vvptr && allocations[k..][1..] == allocations[k + 1..];
      assert vvptr in allocations[k..];
      MinusFirst(frozen, allocations[k..], allocator.vvmemStart, allocator.allocationsHolder, allocator.allocations);
      BlockUnique(allocator.vvmemStart, vvptr, vvptr);
      allocator.Free(vvptr);
    }

    // ---- Translated access ----

    /** What translation and typed access rely on. */
    ghost predicate Mapped()
      reads this, allocator
    {
      Consistent(allocator.vvmemStart, allocator.vvmemEnd) && WellPlaced(allocator.vvmemStart, mem.Length)
    }

    method Vvptr2Vptr(vvptr: nat) returns (r: nat)
      requires Mapped()
      ensures r == Translated(allocator.vvmemStart, vvptr)
    {
      var known := allocator.Has(vvptr);
      if known {
        r := allocator.Vvptr2Vptr(vvptr);
        if BlockOf(allocator.vvmemStart, vvptr).None? { assert InSpan(allocator.vvmemStart, vvptr); }
      } else {
        r := vvptr;
        NoSpanNoBlock(allocator.vvmemStart, vvptr);
      }
    }

    /** The path of a typed access: it has a spelling. */
    static ghost predicate Accessible(t: DIType, p: Path) {
      t.Struct? && WellFormed(t) && ValidPath(t, p) && p != [] && EndsNamed(t, p)
    }

    lemma Placed()
      requires Valid()
      ensures Mapped()
    {
      EntriesApart(allocator.vvmemStart, allocator.vvmemEnd, allocator.allocationsHolder);
    }

    /** The host address of a field of the object at `m`, which lies inside the block at
        `b`: translate the base, then add the place the walk gives. `None` is an abort. */
    method FieldAddress(t: DIType, m: nat, needle: seq<string>, ghost p: Path, ghost b: nat) returns (r: Option<nat>)
      requires Mapped() && Accessible(t, p) && needle == Designators(t, p)
      requires Within(allocator.vvmemStart, b, m, 0)
      ensures r == if Addressable(t, p) then Some(allocator.vvmemStart[b].vptr + (m - b) + PlaceOf(t, p).value)
                   else None
    {
      hide Translated, StopsAtElementRecord, PlaceOf, OffsetInBits;
      var host := Vvptr2Vptr(m);
      OffsetOfSpelling(t, p);
      LiveTranslation(allocator.vvmemStart, b, m, 0);
      var bits := OffsetInBitsFromPath(t, needle);
      if bits.None? { return None; }
      return Some(host + bits.value / 8);
    }

    /** A copy to host address `host`, which the address `a` in the block at `b`
        translates to, writes the flat memory at `a`. */
    method CopyIn(ghost b: nat, ghost a: nat, host: nat, value: Bytes)
      requires Mapped() && Within(allocator.vvmemStart, b, a, |value|)
      requires host == allocator.vvmemStart[b].vptr + (a - b)
      modifies mem
      ensures View() == ViewWrite(old(View()), a, value)
    {
      ghost var starts, before := allocator.vvmemStart, mem[..];
      WriteThroughBlock(starts, before, b, a, host, value);
      Memcpy(mem, host, value);
    }

    /** The flat memory covers whatever lies inside a block. */
    lemma Covered(b: nat, a: nat, n: nat)
      requires Mapped() && Within(allocator.vvmemStart, b, a, n)
      ensures Covers(View(), a, n)
    {
      BlockCovered(allocator.vvmemStart, mem[..], b, a, n);
    }

    method CopyOut(ghost b: nat, ghost a: nat, host: nat, len: nat) returns (r: Bytes)
      requires Mapped() && Within(allocator.vvmemStart, b, a, len)
      requires host == allocator.vvmemStart[b].vptr + (a - b)
      ensures Covers(View(), a, len) && r == ViewRead(View(), a, len)
    {
      hide WellPlaced, Consistent, ViewOf, Covers;
      BlockCovered(allocator.vvmemStart, mem[..], b, a, len);
      r := mem[host..host + len];
      CutTwice(mem[..], host, len);
    }

    /** Writing the field that the walk puts at flat address `a` changes the flat memory
        there and nowhere else; where the walk aborts, nothing is written. */
    method StructSet(t: DIType, m: nat, needle: seq<string>, value: Bytes, ghost p: Path, ghost b: nat, ghost a: nat)
      returns (ok: bool)
      requires Mapped() && Accessible(t, p) && needle == Designators(t, p)
      requires Within(allocator.vvmemStart, b, m, 0)
      requires Addressable(t, p) ==> a == m + PlaceOf(t, p).value && Within(allocator.vvmemStart, b, a, |value|)
      modifies mem
      ensures ok == Addressable(t, p)
      ensures View() == if ok then ViewWrite(old(View()), a, value) else old(View())
    {
      var at := FieldAddress(t, m, needle, p, b);
      if at.None? { return false; }
      CopyIn(b, a, at.value, value);
      return true;
    }

    /** Reading that field returns the flat memory at `a`. */
    method StructGet(t: DIType, m: nat, needle: seq<string>, len: nat, ghost p: Path, ghost b: nat, ghost a: nat)
      returns (r: Option<Bytes>)
      requires Mapped() && Accessible(t, p) && needle == Designators(t, p)
      requires Within(allocator.vvmemStart, b, m, 0)
      requires Addressable(t, p) ==> a == m + PlaceOf(t, p).value && Within(allocator.vvmemStart, b, a, len)
      ensures Addressable(t, p) ==> Covers(View(), a, len) && r == Some(ViewRead(View(), a, len))
      ensures !Addressable(t, p) ==> r == None
    {
      var at := FieldAddress(t, m, needle, p, b);
      if at.None? { return None; }
      var bytes := CopyOut(b, a, at.value, len);
      return Some(bytes);
    }
  }

  lemma CutTwice(m: Bytes, a: nat, n: nat)
    requires a + n <= |m|
    ensures m[a..a + n] == m[a..][..n]
  {
  }

  lemma EmptyList(starts: AllocationMap, l: seq<AllocationData>)
    requires Entries(starts, l)
    ensures starts == map[] ==> l == []
  {
    if l != [] { assert l[0] in starts.Values; }
  }

  lemma NothingExtra(f: Frozen)
    requires f.internal == []
    ensures FrozenPlus(f, [], f.starts, f.entries, f.internal)
  {
    assert f.starts.Keys - (set a | a in []) == f.starts.Keys;
  }

  lemma NoSpanNoBlock(starts: AllocationMap, k: nat)
    ensures BlockOf(starts, k).Some? ==> InSpan(starts, k)
  {
    if BlockOf(starts, k).Some? {
      var b := BlockOf(starts, k).value;
      assert b in starts && b <= k && k <= b + starts[b].size;
    }
  }

  /** After the first `i` host objects have been added: the globals among them, each with
      the block of its object. */
  ghost predicate GlobalsOf(starts: AllocationMap, gs: seq<GlobalVariable>, objects: seq<AllocationData>,
                            inits: seq<Constant>, i: nat)
    requires i <= |objects| && |inits| <= |objects|
  {
    && |gs| == (if i < |inits| then i else |inits|)
    && (forall j | 0 <= j < |gs| ::
          gs[j].init == inits[j] && gs[j].vvptr in starts && starts[gs[j].vvptr] == objects[j])
    && forall j, k | 0 <= j < k < |gs| :: gs[j].vvptr != gs[k].vvptr
  }

  lemma OneMoreRegistered(starts: AllocationMap, gs: seq<GlobalVariable>, objects: seq<AllocationData>,
                          inits: seq<Constant>, i: nat, v: nat, starts': AllocationMap)
    requires i < |objects| && |inits| <= |objects| && GlobalsOf(starts, gs, objects, inits, i)
    requires v !in starts && starts' == starts[v := objects[i]]
    ensures GlobalsOf(starts', if i < |inits| then gs + [GlobalVariable(v, inits[i])] else gs, objects, inits, i + 1)
  {
  }

  lemma GlobalsHaveBlocks(starts: AllocationMap, gs: seq<GlobalVariable>, objects: seq<AllocationData>,
                          inits: seq<Constant>)
    requires |inits| <= |objects| && GlobalsOf(starts, gs, objects, inits, |objects|)
    requires forall i | 0 <= i < |inits| :: WellTyped(inits[i]) && objects[i].size == AllocSize(TypeOf(inits[i]))
    ensures HaveBlocks(starts, gs)
  {
  }

  /** The block of a global is found, and translates to its host pointer. */
  lemma HostOfGlobal(starts: AllocationMap, g: GlobalVariable, limit: nat)
    requires HasBlock(starts, g) && WellPlaced(starts, limit)
    ensures 0 < starts[g.vvptr].vptr && InSpan(starts, g.vvptr)
    ensures BlockOf(starts, g.vvptr) == Some(g.vvptr)
  {
    BlockUnique(starts, g.vvptr, g.vvptr);
  }

  /** Nothing new is live, and of the live bytes only those that some initialiser
      determines have changed. */
  ghost predicate ResetFrom(v: View, w: View, gs: seq<GlobalVariable>) {
    forall k | k in w :: k in v && (w[k] == v[k] || exists i :: 0 <= i < |gs| && Determines(gs[i], k))
  }

  lemma OnlyGlobalsReset(gs: seq<GlobalVariable>, v: View, u: View, w: View)
    requires Extends(v, u) && OnlyGlobalsChange(gs, u, w)
    ensures ResetFrom(v, w, gs)
  {
    hide Determines;
  }

  lemma FrozenAmong(f: Frozen, extra: seq<nat>, starts: AllocationMap, entries: seq<AllocationData>,
                    internal: seq<nat>)
    requires FrozenPlus(f, extra, starts, entries, internal)
    ensures forall s | s in f.starts :: s in starts && starts[s] == f.starts[s]
  {
  }

  lemma BlocksBelow(starts: AllocationMap, ends: AllocationMap, l: seq<AllocationData>, internal: seq<nat>, cursor: nat)
    requires State(starts, ends, l, internal, cursor)
    ensures forall s | s in starts :: s + starts[s].size < cursor
  {
  }

  lemma NextApart(objects: seq<AllocationData>, i: nat)
    requires HostDisjoint(objects) && i < |objects|
    ensures forall e | e in objects[..i] :: HostApart(e.vptr, e.size, objects[i].vptr, objects[i].size)
  {
    hide HostApart;
    forall e | e in objects[..i] ensures HostApart(e.vptr, e.size, objects[i].vptr, objects[i].size) {
      var j :| 0 <= j < i && objects[j] == e;
    }
  }

  lemma NewAddress(starts: AllocationMap, v: nat)
    requires forall s | s in starts :: s + starts[s].size < v
    ensures v !in starts
  {
  }

  lemma MoreInHost(starts: AllocationMap, v: nat, d: AllocationData, limit: nat)
    requires InHost(starts, limit) && 0 < d.vptr && d.vptr + d.size <= limit
    ensures InHost(starts[v := d], limit)
  {
  }
}
