// Pointers narrower than the host's: storing, loading and calling through them.
module FunctionPointers {
  import opened Common
  import opened ByteMemory
  import opened AddressSpace
  import opened FlatView
  import opened Interpreter

  /** What is stored for the function pointer `val`: the interpreter address of a block
      whose host pointer it is, otherwise the value itself. */
  ghost predicate InterpreterForm(starts: AllocationMap, val: nat, x: nat) {
    if exists s: nat :: s in starts && starts[s].vptr == val then x in starts && starts[x].vptr == val
    else x == val
  }

  /** visitStoreInst for an operand of pointer type of `n` bytes. The bytes written are
      the low bytes of the value. */
  method VisitStorePointer(irx: MyInterpreter, at: nat, val: nat, toFunction: bool, n: nat, ghost b: nat)
      returns (ghost stored: nat)
    requires irx.Valid() && Within(irx.allocator.vvmemStart, b, at, n)
    modifies irx.mem
    ensures if toFunction then InterpreterForm(irx.allocator.vvmemStart, val, stored) else stored == val
    ensures irx.View() == ViewWrite(old(irx.View()), at, Le(stored, n))
  {
    irx.Placed();
    var ptr := irx.Vvptr2Vptr(at);
    LiveTranslation(irx.allocator.vvmemStart, b, at, n);
    var pointerVal := val;
    if toFunction {
      var gv := irx.allocator.Vptr2Vvptr(val);
      if gv != 0 { pointerVal := gv; }
    }
    stored := pointerVal;
    irx.CopyIn(b, at, ptr, Le(pointerVal, n));
  }

  /** visitLoadInst for a pointer type of `n` bytes: the bytes are extended with zeros. */
  method VisitLoadPointer(irx: MyInterpreter, at: nat, n: nat, ghost b: nat) returns (x: nat)
    requires irx.Mapped() && Within(irx.allocator.vvmemStart, b, at, n)
    ensures Covers(irx.View(), at, n) && x == FromLe(ViewRead(irx.View(), at, n))
  {
    var ptr := irx.Vvptr2Vptr(at);
    LiveTranslation(irx.allocator.vvmemStart, b, at, n);
    var bytes := irx.CopyOut(b, at, ptr, n);
    return FromLe(bytes);
  }

  /** The function whose host address is `vptr`; `functions` lists them in module order. */
  function FunctionAt(functions: seq<nat>, vptr: nat): (f: Option<nat>)
    ensures f.Some? ==> f.value < |functions| && functions[f.value] == vptr && vptr !in functions[..f.value]
    ensures f.None? ==> vptr !in functions
  {
    if functions == [] then None
    else if functions[0] == vptr then Some(0)
    else
      match FunctionAt(functions[1..], vptr)
      case None => None
      case Some(f) => assert functions[..f + 1] == [functions[0]] + functions[1..][..f]; Some(f + 1)
  }

  method FindFunctionByVPtr(functions: seq<nat>, vptr: nat) returns (f: Option<nat>)
    ensures f == FunctionAt(functions, vptr)
  {
    for i := 0 to |functions|
      invariant vptr !in functions[..i]
    {
      if functions[i] == vptr { return Some(i); }
    }
    return None;
  }

  /** The function an indirect call through `ptr` enters. */
  method GetFunctionWithPtr(irx: MyInterpreter, functions: seq<nat>, ptr: nat) returns (f: Option<nat>)
    requires irx.Mapped()
    ensures f == Callee(irx.allocator.vvmemStart, functions, ptr)
  {
    var vptr := irx.Vvptr2Vptr(ptr);
    f := FindFunctionByVPtr(functions, vptr);
  }

  ghost function Callee(starts: AllocationMap, functions: seq<nat>, ptr: nat): Option<nat> {
    FunctionAt(functions, Translated(starts, ptr))
  }

  // ---- What is called ----

  ghost predicate InWindow(starts: AllocationMap) {
    forall s | s in starts :: START_ADDR <= s && s + starts[s].size < END_ADDR
  }

  ghost predicate HostOutsideWindow(starts: AllocationMap) {
    forall s | s in starts :: !(START_ADDR <= starts[s].vptr < END_ADDR)
  }

  lemma OnlyFunctionAt(functions: seq<nat>, i: nat, vptr: nat)
    requires Distinct(functions) && i < |functions|
    ensures FunctionAt(functions, vptr) == Some(i) <==> vptr == functions[i]
  {
  }

  /** Addresses outside the window are not translated. */
  lemma OutsideUnchanged(starts: AllocationMap, a: nat)
    requires InWindow(starts) && !(START_ADDR <= a < END_ADDR)
    ensures Translated(starts, a) == a
  {
  }

  /** An interpreter address in a pointer of `n` bytes survives the store. */
  lemma StoredAndLoaded(v: View, w: View, at: nat, x: nat, n: nat)
    requires Covers(v, at, n) && w == ViewWrite(v, at, Le(x, n))
    ensures Covers(w, at, n)
    ensures FromLe(ViewRead(w, at, n)) == x <==> x < Pow256(n)
  {
    LeRoundTrip(x, n);
    assert ViewRead(w, at, n) == Le(x, n);
  }

  lemma WindowFits(n: nat)
    requires n >= 4
    ensures END_ADDR <= Pow256(n)
    decreases n
  {
    if n > 4 { WindowFits(n - 1); } else {
      assert Pow256(4) == 256 * Pow256(3) == 65536 * Pow256(2) == 0x100_0000 * Pow256(1);
    }
  }

  /** A function pointer stored to memory, loaded and called enters the same function,
      whether its host address or its interpreter address was stored. */
  lemma SameFunctionCalled(starts: AllocationMap, functions: seq<nat>, i: nat, s: nat, val: nat, stored: nat,
                           v: View, w: View, at: nat, n: nat)
    requires Ordered(starts) && InWindow(starts) && HostOutsideWindow(starts) && Distinct(functions)
    requires i < |functions| && s in starts && starts[s].vptr == functions[i]
    requires val == s || val == functions[i]
    requires InterpreterForm(starts, val, stored)
    requires n >= 4 && Covers(v, at, n) && w == ViewWrite(v, at, Le(stored, n))
    ensures Callee(starts, functions, val) == Some(i)
    ensures Covers(w, at, n) && Callee(starts, functions, FromLe(ViewRead(w, at, n))) == Some(i)
  {
    assert stored in starts && starts[stored].vptr == functions[i];
    WindowFits(n);
    StoredAndLoaded(v, w, at, stored, n);
    LiveTranslation(starts, stored, stored, 0);
    LiveTranslation(starts, s, s, 0);
    OutsideUnchanged(starts, functions[i]);
    OnlyFunctionAt(functions, i, functions[i]);
  }

  /** Storing the interpreter address of a function is safe exactly when it is not also
      the host address of some other block. */
  lemma WhenInterpreterAddressIsSafe(starts: AllocationMap, functions: seq<nat>, i: nat, s: nat)
    requires Ordered(starts) && Distinct(functions) && i < |functions| && s in starts && starts[s].vptr == functions[i]
    ensures (forall x | InterpreterForm(starts, s, x) :: Callee(starts, functions, x) == Some(i)) <==>
            (forall t | t in starts && starts[t].vptr == s :: functions[i] == s)
  {
    LiveTranslation(starts, s, s, 0);
    OnlyFunctionAt(functions, i, functions[i]);
    forall t | t in starts && starts[t].vptr == s
      ensures InterpreterForm(starts, s, t) && Translated(starts, t) == s
    {
      LiveTranslation(starts, t, t, 0);
    }
    OnlyFunctionAt(functions, i, s);
  }

  /** A host address inside the window misleads: the interpreter address of the first
      function is the host address of the second, and calling what was stored for the
      first enters the second. */
  lemma HostInWindowMisleads()
    ensures exists starts: AllocationMap, functions: seq<nat>, x ::
              && Ordered(starts) && InWindow(starts) && Distinct(functions) && |functions| == 2
              && starts.Keys == {START_ADDR, START_ADDR + 4}
              && starts[START_ADDR].vptr == functions[0] && starts[START_ADDR + 4].vptr == functions[1]
              && InterpreterForm(starts, START_ADDR, x) && Callee(starts, functions, x) == Some(1)
  {
    var starts := map[START_ADDR := AllocationData(0x10, 1),
                      START_ADDR + 4 := AllocationData(START_ADDR, 1)];
    var functions := [0x10, START_ADDR];
    var x := START_ADDR + 4;
    assert Ordered(starts);
    LiveTranslation(starts, x, x, 0);
    OnlyFunctionAt(functions, 1, START_ADDR);
    assert starts[x].vptr == START_ADDR;
    assert InterpreterForm(starts, START_ADDR, x) && Callee(starts, functions, x) == Some(1);
  }
}
