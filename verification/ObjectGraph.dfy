// Python object graphs: values with pointer slots that may still name a target object
// instead of an address, and how uploading rewrites them.
module ObjectGraph {
  import opened Common
  import opened PyValues

  // ---- Positions outside lists ----

  type Position = seq<nat>

  /** A position goes through embedded dataclass objects only. */
  predicate HasAt(v: PyValue, at: Position)
    decreases at
  {
    at == [] || (v.PyObject? && at[0] < |v.fields| && HasAt(v.fields[at[0]].value, at[1..]))
  }

  function At(v: PyValue, at: Position): PyValue
    requires HasAt(v, at)
    decreases at
  {
    if at == [] then v else At(v.fields[at[0]].value, at[1..])
  }

  function SetAt(v: PyValue, at: Position, x: PyValue): PyValue
    requires HasAt(v, at)
    decreases at
  {
    if at == [] then x else
    var f := v.fields[at[0]];
    PyObject(v.fields[at[0] := Field(f.name, SetAt(f.value, at[1..], x))])
  }

  lemma {:induction false} AtCompose(v: PyValue, at: Position, k: nat)
    requires HasAt(v, at) && At(v, at).PyObject? && k < |At(v, at).fields|
    ensures HasAt(v, at + [k]) && At(v, at + [k]) == At(v, at).fields[k].value
    decreases at
  {
    if at == [] {
      assert [k][1..] == [] && at + [k] == [k];
    } else {
      assert (at + [k])[1..] == at[1..] + [k];
      AtCompose(v.fields[at[0]].value, at[1..], k);
    }
  }

  // ---- Pending slots ----

  predicate Pending(v: PyValue) {
    v.PyPtr? && v.cache.Some?
  }

  /** The positions of pointers that still name their target. */
  function PendingSlots(v: PyValue): set<Position>
    decreases v
  {
    if Pending(v) then {[]}
    else if v.PyObject? then
      set k, s | 0 <= k < |v.fields| && s in PendingSlots(v.fields[k].value) :: [k] + s
    else {}
  }

  lemma {:induction false} PendingSlotsAt(v: PyValue, at: Position)
    ensures at in PendingSlots(v) <==> HasAt(v, at) && Pending(At(v, at))
    decreases at
  {
    if v.PyObject? && at != [] && at[0] < |v.fields| {
      PendingSlotsAt(v.fields[at[0]].value, at[1..]);
      assert at == [at[0]] + at[1..];
      if at in PendingSlots(v) {
        var k, s :| 0 <= k < |v.fields| && s in PendingSlots(v.fields[k].value) && at == [k] + s;
        assert s == at[1..];
      }
    }
  }

  // ---- Rewriting ----

  type Addresses = map<Id, nat>

  predicate Below(a: Addresses, b: Addresses) {
    forall i | i in a :: i in b && b[i] == a[i]
  }

  /** A slot stays as it is, or names its target no more and points at the target's
      address plus the offset. */
  predicate Linked(x: PyValue, y: PyValue, addr: Addresses) {
    || x == y
    || (&& Pending(x)
        && x.cache.value.target in addr
        && y == PyPtr(Some(addr[x.cache.value.target] + x.cache.value.offset), None))
  }

  /** `y` is `x` with some of its pending slots linked; nothing else differs. */
  predicate Evolves(x: PyValue, y: PyValue, addr: Addresses)
    decreases x
  {
    if x.PyObject? then
      && y.PyObject? && |y.fields| == |x.fields|
      && forall k | 0 <= k < |x.fields| ::
           x.fields[k].name == y.fields[k].name && Evolves(x.fields[k].value, y.fields[k].value, addr)
    else Linked(x, y, addr)
  }

  lemma {:induction false} EvolvesItself(x: PyValue, addr: Addresses)
    ensures Evolves(x, x, addr)
    decreases x
  {
    if x.PyObject? {
      forall k | 0 <= k < |x.fields|
        ensures Evolves(x.fields[k].value, x.fields[k].value, addr)
      {
        EvolvesItself(x.fields[k].value, addr);
      }
    }
  }

  lemma {:induction false} EvolvesTransitive(x: PyValue, y: PyValue, z: PyValue, a: Addresses, b: Addresses)
    requires Evolves(x, y, a) && Evolves(y, z, b) && Below(a, b)
    ensures Evolves(x, z, b)
    decreases x
  {
    if x.PyObject? {
      forall k | 0 <= k < |x.fields|
        ensures x.fields[k].name == z.fields[k].name && Evolves(x.fields[k].value, z.fields[k].value, b)
      {
        EvolvesTransitive(x.fields[k].value, y.fields[k].value, z.fields[k].value, a, b);
      }
    }
  }

  lemma {:induction false} EvolvesAt(x: PyValue, y: PyValue, addr: Addresses, at: Position)
    requires Evolves(x, y, addr)
    ensures HasAt(x, at) ==> HasAt(y, at) && Evolves(At(x, at), At(y, at), addr)
    ensures HasAt(y, at) ==> HasAt(x, at)
    decreases at
  {
    if at != [] && x.PyObject? && at[0] < |x.fields| {
      EvolvesAt(x.fields[at[0]].value, y.fields[at[0]].value, addr, at[1..]);
    }
  }

  /** Linking only removes pending slots. */
  lemma EvolvesShrinks(x: PyValue, y: PyValue, addr: Addresses)
    requires Evolves(x, y, addr)
    ensures PendingSlots(y) <= PendingSlots(x)
  {
    forall at | at in PendingSlots(y)
      ensures at in PendingSlots(x)
    {
      PendingSlotsAt(y, at);
      PendingSlotsAt(x, at);
      EvolvesAt(x, y, addr, at);
    }
  }

  /** With nothing pending there is nothing to rewrite. */
  lemma {:induction false} NothingPending(x: PyValue, y: PyValue, addr: Addresses)
    requires Evolves(x, y, addr) && PendingSlots(x) == {}
    ensures x == y
    decreases x
  {
    if x.PyObject? {
      forall k | 0 <= k < |x.fields|
        ensures x.fields[k] == y.fields[k]
      {
        PendingBelow(x, k);
        NothingPending(x.fields[k].value, y.fields[k].value, addr);
      }
    } else {
      PendingSlotsAt(x, []);
    }
  }

  lemma PendingBelow(x: PyValue, k: nat)
    requires x.PyObject? && k < |x.fields|
    ensures forall s | s in PendingSlots(x.fields[k].value) :: [k] + s in PendingSlots(x)
  {
  }

  lemma NoPendingAbove(x: PyValue)
    requires x.PyObject? && forall k | 0 <= k < |x.fields| :: PendingSlots(x.fields[k].value) == {}
    ensures PendingSlots(x) == {}
  {
  }

  // ---- Changing one pointer slot ----

  lemma {:induction false} SetAtSlot(v: PyValue, at: Position, x: PyValue, s: Position)
    requires HasAt(v, at) && At(v, at).PyPtr? && x.PyPtr?
    ensures HasAt(SetAt(v, at, x), s) <==> HasAt(v, s)
    ensures HasAt(v, s) && !At(v, s).PyObject? ==> At(SetAt(v, at, x), s) == if s == at then x else At(v, s)
    ensures HasAt(v, s) && At(v, s).PyObject? ==> At(SetAt(v, at, x), s).PyObject?
    decreases at
  {
    if at != [] && s != [] && s[0] == at[0] {
      SetAtSlot(v.fields[at[0]].value, at[1..], x, s[1..]);
      if s[1..] == at[1..] { assert s == [s[0]] + s[1..] && at == [at[0]] + at[1..]; }
    }
  }

  lemma ClearingSlot(v: PyValue, at: Position, p: Option<int>)
    requires HasAt(v, at) && Pending(At(v, at))
    ensures PendingSlots(SetAt(v, at, PyPtr(p, None))) == PendingSlots(v) - {at}
  {
    forall s
      ensures s in PendingSlots(SetAt(v, at, PyPtr(p, None))) <==> s in PendingSlots(v) && s != at
    {
      PendingSlotsAt(SetAt(v, at, PyPtr(p, None)), s);
      PendingSlotsAt(v, s);
      SetAtSlot(v, at, PyPtr(p, None), s);
    }
  }

  /** Clear the slot, let the rest evolve, then store the target's address: together one
      step of linking. */
  lemma {:induction false} LinkAround(x: PyValue, at: Position, y: PyValue, addr: Addresses)
    requires HasAt(x, at) && Pending(At(x, at))
    requires var c := At(x, at).cache.value;
             && c.target in addr
             && Evolves(SetAt(x, at, PyPtr(At(x, at).ptr, None)), y, addr)
    ensures HasAt(y, at) && At(y, at).PyPtr?
    ensures var c := At(x, at).cache.value;
            Evolves(x, SetAt(y, at, PyPtr(Some(addr[c.target] + c.offset), None)), addr)
    decreases at
  {
    if at != [] {
      var k := at[0];
      var cleared := SetAt(x, at, PyPtr(At(x, at).ptr, None));
      assert cleared.fields[k].value == SetAt(x.fields[k].value, at[1..], PyPtr(At(x, at).ptr, None));
      LinkAround(x.fields[k].value, at[1..], y.fields[k].value, addr);
    }
  }
}
