// The state an interpreter returns to between runs: the blocks registered before the
// freeze, and the blocks added since as a list on top of them.
module FrozenState {
  import opened Common
  import opened AddressSpace

  // ---- Addresses handed out since the freeze ----

  /** Where the cursor stands after blocks of the given sizes. */
  function CursorAfter(mark: nat, sizes: seq<nat>): (r: nat)
    ensures mark <= r
  {
    if sizes == [] then mark else CursorAfter(mark, sizes[..|sizes| - 1]) + Advance(sizes[|sizes| - 1])
  }

  /** The addresses of blocks of the given sizes, allocated from `mark` on. */
  function Addresses(mark: nat, sizes: seq<nat>): (r: seq<nat>)
    ensures |r| == |sizes|
  {
    if sizes == [] then [] else
    var front := sizes[..|sizes| - 1];
    Addresses(mark, front) + [CursorAfter(mark, front)]
  }

  lemma AddressesGrow(mark: nat, sizes: seq<nat>, size: nat)
    ensures Addresses(mark, sizes + [size]) == Addresses(mark, sizes) + [CursorAfter(mark, sizes)]
    ensures CursorAfter(mark, sizes + [size]) == CursorAfter(mark, sizes) + Advance(size)
  {
    assert (sizes + [size])[..|sizes|] == sizes;
  }

  // ---- Blocks above the mark ----

  function Entry(starts: AllocationMap, extra: seq<nat>): seq<AllocationData>
    requires forall a | a in extra :: a in starts
  {
    seq(|extra|, i requires 0 <= i < |extra| => starts[extra[i]])
  }

  function Pointers(l: seq<AllocationData>): seq<nat> {
    seq(|l|, i requires 0 <= i < |l| => l[i].vptr)
  }

  /** A frozen allocator: what it held when it was frozen. */
  datatype Frozen = Frozen(starts: AllocationMap, ends: AllocationMap, entries: seq<AllocationData>,
                           internal: seq<nat>, mark: nat)

  /** The current state is the frozen one plus exactly the blocks at `extra`, in order. */
  ghost predicate FrozenPlus(f: Frozen, extra: seq<nat>, starts: AllocationMap,
                             entries: seq<AllocationData>, internal: seq<nat>) {
    && (forall a | a in extra :: a in starts && f.mark <= a)
    && Distinct(extra)
    && starts.Keys - (set a | a in extra) == f.starts.Keys
    && (forall s | s in f.starts :: s in starts && starts[s] == f.starts[s])
    && entries == f.entries + Entry(starts, extra)
    && internal == f.internal + Pointers(Entry(starts, extra))
  }

  ghost predicate FrozenOk(f: Frozen) {
    && START_ADDR <= f.mark <= END_ADDR && f.mark % 4 == 0
    && Consistent(f.starts, f.ends)
    && (forall s | s in f.starts :: s + f.starts[s].size < f.mark)
  }

  lemma PlusOne(f: Frozen, extra: seq<nat>, starts: AllocationMap, entries: seq<AllocationData>, internal: seq<nat>,
                v: nat, d: AllocationData)
    requires FrozenPlus(f, extra, starts, entries, internal)
    requires v !in starts && f.mark <= v
    ensures FrozenPlus(f, extra + [v], starts[v := d], entries + [d], internal + [d.vptr])
  {
    var extra', starts' := extra + [v], starts[v := d];
    assert Entry(starts', extra') == Entry(starts, extra) + [d];
    assert Pointers(Entry(starts', extra')) == Pointers(Entry(starts, extra)) + [d.vptr];
    assert (set a | a in extra') == (set a | a in extra) + {v};
    assert starts'.Keys == starts.Keys + {v};
  }

  lemma {:induction false} WithoutAbsent(a: seq<AllocationData>, vptr: nat)
    requires forall d | d in a :: d.vptr != vptr
    ensures Without(a, vptr) == a
  {
    if a != [] { WithoutAbsent(a[1..], vptr); }
  }

  lemma PointersApart(l: seq<AllocationData>, k: nat, e: AllocationData)
    requires HostDisjoint(l) && k < |l|
    requires e in l[..k] || e in l[k + 1..]
    ensures e.vptr != l[k].vptr
  {
    var i :| 0 <= i < |l| && i != k && l[i] == e;
    if i < k {
      assert HostApart(l[i].vptr, l[i].size, l[k].vptr, l[k].size);
    } else {
      assert HostApart(l[k].vptr, l[k].size, l[i].vptr, l[i].size);
    }
  }

  lemma {:induction false} WithoutOne(a: seq<AllocationData>, d: AllocationData, b: seq<AllocationData>)
    requires forall e | e in a :: e.vptr != d.vptr
    requires forall e | e in b :: e.vptr != d.vptr
    ensures Without(a + ([d] + b), d.vptr) == a + b
  {
    if a == [] {
      assert a + ([d] + b) == [d] + b && ([d] + b)[1..] == b;
      WithoutAbsent(b, d.vptr);
      assert a + b == b;
    } else {
      assert (a + ([d] + b))[1..] == a[1..] + ([d] + b);
      WithoutOne(a[1..], d, b);
      assert a + b == [a[0]] + (a[1..] + b);
    }
  }

  lemma WithoutMiddle(a: seq<AllocationData>, d: AllocationData, b: seq<AllocationData>)
    requires HostDisjoint(a + ([d] + b))
    ensures Without(a + ([d] + b), d.vptr) == a + b
  {
    ghost var l := a + ([d] + b);
    assert l[..|a|] == a && l[|a| + 1..] == b && l[|a|] == d;
    forall e | e in a || e in b
      ensures e.vptr != d.vptr
    {
      PointersApart(l, |a|, e);
    }
    WithoutOne(a, d, b);
  }

  lemma {:induction false} RemoveMiddle(a: seq<nat>, v: nat, b: seq<nat>)
    requires v !in a && v !in b
    ensures Remove(a + ([v] + b), v) == a + b
  {
    if a == [] {
      assert a + ([v] + b) == [v] + b && ([v] + b)[1..] == b;
      RemoveAbsent(b, v);
      assert a + b == b;
    } else {
      assert (a + ([v] + b))[1..] == a[1..] + ([v] + b);
      RemoveMiddle(a[1..], v, b);
      assert a + b == [a[0]] + (a[1..] + b);
    }
  }

  lemma OthersDiffer(l: seq<nat>, a: seq<nat>, v: nat, b: seq<nat>)
    requires Distinct(l) && l == a + ([v] + b)
    ensures v !in a && v !in b
  {
    assert l[|a|] == v;
    forall i | 0 <= i < |a| ensures a[i] != v { assert l[i] == a[i]; }
    forall i | 0 <= i < |b| ensures b[i] != v { assert l[|a| + 1 + i] == b[i]; }
  }

  /** Freeing the oldest extra block leaves the frozen state plus the others. */
  lemma MinusFirst(f: Frozen, extra: seq<nat>, starts: AllocationMap, entries: seq<AllocationData>, internal: seq<nat>)
    requires FrozenPlus(f, extra, starts, entries, internal) && extra != []
    requires HostDisjoint(entries) && Distinct(internal)
    requires forall s | s in f.starts :: s + f.starts[s].size < f.mark
    ensures var a := extra[0];
            FrozenPlus(f, extra[1..], starts - {a}, Without(entries, starts[a].vptr), Remove(internal, starts[a].vptr))
  {
    var a, rest := extra[0], extra[1..];
    var d, starts' := starts[a], starts - {a};
    assert forall x | x in rest :: x in extra && x != a;
    assert Entry(starts, extra) == [d] + Entry(starts', rest);
    assert Pointers(Entry(starts, extra)) == [d.vptr] + Pointers(Entry(starts', rest));
    WithoutMiddle(f.entries, d, Entry(starts', rest));
    OthersDiffer(internal, f.internal, d.vptr, Pointers(Entry(starts', rest)));
    RemoveMiddle(f.internal, d.vptr, Pointers(Entry(starts', rest)));
    assert (set x | x in extra) == (set x | x in rest) + {a};
    assert starts'.Keys == starts.Keys - {a};
    assert a !in f.starts;
  }

  /** A start map has one consistent end map. */
  lemma EndsUnique(starts: AllocationMap, e1: AllocationMap, e2: AllocationMap)
    requires Consistent(starts, e1) && Consistent(starts, e2)
    ensures e1 == e2
  {
    forall e | e in e1
      ensures e in e2 && e2[e] == e1[e]
    {
      assert EndAt(starts, StartAt(e1, e)) == e;
    }
    forall e | e in e2
      ensures e in e1
    {
      assert EndAt(starts, StartAt(e2, e)) == e;
    }
  }

  lemma BackToFrozen(f: Frozen, starts: AllocationMap, ends: AllocationMap, entries: seq<AllocationData>,
                     internal: seq<nat>)
    requires FrozenOk(f) && FrozenPlus(f, [], starts, entries, internal) && Consistent(starts, ends)
    ensures starts == f.starts && ends == f.ends && entries == f.entries && internal == f.internal
  {
    assert starts.Keys == f.starts.Keys;
    assert starts == f.starts;
    EndsUnique(starts, ends, f.ends);
  }
}
