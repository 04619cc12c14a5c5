// What uploading may still do to an object, and why that keeps it uploadable: pointer
// slots may be set, within the slots that were set or pending from the start.
module UploadPlan {
  import opened Common
  import opened DebugTypes
  import opened TypePaths
  import opened PyValues
  import opened Marshaller
  import opened Upload
  import opened Diff
  import opened RoundTrip
  import opened Marshalling
  import opened ObjectGraph

  /** Addresses a pointer field brings back unchanged. */
  function PointerLimit(bits: nat): nat {
    if bits == 32 then 0x1_0000_0000 else 0x8000_0000_0000_0000
  }

  /** `v` has the shape and data of `plan`; its pointers are set, or still to be set,
      only where the plan sets one. */
  predicate FitsPlan(plan: PyValue, v: PyValue, limit: nat)
    decreases plan
  {
    if plan.PyObject? then
      && v.PyObject? && |v.fields| == |plan.fields|
      && forall k | 0 <= k < |plan.fields| ::
           plan.fields[k].name == v.fields[k].name && FitsPlan(plan.fields[k].value, v.fields[k].value, limit)
    else if plan.PyPtr? then
      && v.PyPtr?
      && (v.ptr.Some? ==> plan.ptr.Some? && 0 <= v.ptr.value < limit)
      && (v.cache.Some? ==> plan.ptr.Some?)
    else v == plan
  }

  /** The plan an object starts with: pointers that name a target count as set. */
  function Settled(v: PyValue): PyValue
    decreases v
  {
    match v
    case PyPtr(p, c) => PyPtr(if p.None? && c.Some? then Some(0) else p, None)
    case PyObject(fields) =>
      PyObject(seq(|fields|, k requires 0 <= k < |fields| => Field(fields[k].name, Settled(fields[k].value))))
    case _ => v
  }

  /** Addresses set outside lists are in the range of a pointer. */
  predicate PointersIn(v: PyValue, limit: nat)
    decreases v
  {
    match v
    case PyPtr(p, _) => p.Some? ==> 0 <= p.value < limit
    case PyObject(fields) => forall k | 0 <= k < |fields| :: PointersIn(fields[k].value, limit)
    case _ => true
  }

  lemma {:induction false} SettledFits(v: PyValue, limit: nat)
    requires PointersIn(v, limit)
    ensures FitsPlan(Settled(v), v, limit)
    decreases v
  {
    if v.PyObject? {
      forall k | 0 <= k < |v.fields|
        ensures FitsPlan(Settled(v).fields[k].value, v.fields[k].value, limit)
      {
        SettledFits(v.fields[k].value, limit);
      }
    }
  }

  // ---- The plan decides shape ----

  lemma PlanChildren(plan: PyValue, v: PyValue, limit: nat)
    requires FitsPlan(plan, v, limit) && Container(plan)
    ensures Container(v) && Count(v) == Count(plan) && v.PyObject? == plan.PyObject?
    ensures DistinctNames(plan) ==> DistinctNames(v)
    ensures forall k | 0 <= k < Count(plan) :: ChildName(v, k) == ChildName(plan, k)
  {
  }

  lemma {:induction false} PlanConforms(t: DIType, p: Path, plan: PyValue, v: PyValue, limit: nat)
    requires ValidPath(t, p) && Conforms(t, p, plan) && FitsPlan(plan, v, limit)
    ensures Conforms(t, p, v)
    decreases plan
  {
    if plan.PyObject? {
      PlanChildren(plan, v, limit);
      forall k | 0 <= k < Count(v)
        ensures var q := ChildSteps(TypeAt(t, p), v, k);
                q.Some? && ValidPath(t, p + q.value) && Conforms(t, p + q.value, ChildValue(v, k))
      {
        var q := ChildSteps(TypeAt(t, p), plan, k);
        assert ChildName(v, k) == ChildName(plan, k);
        assert ChildSteps(TypeAt(t, p), v, k) == q;
        PlanConforms(t, p + q.value, plan.fields[k].value, v.fields[k].value, limit);
      }
    }
  }

  lemma {:induction false} PlanLike(plan: PyValue, v: PyValue, y: PyValue, limit: nat)
    requires FitsPlan(plan, v, limit) && Like(plan, y)
    ensures Like(v, y)
    decreases plan
  {
    if plan.PyObject? {
      forall k | 0 <= k < Count(v)
        ensures ChildName(v, k) == ChildName(y, k) && Like(ChildValue(v, k), ChildValue(y, k))
      {
        assert ChildName(plan, k) == ChildName(y, k);
        PlanLike(ChildValue(plan, k), ChildValue(v, k), ChildValue(y, k), limit);
      }
    }
  }

  // ---- Leaves of a value and of its plan ----

  /** The same leaf, as far as paths and data go. */
  predicate LeafFits(pl: Leaf, l: Leaf, limit: nat) {
    && pl.path == l.path && !Container(pl.value)
    && (pl.value == l.value || FitsPlan(pl.value, l.value, limit))
  }

  ghost predicate LeavesFit(pls: seq<Leaf>, ls: seq<Leaf>, limit: nat) {
    |pls| == |ls| && forall i | 0 <= i < |ls| :: LeafFits(pls[i], ls[i], limit)
  }

  lemma LeavesFitConcat(a: seq<Leaf>, b: seq<Leaf>, c: seq<Leaf>, d: seq<Leaf>, limit: nat)
    requires LeavesFit(a, c, limit) && LeavesFit(b, d, limit)
    ensures LeavesFit(a + b, c + d, limit)
  {
  }

  lemma {:induction false} LeavesNoContainer(t: DIType, p: Path, v: PyValue)
    requires ValidPath(t, p) && Conforms(t, p, v)
    ensures forall i | 0 <= i < |Leaves(t, p, v)| :: !Container(Leaves(t, p, v)[i].value)
    decreases v, 1, 0
  {
    if Container(v) { ChildLeavesNoContainer(t, p, v, Count(v)); }
  }

  lemma {:induction false} ChildLeavesNoContainer(t: DIType, p: Path, v: PyValue, n: nat)
    requires ValidPath(t, p) && Container(v) && n <= Count(v) && Conforms(t, p, v)
    ensures forall i | 0 <= i < |ChildLeaves(t, p, v, n)| :: !Container(ChildLeaves(t, p, v, n)[i].value)
    decreases v, 0, n
  {
    if n > 0 {
      ChildLeavesNoContainer(t, p, v, n - 1);
      LeavesNoContainer(t, ChildPath(t, p, v, n - 1), ChildValue(v, n - 1));
    }
  }

  lemma {:induction false} PlanLeaves(t: DIType, p: Path, plan: PyValue, v: PyValue, limit: nat)
    requires ValidPath(t, p) && Conforms(t, p, plan) && Conforms(t, p, v) && FitsPlan(plan, v, limit)
    ensures LeavesFit(Leaves(t, p, plan), Leaves(t, p, v), limit)
    decreases plan, 1, 0
  {
    if plan.PyObject? {
      PlanChildLeaves(t, p, plan, v, limit, Count(plan));
    } else if plan.PyList? {
      LeavesNoContainer(t, p, v);
    }
  }

  lemma {:induction false} PlanChildLeaves(t: DIType, p: Path, plan: PyValue, v: PyValue, limit: nat, n: nat)
    requires ValidPath(t, p) && plan.PyObject? && n <= Count(plan)
    requires Conforms(t, p, plan) && Conforms(t, p, v) && FitsPlan(plan, v, limit)
    ensures LeavesFit(ChildLeaves(t, p, plan, n), ChildLeaves(t, p, v, n), limit)
    decreases plan, 0, n
  {
    if n > 0 {
      var k := n - 1;
      PlanChildren(plan, v, limit);
      PlanChildLeaves(t, p, plan, v, limit, k);
      assert ChildName(v, k) == ChildName(plan, k);
      assert ChildPath(t, p, v, k) == ChildPath(t, p, plan, k);
      PlanLeaves(t, ChildPath(t, p, plan, k), plan.fields[k].value, v.fields[k].value, limit);
      LeavesFitConcat(ChildLeaves(t, p, plan, k), Leaves(t, ChildPath(t, p, plan, k), ChildValue(plan, k)),
                      ChildLeaves(t, p, v, k), Leaves(t, ChildPath(t, p, v, k), ChildValue(v, k)), limit);
    }
  }

  /** Whether an object comes back from memory is decided by its plan. */
  lemma PlanComesBack(t: DIType, plan: PyValue, v: PyValue, limit: nat)
    requires ValidPath(t, []) && Conforms(t, [], plan) && Conforms(t, [], v) && FitsPlan(plan, v, limit)
    ensures AllComeBack(t, Leaves(t, [], plan)) <==> AllComeBack(t, Leaves(t, [], v))
  {
    PlanLeaves(t, [], plan, v, limit);
    var pls, ls := Leaves(t, [], plan), Leaves(t, [], v);
    forall i | 0 <= i < |ls|
      ensures ComesBack(t, pls[i]) <==> ComesBack(t, ls[i])
    {
      assert LeafFits(pls[i], ls[i], limit);
    }
  }

  /** Setting a pointer of the plan to another address in range keeps the leaf ready,
      and nothing is written that the plan does not write. */
  lemma PlannedLeafReady(t: DIType, bits: nat, pl: Leaf, l: Leaf)
    requires Ready(t, bits, pl) && LeafFits(pl, l, PointerLimit(bits))
    ensures Ready(t, bits, l)
    ensures Written(t, bits, l) ==> Written(t, bits, pl)
  {
    ReadyIsEncodable(t, bits, pl);
    if pl.value != l.value && pl.value.PyPtr? {
      assert Ready(t, bits, l);
      ReadyIsEncodable(t, bits, l);
    }
  }

  /** An object that fits an uploadable plan is uploadable. */
  lemma PlannedUploadable(t: DIType, bits: nat, plan: PyValue, v: PyValue, fresh': PyValue)
    requires Uploadable(t, bits, plan, fresh') && FitsPlan(plan, v, PointerLimit(bits))
    ensures Uploadable(t, bits, v, fresh')
  {
    PlanConforms(t, [], plan, v, PointerLimit(bits));
    PlanLike(plan, v, fresh', PointerLimit(bits));
    PlanLeaves(t, [], plan, v, PointerLimit(bits));
    var pls, ls := Leaves(t, [], plan), Leaves(t, [], v);
    forall i | 0 <= i < |ls|
      ensures Ready(t, bits, ls[i]) && (Written(t, bits, ls[i]) ==> Written(t, bits, pls[i]))
    {
      assert Ready(t, bits, pls[i]) && LeafFits(pls[i], ls[i], PointerLimit(bits));
      PlannedLeafReady(t, bits, pls[i], ls[i]);
    }
    forall i, j | 0 <= i < j < |ls| && Written(t, bits, ls[i]) && Written(t, bits, ls[j])
      ensures PlacesApart(t, ls[i], ls[j])
    {
      assert LeafFits(pls[i], ls[i], PointerLimit(bits)) && LeafFits(pls[j], ls[j], PointerLimit(bits));
      assert Written(t, bits, pls[i]) && Written(t, bits, pls[j]);
    }
  }

  // ---- Changes the plan allows ----

  lemma {:induction false} PlanAt(plan: PyValue, v: PyValue, limit: nat, at: Position)
    requires FitsPlan(plan, v, limit)
    ensures HasAt(plan, at) <==> HasAt(v, at)
    ensures HasAt(plan, at) ==> FitsPlan(At(plan, at), At(v, at), limit)
    decreases at
  {
    if at != [] && plan.PyObject? && at[0] < |plan.fields| {
      PlanAt(plan.fields[at[0]].value, v.fields[at[0]].value, limit, at[1..]);
    }
  }

  lemma {:induction false} PlanSetAt(plan: PyValue, v: PyValue, limit: nat, at: Position, x: PyValue)
    requires FitsPlan(plan, v, limit) && HasAt(v, at) && HasAt(plan, at) && FitsPlan(At(plan, at), x, limit)
    ensures FitsPlan(plan, SetAt(v, at, x), limit)
    decreases at
  {
    if at != [] {
      var k := at[0];
      PlanSetAt(plan.fields[k].value, v.fields[k].value, limit, at[1..], x);
    }
  }
}
