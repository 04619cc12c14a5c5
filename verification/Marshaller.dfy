// How a Python object fits its C type: where the fields of an object lead in the type,
// and the leaves that set_struct and get_struct visit.
module Marshaller {
  import opened Common
  import opened Decimal
  import opened DebugTypes
  import opened TypePaths
  import opened Spelling
  import opened PyValues

  // ---- Objects that fit a C type ----

  /** The member path of a field name, through anonymous records. */
  function ChainTo(t: DIType, name: string): Option<Path>
    decreases t, 0
  {
    if t.Record() then ChainFrom(t, 0, name) else None
  }

  function ChainFrom(t: DIType, i: nat, name: string): Option<Path>
    requires t.Record() && i <= |t.members|
    decreases t.members, |t.members| - i
  {
    if i == |t.members| then None else
    var m := t.members[i];
    if m.name == "" then
      match ChainTo(m.ty, name)
      case Some(p) => Some([i] + p)
      case None => ChainFrom(t, i + 1, name)
    else if m.name == name then Some([i])
    else ChainFrom(t, i + 1, name)
  }

  lemma {:induction false} ChainIsPath(t: DIType, name: string)
    requires WellFormed(t) && ChainTo(t, name).Some?
    ensures var p := ChainTo(t, name).value;
            p != [] && ValidPath(t, p) && EndsNamed(t, p) && Designators(t, p) == [name]
    decreases t, 0
  {
    ChainFromIsPath(t, 0, name);
  }

  lemma {:induction false} ChainFromIsPath(t: DIType, i: nat, name: string)
    requires t.Record() && i <= |t.members| && WellFormedFrom(t.members, i) && ChainFrom(t, i, name).Some?
    ensures var p := ChainFrom(t, i, name).value;
            p != [] && ValidPath(t, p) && EndsNamed(t, p) && Designators(t, p) == [name]
    decreases t.members, |t.members| - i
  {
    var m := t.members[i];
    if m.name == "" && ChainTo(m.ty, name).Some? {
      ChainIsPath(m.ty, name);
      var q := ChainTo(m.ty, name).value;
      assert ([i] + q)[1..] == q;
    } else if m.name != "" && m.name == name {
      assert [i][1..] == [];
    } else {
      ChainFromIsPath(t, i + 1, name);
    }
  }

  /** The steps from a record or array to the C object a child stands for. */
  function ChildSteps(t: DIType, v: PyValue, k: nat): Option<Path>
    requires Container(v) && k < Count(v)
  {
    var s := Strip(t);
    if v.PyObject? then ChainTo(s, v.fields[k].name)
    else if s.Array? && k < s.count then Some([k])
    else None
  }

  lemma ChildStepsArePath(t: DIType, v: PyValue, k: nat)
    requires WellFormed(t) && Container(v) && k < Count(v) && ChildSteps(t, v, k).Some?
    ensures var q := ChildSteps(t, v, k).value;
            q != [] && ValidPath(t, q) && EndsNamed(t, q) && Designators(t, q) == [ChildName(v, k)]
  {
    StripFacts(t);
    var q := ChildSteps(t, v, k).value;
    if v.PyObject? {
      ChainIsPath(Strip(t), v.fields[k].name);
      SameAsStripped(t, q);
    } else {
      assert [k][1..] == [];
    }
  }

  /** A field fits exactly if the record can be asked for its name, an item exactly if the
      array is long enough. */
  lemma StepsExist(t: DIType, v: PyValue, k: nat)
    requires WellFormed(t) && Container(v) && k < Count(v)
    ensures ChildSteps(t, v, k).Some? <==>
            match v
            case PyObject(fields) => fields[k].name in Names(Strip(t))
            case _ => Strip(t).Array? && k < Strip(t).count
  {
    StripFacts(t);
    if v.PyObject? { ChainExists(Strip(t), v.fields[k].name); }
  }

  lemma {:induction false} ChainExists(t: DIType, name: string)
    requires WellFormed(t)
    ensures ChainTo(t, name).Some? <==> name in Names(t)
    decreases t, 0
  {
    if t.Record() { ChainExistsFrom(t, 0, name); }
  }

  lemma {:induction false} ChainExistsFrom(t: DIType, i: nat, name: string)
    requires t.Record() && i <= |t.members| && WellFormedFrom(t.members, i)
    ensures ChainFrom(t, i, name).Some? <==> name in NamesFrom(t.members, i)
    decreases t.members, |t.members| - i
  {
    if i < |t.members| {
      if t.members[i].name == "" { ChainExists(t.members[i].ty, name); }
      ChainExistsFrom(t, i + 1, name);
    }
  }

  lemma SameAsStripped(t: DIType, p: Path)
    requires ValidPath(Strip(t), p) && p != [] && Strip(t).Composite()
    ensures ValidPath(t, p) && EndsNamed(t, p) == EndsNamed(Strip(t), p)
    ensures Designators(t, p) == Designators(Strip(t), p)
  {
  }

  /** Dataclass fields have different names; so have list indices. */
  predicate DistinctNames(v: PyValue) {
    v.PyObject? ==> forall j, k | 0 <= j < k < |v.fields| :: v.fields[j].name != v.fields[k].name
  }

  lemma NamesDiffer(v: PyValue, j: nat, k: nat)
    requires Container(v) && DistinctNames(v) && j < k < Count(v)
    ensures ChildName(v, j) != ChildName(v, k)
  {
    if v.PyList? && ToString(j) == ToString(k) { ToStringInjective(j, k); }
  }

  /** The path of a leaf: it has a spelling. */
  ghost predicate LeafOk(t: DIType, p: Path)
    requires ValidPath(t, p)
  {
    WellFormed(t) && t.Struct? && p != [] && EndsNamed(t, p)
  }

  /** The object has the shape of the C type at `p`: fields name members, and lists are no
      longer than their arrays. */
  ghost predicate Conforms(t: DIType, p: Path, v: PyValue)
    requires ValidPath(t, p)
    decreases v
  {
    if Container(v) then
      && DistinctNames(v)
      && forall k | 0 <= k < Count(v) ::
           var q := ChildSteps(TypeAt(t, p), v, k);
           q.Some? && ValidPath(t, p + q.value) && Conforms(t, p + q.value, ChildValue(v, k))
    else v.PyNone? || LeafOk(t, p)
  }

  function ChildPath(t: DIType, p: Path, v: PyValue, k: nat): Path
    requires ValidPath(t, p) && Container(v) && k < Count(v)
    requires ChildSteps(TypeAt(t, p), v, k).Some?
  {
    p + ChildSteps(TypeAt(t, p), v, k).value
  }

  /** One step down: the child's path is spelled with the child's name appended. */
  lemma ChildSpelling(t: DIType, p: Path, v: PyValue, k: nat)
    requires WellFormed(t) && ValidPath(t, p) && Container(v) && k < Count(v)
    requires ChildSteps(TypeAt(t, p), v, k).Some?
    ensures var r := ChildPath(t, p, v, k);
            && ValidPath(t, r) && p < r
            && Designators(t, r) == Designators(t, p) + [ChildName(v, k)]
  {
    var q := ChildSteps(TypeAt(t, p), v, k).value;
    TypeAtWellFormed(t, p);
    ChildStepsArePath(TypeAt(t, p), v, k);
    TypedPathsCompose(t, p, q);
  }

  // ---- The leaves of an object ----

  datatype Leaf = Leaf(path: Path, value: PyValue)

  /** The leaves in the order set_struct visits them. */
  ghost function Leaves(t: DIType, p: Path, v: PyValue): seq<Leaf>
    requires ValidPath(t, p) && Conforms(t, p, v)
    decreases v, 1, 0
  {
    if Container(v) then ChildLeaves(t, p, v, Count(v))
    else if v.PyNone? then []
    else [Leaf(p, v)]
  }

  ghost function ChildLeaves(t: DIType, p: Path, v: PyValue, n: nat): seq<Leaf>
    requires ValidPath(t, p) && Container(v) && n <= Count(v) && Conforms(t, p, v)
    decreases v, 0, n
  {
    if n == 0 then [] else
    ChildLeaves(t, p, v, n - 1) + Leaves(t, ChildPath(t, p, v, n - 1), ChildValue(v, n - 1))
  }

  lemma LastChildLeaves(t: DIType, p: Path, v: PyValue, n: nat)
    requires ValidPath(t, p) && Container(v) && 0 < n <= Count(v) && Conforms(t, p, v)
    ensures ChildLeaves(t, p, v, n) ==
            ChildLeaves(t, p, v, n - 1) + Leaves(t, ChildPath(t, p, v, n - 1), ChildValue(v, n - 1))
  {
  }

  // ---- Leaves do not lie inside one another ----

  predicate Apart(p: Path, q: Path) {
    !(p <= q) && !(q <= p)
  }

  ghost predicate AllBelow(p: Path, l: seq<Leaf>) {
    forall i | 0 <= i < |l| :: p <= l[i].path
  }

  ghost predicate AllApart(l: seq<Leaf>) {
    forall i, j | 0 <= i < j < |l| :: Apart(l[i].path, l[j].path)
  }

  lemma {:induction false} LeavesBelow(t: DIType, p: Path, v: PyValue)
    requires WellFormed(t) && ValidPath(t, p) && Conforms(t, p, v)
    ensures AllBelow(p, Leaves(t, p, v))
    decreases v, 1, 0
  {
    if Container(v) { ChildLeavesBelow(t, p, v, Count(v)); }
  }

  lemma {:induction false} ChildLeavesBelow(t: DIType, p: Path, v: PyValue, n: nat)
    requires WellFormed(t) && ValidPath(t, p) && Container(v) && n <= Count(v) && Conforms(t, p, v)
    ensures AllBelow(p, ChildLeaves(t, p, v, n))
    decreases v, 0, n
  {
    hide Leaves, LeafOk, ChildSteps, Designators;
    if n > 0 {
      ChildLeavesBelow(t, p, v, n - 1);
      LeavesBelow(t, ChildPath(t, p, v, n - 1), ChildValue(v, n - 1));
      ChildSpelling(t, p, v, n - 1);
    }
  }

  /** Paths of differently named children stay apart however they go on. */
  lemma ChildrenApart(t: DIType, p: Path, v: PyValue, j: nat, k: nat, x: Path, y: Path)
    requires WellFormed(t) && ValidPath(t, p) && Container(v) && Conforms(t, p, v) && j < k < Count(v)
    requires ChildPath(t, p, v, j) <= x && ChildPath(t, p, v, k) <= y
    ensures Apart(x, y)
  {
    var a, b := ChildPath(t, p, v, j), ChildPath(t, p, v, k);
    ChildSpelling(t, p, v, j);
    ChildSpelling(t, p, v, k);
    NamesDiffer(v, j, k);
    LastNames(Designators(t, p), ChildName(v, j), ChildName(v, k));
    if a <= b { SpellingPrefix(t, a, b); }
    if b <= a { SpellingPrefix(t, b, a); }
    PrefixesApart(a, b, x, y);
  }

  lemma LastNames(d: seq<string>, x: string, y: string)
    requires x != y
    ensures !(d + [x] <= d + [y]) && !(d + [y] <= d + [x])
  {
    assert (d + [x])[|d|] == x && (d + [y])[|d|] == y;
  }

  lemma PrefixesApart(a: Path, b: Path, x: Path, y: Path)
    requires Apart(a, b) && a <= x && b <= y
    ensures Apart(x, y)
  {
    if x <= y { PrefixesOfOne(a, b, y); }
    if y <= x { PrefixesOfOne(a, b, x); }
  }

  lemma PrefixesOfOne(a: Path, b: Path, z: Path)
    requires a <= z && b <= z
    ensures a <= b || b <= a
  {
    assert if |a| <= |b| then a == b[..|a|] else b == a[..|b|];
  }

  lemma SpellingPrefix(t: DIType, a: Path, b: Path)
    requires ValidPath(t, a) && ValidPath(t, b) && a <= b
    ensures Designators(t, a) <= Designators(t, b)
  {
    assert b == a + b[|a|..];
    PathsCompose(t, a, b[|a|..]);
    TypedPathsCompose(t, a, b[|a|..]);
  }

  lemma {:induction false} LeavesApart(t: DIType, p: Path, v: PyValue)
    requires WellFormed(t) && ValidPath(t, p) && Conforms(t, p, v)
    ensures AllApart(Leaves(t, p, v))
    decreases v, 1, 0
  {
    if Container(v) { ChildLeavesApart(t, p, v, Count(v)); }
  }

  lemma {:induction false} ChildLeavesApart(t: DIType, p: Path, v: PyValue, n: nat)
    requires WellFormed(t) && ValidPath(t, p) && Container(v) && n <= Count(v) && Conforms(t, p, v)
    ensures AllApart(ChildLeaves(t, p, v, n))
    decreases v, 0, n
  {
    if n > 0 {
      hide Leaves, LeafOk, ChildSteps, Designators, ApartFrom, AllApart;
      var front, last := ChildLeaves(t, p, v, n - 1), Leaves(t, ChildPath(t, p, v, n - 1), ChildValue(v, n - 1));
      ChildLeavesApart(t, p, v, n - 1);
      LeavesApart(t, ChildPath(t, p, v, n - 1), ChildValue(v, n - 1));
      EarlierApart(t, p, v, n - 1);
      BothApart(front, last);
    }
  }

  /** The leaves of a child lie apart from those of the children before it. */
  lemma EarlierApart(t: DIType, p: Path, v: PyValue, n: nat)
    requires WellFormed(t) && ValidPath(t, p) && Container(v) && n < Count(v) && Conforms(t, p, v)
    ensures ApartFrom(ChildLeaves(t, p, v, n), Leaves(t, ChildPath(t, p, v, n), ChildValue(v, n)))
  {
    hide Leaves, LeafOk, ChildSteps, Apart, ChildLeaves;
    var front, last := ChildLeaves(t, p, v, n), Leaves(t, ChildPath(t, p, v, n), ChildValue(v, n));
    ChildSpelling(t, p, v, n);
    LeavesBelow(t, ChildPath(t, p, v, n), ChildValue(v, n));
    forall i, j | 0 <= i < |front| && 0 <= j < |last|
      ensures Apart(front[i].path, last[j].path)
    {
      var k := OwnerOf(t, p, v, n, i);
      ChildrenApart(t, p, v, k, n, front[i].path, last[j].path);
    }
  }

  ghost predicate ApartFrom(a: seq<Leaf>, b: seq<Leaf>) {
    forall i, j | 0 <= i < |a| && 0 <= j < |b| :: Apart(a[i].path, b[j].path)
  }

  lemma BothApart(a: seq<Leaf>, b: seq<Leaf>)
    requires AllApart(a) && AllApart(b)
    requires ApartFrom(a, b)
    ensures AllApart(a + b)
  {
    hide Apart;
  }

  lemma NoneOrMore(t: DIType, p: Path, v: PyValue, n: nat, i: nat)
    requires ValidPath(t, p) && Container(v) && n <= Count(v) && Conforms(t, p, v)
    requires i < |ChildLeaves(t, p, v, n)|
    ensures n > 0
  {
  }

  /** Each leaf of a container lies below one of its children. */
  lemma {:induction false} OwnerOf(t: DIType, p: Path, v: PyValue, n: nat, i: nat) returns (k: nat)
    requires WellFormed(t) && ValidPath(t, p) && Container(v) && n <= Count(v) && Conforms(t, p, v)
    requires i < |ChildLeaves(t, p, v, n)|
    ensures k < n && ChildPath(t, p, v, k) <= ChildLeaves(t, p, v, n)[i].path
    decreases n
  {
    hide Leaves, ChildLeaves, LeafOk, ChildSteps, Designators;
    NoneOrMore(t, p, v, n, i);
    LastChildLeaves(t, p, v, n);
    var front := ChildLeaves(t, p, v, n - 1);
    if i < |front| {
      k := OwnerOf(t, p, v, n - 1, i);
    } else {
      k := n - 1;
      ChildSpelling(t, p, v, n - 1);
      LeavesBelow(t, ChildPath(t, p, v, n - 1), ChildValue(v, n - 1));
    }
  }

  lemma {:induction false} LeavesAreLeaves(t: DIType, p: Path, v: PyValue, i: nat)
    requires WellFormed(t) && ValidPath(t, p) && Conforms(t, p, v) && i < |Leaves(t, p, v)|
    ensures ValidPath(t, Leaves(t, p, v)[i].path) && LeafOk(t, Leaves(t, p, v)[i].path)
    decreases v, 1, 0
  {
    if Container(v) { ChildLeavesAreLeaves(t, p, v, Count(v), i); }
  }

  lemma {:induction false} ChildLeavesAreLeaves(t: DIType, p: Path, v: PyValue, n: nat, i: nat)
    requires WellFormed(t) && ValidPath(t, p) && Container(v) && n <= Count(v) && Conforms(t, p, v)
    requires i < |ChildLeaves(t, p, v, n)|
    ensures ValidPath(t, ChildLeaves(t, p, v, n)[i].path) && LeafOk(t, ChildLeaves(t, p, v, n)[i].path)
    decreases v, 0, n
  {
    hide Leaves, ChildLeaves, LeafOk, ChildSteps;
    NoneOrMore(t, p, v, n, i);
    LastChildLeaves(t, p, v, n);
    var front := ChildLeaves(t, p, v, n - 1);
    if i < |front| {
      ChildLeavesAreLeaves(t, p, v, n - 1, i);
    } else {
      LeavesAreLeaves(t, ChildPath(t, p, v, n - 1), ChildValue(v, n - 1), i - |front|);
    }
  }
}
