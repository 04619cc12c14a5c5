// The comparison `put` asserts to be empty: equality of two Python values up to
// pointers that are not set.
module Diff {
  import opened Common
  import opened PyValues

  /** The paths of the reported mismatches, or `None` when comparing raises. */
  type Report = Option<seq<seq<string>>>

  function Attribute(v: PyValue, name: string): Option<PyValue> {
    if v.PyObject? then AttributeFrom(v.fields, name) else None
  }

  function AttributeFrom(fs: seq<Field>, name: string): Option<PyValue> {
    if fs == [] then None
    else if fs[0].name == name then Some(fs[0].value)
    else AttributeFrom(fs[1..], name)
  }

  /** What the second object has where the first has its `k`-th child. */
  function Counterpart(x: PyValue, y: PyValue, k: nat): Option<PyValue>
    requires Container(x) && k < Count(x)
  {
    if x.PyObject? then Attribute(y, x.fields[k].name) else Item(y, k)
  }

  /** Python's `len`, or `None` when it raises. */
  function Length(v: PyValue): Option<nat> {
    match v
    case PyList(items) => Some(|items|)
    case PyStr(s) => Some(|s|)
    case PyBytes(raw) => Some(|raw|)
    case _ => None
  }

  /** Python's `v[k]`: a character of a string is a string, a byte is a number. */
  function Item(v: PyValue, k: nat): Option<PyValue> {
    match v
    case PyList(items) => if k < |items| then Some(items[k]) else None
    case PyStr(s) => if k < |s| then Some(PyStr([s[k]])) else None
    case PyBytes(raw) => if k < |raw| then Some(PyInt(raw[k])) else None
    case _ => None
  }

  function Mismatches(x: PyValue, y: PyValue, path: seq<string>): Report
    decreases x, 1, 0
  {
    match x
    case PyNone => Some(if y.PyNone? then [] else [path])
    case PyPtr(p, _) =>
      Some(if !y.PyPtr? then [path] else if p.None? || y.ptr.None? || p == y.ptr then [] else [path])
    case PyList(items) =>
      if Length(y).None? then None
      else if |items| != Length(y).value then Some([path])
      else ChildMismatches(x, y, path, |items|)
    case PyObject(fields) => ChildMismatches(x, y, path, |fields|)
    case _ => Some(if PyEqual(x, y) then [] else [path])
  }

  function Joined(a: Report, b: Report): Report {
    if a.Some? && b.Some? then Some(a.value + b.value) else None
  }

  lemma JoinedEmpty(a: Report, b: Report)
    ensures Joined(a, b) == Some([]) <==> a == Some([]) && b == Some([])
  {
    if a.Some? && b.Some? { assert |a.value + b.value| == |a.value| + |b.value|; }
  }

  function ChildMismatches(x: PyValue, y: PyValue, path: seq<string>, n: nat): Report
    requires Container(x) && n <= Count(x)
    decreases x, 0, n
  {
    if n == 0 then Some([]) else
    var front := ChildMismatches(x, y, path, n - 1);
    match Counterpart(x, y, n - 1)
    case None => None
    case Some(c) => Joined(front, Mismatches(ChildValue(x, n - 1), c, path + [ChildName(x, n - 1)]))
  }

  method Compare(x: PyValue, y: PyValue, path: seq<string>) returns (r: Report)
    ensures r == Mismatches(x, y, path)
    decreases x
  {
    if !Container(x) {
      match x
      case PyNone => return Some(if y.PyNone? then [] else [path]);
      case PyPtr(p, _) =>
        if !y.PyPtr? { return Some([path]); }
        if p.None? || y.ptr.None? { return Some([]); }
        return Some(if p == y.ptr then [] else [path]);
      case _ => return Some(if PyEqual(x, y) then [] else [path]);
    }
    if x.PyList? {
      var n := Length(y);
      if n.None? { return None; }
      if |x.items| != n.value { return Some([path]); }
    }
    var found, failed := [], false;
    for k := 0 to Count(x)
      invariant ChildMismatches(x, y, path, k) == if failed then None else Some(found)
    {
      var c := Counterpart(x, y, k);
      if c.None? {
        failed := true;
      } else if !failed {
        var sub := Compare(ChildValue(x, k), c.value, path + [ChildName(x, k)]);
        if sub.None? { failed := true; } else { found := found + sub.value; }
      }
    }
    return if failed then None else Some(found);
  }

  /** The same shape, leaf types included: what a freshly made object of the same class
      has in common with `x`. */
  predicate Like(x: PyValue, y: PyValue)
    decreases x
  {
    if Container(x) then
      && Container(y) && x.PyObject? == y.PyObject? && Count(x) == Count(y)
      && forall k | 0 <= k < Count(x) :: ChildName(x, k) == ChildName(y, k) && Like(ChildValue(x, k), ChildValue(y, k))
    else
      || (x.PyPtr? && y.PyPtr?)
      || (x.PyNone? && y.PyNone?)
      || (x.PyStr? && y.PyStr?)
      || (x.PyBytes? && y.PyBytes?)
      || (IsInt(x) && IsInt(y))
  }

  lemma {:induction false} AttributeAt(fs: seq<Field>, k: nat)
    requires k < |fs| && forall i, j | 0 <= i < j < |fs| :: fs[i].name != fs[j].name
    ensures AttributeFrom(fs, fs[k].name) == Some(fs[k].value)
  {
    if k > 0 {
      assert fs[0].name != fs[k].name;
      AttributeAt(fs[1..], k - 1);
    }
  }

  /** Whatever is compared with itself is found equal, as far as `put` can tell. */
  lemma {:induction false} NoMismatchWithItself(x: PyValue, path: seq<string>)
    requires Like(x, x) && NamesOnce(x)
    ensures Mismatches(x, x, path) == Some([])
    decreases x, 1, 0
  {
    if Container(x) { NoChildMismatch(x, path, Count(x)); }
  }

  predicate NamesOnce(x: PyValue)
    decreases x
  {
    Container(x) ==>
      && (x.PyObject? ==> forall i, j | 0 <= i < j < |x.fields| :: x.fields[i].name != x.fields[j].name)
      && forall k | 0 <= k < Count(x) :: NamesOnce(ChildValue(x, k))
  }

  lemma {:induction false} NoChildMismatch(x: PyValue, path: seq<string>, n: nat)
    requires Container(x) && n <= Count(x) && Like(x, x) && NamesOnce(x)
    ensures ChildMismatches(x, x, path, n) == Some([])
    decreases x, 0, n
  {
    if n > 0 {
      NoChildMismatch(x, path, n - 1);
      if x.PyObject? { AttributeAt(x.fields, n - 1); }
      assert Counterpart(x, x, n - 1) == Some(ChildValue(x, n - 1));
      NoMismatchWithItself(ChildValue(x, n - 1), path + [ChildName(x, n - 1)]);
      JoinedEmpty(ChildMismatches(x, x, path, n - 1), Some([]));
    }
  }

  // ---- What an empty report means ----

  /** Equality up to unset pointers. */
  predicate Agree(x: PyValue, y: PyValue)
    decreases x
  {
    if Container(x) then
      && (x.PyList? ==> Length(y) == Some(|x.items|))
      && forall k | 0 <= k < Count(x) ::
           Counterpart(x, y, k).Some? && Agree(ChildValue(x, k), Counterpart(x, y, k).value)
    else if x.PyPtr? then y.PyPtr? && (x.ptr.None? || y.ptr.None? || x.ptr == y.ptr)
    else if x.PyNone? then y.PyNone?
    else PyEqual(x, y)
  }

  /** The report is empty exactly when the values agree field by field. */
  lemma {:induction false} EmptyMeansAgree(x: PyValue, y: PyValue, path: seq<string>)
    ensures Mismatches(x, y, path) == Some([]) <==> Agree(x, y)
    decreases x, 1, 0
  {
    if x.PyObject? || (x.PyList? && Length(y) == Some(|x.items|)) {
      EmptyMeansAgreeBelow(x, y, path, Count(x));
    }
  }

  lemma {:induction false} EmptyMeansAgreeBelow(x: PyValue, y: PyValue, path: seq<string>, n: nat)
    requires Container(x) && n <= Count(x)
    ensures ChildMismatches(x, y, path, n) == Some([]) <==>
            forall k | 0 <= k < n :: Counterpart(x, y, k).Some? && Agree(ChildValue(x, k), Counterpart(x, y, k).value)
    decreases x, 0, n
  {
    hide Mismatches, Agree, Counterpart, ChildName;
    if n > 0 {
      EmptyMeansAgreeBelow(x, y, path, n - 1);
      if Counterpart(x, y, n - 1).Some? {
        var c, below := Counterpart(x, y, n - 1).value, path + [ChildName(x, n - 1)];
        EmptyMeansAgree(ChildValue(x, n - 1), c, below);
        JoinedEmpty(ChildMismatches(x, y, path, n - 1), Mismatches(ChildValue(x, n - 1), c, below));
      }
    }
  }
}
