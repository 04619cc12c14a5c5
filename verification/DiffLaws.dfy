// What the comparison reports: exactly the places at which the two values differ, where a
// place is the list of names on the way to it.
module DiffLaws {
  import opened Common
  import opened PyValues
  import opened Diff

  /** Two values differ here, not below: numbers by what they count, with booleans as 0 and
      1; anything else if it is not the very same; pointers only if both are set. */
  predicate DiffersHere(x: PyValue, y: PyValue) {
    match x
    case PyInt(n) => !(y == PyInt(n) || (n == 0 && y == PyBool(false)) || (n == 1 && y == PyBool(true)))
    case PyBool(b) => !(y == PyBool(b) || y == PyInt(if b then 1 else 0))
    case PyPtr(p, _) => !y.PyPtr? || (p.Some? && y.ptr.Some? && p.value != y.ptr.value)
    case PyList(items) =>
      (match y
       case PyList(others) => |items| != |others|
       case PyStr(s) => |items| != |s|
       case PyBytes(b) => |items| != |b|
       case _ => false)
    case PyObject(_) => false
    case _ => y != x
  }

  /** The `k`-th child of `x` is compared with `y`'s attribute of that name, or item at
      that index. */
  ghost predicate Opposite(x: PyValue, y: PyValue, k: nat, c: PyValue) {
    match x
    case PyObject(fields) =>
      && k < |fields| && y.PyObject?
      && exists j :: 0 <= j < |y.fields| && y.fields[j] == Field(fields[k].name, c) &&
                     forall i | 0 <= i < j :: y.fields[i].name != fields[k].name
    case PyList(items) =>
      k < |items| &&
      (match y
       case PyList(others) => k < |others| && c == others[k]
       case PyStr(s) => k < |s| && c == PyStr([s[k]])
       case PyBytes(b) => k < |b| && c == PyInt(b[k])
       case _ => false)
    case _ => false
  }

  /** The values differ at the place the names lead to. */
  ghost predicate DiffersAt(x: PyValue, y: PyValue, names: seq<string>)
    decreases names
  {
    if names == [] then DiffersHere(x, y)
    else
      && !DiffersHere(x, y)
      && exists k: nat, c :: Container(x) && k < Count(x) && ChildName(x, k) == names[0] && Opposite(x, y, k, c) &&
                             DiffersAt(ChildValue(x, k), c, names[1..])
  }

  lemma {:induction false} AttributeExact(fs: seq<Field>, name: string, c: PyValue)
    ensures AttributeFrom(fs, name) == Some(c) <==>
            exists j :: 0 <= j < |fs| && fs[j] == Field(name, c) && forall i | 0 <= i < j :: fs[i].name != name
  {
    if fs != [] && fs[0].name != name {
      AttributeExact(fs[1..], name, c);
      if j :| 0 <= j < |fs| - 1 && fs[1..][j] == Field(name, c) && forall i | 0 <= i < j :: fs[1..][i].name != name {
        assert fs[j + 1] == Field(name, c);
        forall i | 0 <= i < j + 1 ensures fs[i].name != name { if i > 0 { assert fs[1..][i - 1] == fs[i]; } }
      }
      if j :| 0 <= j < |fs| && fs[j] == Field(name, c) && forall i | 0 <= i < j :: fs[i].name != name {
        assert fs[1..][j - 1] == Field(name, c);
        forall i | 0 <= i < j - 1 ensures fs[1..][i].name != name { assert fs[1..][i] == fs[i + 1]; }
      }
    } else if fs != [] {
      if fs[0].value == c { assert fs[0] == Field(name, c); }
    }
  }

  lemma OppositeExact(x: PyValue, y: PyValue, k: nat, c: PyValue)
    requires Container(x) && k < Count(x)
    ensures Counterpart(x, y, k) == Some(c) <==> Opposite(x, y, k, c)
  {
    if x.PyObject? && y.PyObject? { AttributeExact(y.fields, x.fields[k].name, c); }
  }

  /** A comparison that comes to an end reports the places at which the values differ, all
      of them and no others. */
  lemma {:induction false} ReportExact(x: PyValue, y: PyValue, path: seq<string>, r: seq<string>)
    requires Mismatches(x, y, path).Some?
    ensures r in Mismatches(x, y, path).value <==> path <= r && DiffersAt(x, y, r[|path|..])
    decreases x, 1, 0
  {
    if path <= r { assert r == path <==> r[|path|..] == []; }
    if Container(x) && !DiffersHere(x, y) {
      ReportBelow(x, y, path, Count(x), r);
      if path <= r { DiffersWithin(x, y, r[|path|..]); }
    }
  }

  lemma DiffersWithin(x: PyValue, y: PyValue, names: seq<string>)
    requires Container(x) && !DiffersHere(x, y)
    ensures DiffersAt(x, y, names) <==> exists k: nat, c | k < Count(x) :: DiffersBelow(x, y, names, k, c)
  {
    hide DiffersHere, Opposite, ChildName;
    if DiffersAt(x, y, names) {
      var k: nat, c :| k < Count(x) && ChildName(x, k) == names[0] && Opposite(x, y, k, c) &&
                       DiffersAt(ChildValue(x, k), c, names[1..]);
      assert DiffersBelow(x, y, names, k, c);
    }
  }

  /** Comparing raises: a list meets something that has no length, or an object something
      without one of its fields, here or at children that are compared. */
  ghost predicate Raises(x: PyValue, y: PyValue)
    decreases x
  {
    || (x.PyList? && !y.PyList? && !y.PyStr? && !y.PyBytes?)
    || (x.PyObject? && exists f :: f in x.fields && !HasField(y, f.name))
    || (Container(x) && !DiffersHere(x, y) && exists k: nat, c :: RaisesBelow(x, y, k, c))
  }

  predicate HasField(y: PyValue, name: string) {
    y.PyObject? && exists g :: g in y.fields && g.name == name
  }

  ghost predicate RaisesBelow(x: PyValue, y: PyValue, k: nat, c: PyValue)
    decreases x, 0
  {
    Container(x) && k < Count(x) && Opposite(x, y, k, c) && Raises(ChildValue(x, k), c)
  }

  ghost predicate RaisesAmong(x: PyValue, y: PyValue, k: nat)
    requires Container(x) && k < Count(x)
  {
    Counterpart(x, y, k).None? || Raises(ChildValue(x, k), Counterpart(x, y, k).value)
  }

  lemma {:induction false} AttributeExists(fs: seq<Field>, name: string)
    ensures AttributeFrom(fs, name).Some? <==> exists g :: g in fs && g.name == name
  {
    if fs != [] && fs[0].name != name { AttributeExists(fs[1..], name); }
  }

  /** A comparison comes to an end exactly if nothing in it raises. */
  lemma {:induction false} RaisesExact(x: PyValue, y: PyValue, path: seq<string>)
    ensures Mismatches(x, y, path).None? <==> Raises(x, y)
    decreases x, 1, 0
  {
    if Container(x) && (x.PyList? ==> Length(y) == Some(Count(x))) {
      RaisesWithin(x, y, path, Count(x));
      RaisesChildren(x, y);
    }
  }

  lemma RaisesChildren(x: PyValue, y: PyValue)
    requires Container(x)
    requires x.PyList? ==> Length(y) == Some(Count(x))
    ensures (exists k: nat | k < Count(x) :: RaisesAmong(x, y, k)) <==> Raises(x, y)
  {
    hide RaisesAmong, RaisesBelow, Raises;
    forall k: nat | k < Count(x) ensures RaisesAmong(x, y, k) ==> Raises(x, y) { ChildRaises(x, y, k); }
    if Raises(x, y) {
      var k := RaisingChild(x, y);
      assert RaisesAmong(x, y, k);
    }
  }

  lemma ChildRaises(x: PyValue, y: PyValue, k: nat)
    requires Container(x) && k < Count(x)
    requires x.PyList? ==> Length(y) == Some(Count(x))
    ensures RaisesAmong(x, y, k) ==> Raises(x, y)
  {
    match Counterpart(x, y, k)
    case Some(c) =>
      OppositeExact(x, y, k, c);
      if RaisesAmong(x, y, k) { assert RaisesBelow(x, y, k, c); }
    case None =>
      if x.PyObject? && y.PyObject? { AttributeExists(y.fields, x.fields[k].name); }
      assert x.PyObject? ==> x.fields[k] in x.fields && !HasField(y, x.fields[k].name);
  }

  lemma RaisingChild(x: PyValue, y: PyValue) returns (k: nat)
    requires Container(x) && Raises(x, y)
    requires x.PyList? ==> Length(y) == Some(Count(x))
    ensures k < Count(x) && RaisesAmong(x, y, k)
  {
    if f :| x.PyObject? && f in x.fields && !HasField(y, f.name) {
      k :| 0 <= k < |x.fields| && x.fields[k] == f;
      if y.PyObject? { AttributeExists(y.fields, f.name); }
    } else {
      var i: nat, c :| RaisesBelow(x, y, i, c);
      OppositeExact(x, y, i, c);
      k := i;
    }
  }

  lemma {:induction false} RaisesWithin(x: PyValue, y: PyValue, path: seq<string>, n: nat)
    requires Container(x) && n <= Count(x)
    ensures ChildMismatches(x, y, path, n).None? <==> exists k: nat | k < n :: RaisesAmong(x, y, k)
    decreases x, 0, n
  {
    hide Raises, Mismatches, Counterpart;
    if n > 0 {
      RaisesWithin(x, y, path, n - 1);
      var c := Counterpart(x, y, n - 1);
      if c.Some? { RaisesExact(ChildValue(x, n - 1), c.value, path + [ChildName(x, n - 1)]); }
      assert RaisesAmong(x, y, n - 1) <==>
             c.None? || Mismatches(ChildValue(x, n - 1), c.value, path + [ChildName(x, n - 1)]).None?;
      assert (exists k: nat | k < n :: RaisesAmong(x, y, k)) <==>
             RaisesAmong(x, y, n - 1) || exists k: nat | k < n - 1 :: RaisesAmong(x, y, k);
    }
  }

  /** Mismatches come in the order of fields and items. */
  lemma {:induction false} ReportInOrder(x: PyValue, y: PyValue, path: seq<string>, m: nat, n: nat)
    requires Container(x) && m <= n <= Count(x) && ChildMismatches(x, y, path, n).Some?
    ensures ChildMismatches(x, y, path, m).Some?
    ensures ChildMismatches(x, y, path, m).value <= ChildMismatches(x, y, path, n).value
    decreases n
  {
    hide Mismatches, Counterpart;
    if m < n { ReportInOrder(x, y, path, m, n - 1); }
  }

  ghost predicate DiffersBelow(x: PyValue, y: PyValue, names: seq<string>, k: nat, c: PyValue)
    requires Container(x) && k < Count(x)
  {
    && names != [] && ChildName(x, k) == names[0] && Opposite(x, y, k, c)
    && DiffersAt(ChildValue(x, k), c, names[1..])
  }

  ghost predicate DiffersAmong(x: PyValue, y: PyValue, path: seq<string>, r: seq<string>, n: nat)
    requires Container(x) && n <= Count(x)
  {
    path <= r && exists k: nat, c | k < n :: DiffersBelow(x, y, r[|path|..], k, c)
  }

  lemma {:induction false} ReportBelow(x: PyValue, y: PyValue, path: seq<string>, n: nat, r: seq<string>)
    requires Container(x) && n <= Count(x) && ChildMismatches(x, y, path, n).Some?
    ensures r in ChildMismatches(x, y, path, n).value <==> DiffersAmong(x, y, path, r, n)
    decreases x, 0, n
  {
    hide Mismatches, DiffersAt, Opposite, Counterpart, ChildName;
    if n > 0 {
      var k := n - 1;
      ReportBelow(x, y, path, k, r);
      var c, below := Counterpart(x, y, k).value, path + [ChildName(x, k)];
      OppositeExact(x, y, k, c);
      ReportExact(ChildValue(x, k), c, below, r);
      NamesBelow(path, ChildName(x, k), r);
      assert below <= r && DiffersAt(ChildValue(x, k), c, r[|below|..]) <==>
             path <= r && DiffersBelow(x, y, r[|path|..], k, c);
      forall d | Opposite(x, y, k, d) ensures d == c { OppositeExact(x, y, k, d); }
    }
  }

  lemma NamesBelow(path: seq<string>, name: string, r: seq<string>)
    ensures path + [name] <= r <==> path <= r && r[|path|..] != [] && r[|path|..][0] == name
    ensures path + [name] <= r ==> r[|path|..][1..] == r[|path + [name]|..]
  {
    if path <= r && r[|path|..] != [] && r[|path|..][0] == name {
      assert r[|path|] == name;
      assert r[..|path| + 1] == path + [name];
    }
  }
}
