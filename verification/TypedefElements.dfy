// An input on which uploading fails: a list over an array of a typedef.
module TypedefElements {
  import opened Common
  import opened ByteMemory
  import opened DebugTypes
  import opened TypePaths
  import opened Layout
  import opened Decimal
  import opened Spelling
  import opened Offsets
  import opened FlatView
  import opened PyValues
  import opened Primitives
  import opened Marshaller
  import opened Upload
  import opened Diff
  import opened RoundTrip
  import opened Marshalling

  /** A struct with a field `uint8_t r[1]`. */
  predicate OneTypedefElement(t: DIType) {
    t == Struct([Member("r", Array(Typedef(Basic("unsigned char", 1, 1)), 1))])
  }

  function ListOfOne(n: int): PyValue {
    PyObject([Field("r", PyList([PyInt(n)]))])
  }

  lemma ElementPath(t: DIType)
    requires OneTypedefElement(t)
    ensures WellFormed(t) && ValidPath(t, [0]) && ValidPath(t, [0, 0])
    ensures TypeAt(t, [0]) == t.members[0].ty && TypeAt(t, [0, 0]) == t.members[0].ty.elem
    ensures Designators(t, [0, 0]) == ["r", "0"] && EndsNamed(t, [0, 0])
    ensures OffsetOf(t, [0, 0]) == 0 && RightAt(Lower(t), t, [0, 0])
    ensures !StopsAtElementRecord(t, [0, 0]) && EndsAtTypedefElement(t, [0, 0])
  {
    var a := t.members[0].ty;
    assert NamesFrom(t.members, 1) == {} && WellFormedFrom(t.members, 1);
    assert [0, 0][1..] == [0] && [0][1..] == [];
    assert FieldsEnd(t.members, 0) == 0 && FieldOffset(t.members, 0) == 0;
    assert ToString(0) == "0";
    assert Designators(a, [0]) == ["0"] && OffsetOf(a, [0]) == 0;
    LoweredStep(t, 0);
    LoweredStep(a, 0);
    assert StepsRight(Lower(a), a, [0]);
    assert StepsRight(Lower(t), t, [0, 0]);
    WalkGivesOffset(Lower(t), t, [0, 0]);
  }

  lemma ElementLeaf(t: DIType, n: int)
    requires OneTypedefElement(t)
    ensures ValidPath(t, []) && Conforms(t, [], ListOfOne(n)) && Leaves(t, [], ListOfOne(n)) == [Leaf([0, 0], PyInt(n))]
  {
    ElementPath(t);
    var v, l := ListOfOne(n), PyList([PyInt(n)]);
    assert LeafOk(t, [0, 0]);
    assert ChildSteps(t.members[0].ty, l, 0) == Some([0]) && [0] + [0] == [0, 0];
    assert Conforms(t, [0, 0], PyInt(n));
    assert Leaves(t, [0, 0], PyInt(n)) == [Leaf([0, 0], PyInt(n))];
    assert Conforms(t, [0], l);
    assert ChildLeaves(t, [0], l, 0) == [];
    assert ChildLeaves(t, [0], l, 1) == [Leaf([0, 0], PyInt(n))];
    assert ChainTo(t, "r") == Some([0]) && ChildSteps(t, v, 0) == Some([0]) && [] + [0] == [0];
    assert ChildLeaves(t, [], v, 0) == [];
    assert ChildLeaves(t, [], v, 1) == [Leaf([0, 0], PyInt(n))];
  }

  /** A list with one number in range meets every condition, is written, and is not read
      back: the report is not empty. */
  lemma TypedefElementLost(t: DIType, n: nat, w: View, base: nat)
    requires OneTypedefElement(t) && n < 256 && Covers(w, base, Size(t))
    ensures Uploadable(t, 32, ListOfOne(n), ListOfOne(0))
    ensures Conforms(t, [], ListOfOne(n)) && Conforms(t, [], ListOfOne(0))
    ensures var r := UploadLeaves(w, base, t, 32, Leaves(t, [], ListOfOne(n)));
            && r.ending == Finished && Covers(r.view, base, 1) && ViewRead(r.view, base, 1) == [n]
            && var back := ReadBack(r.view, base, t, 32, [], ListOfOne(0));
               back.Some? && Mismatches(ListOfOne(n), back.value, []) != Some([])
  {
    hide OneTypedefElement, Uploadable, Leaves, Conforms, Mismatches, ReadBack, UploadLeaves, HoldsLeaf, ListOfOne,
         Size;
    ElementLeaf(t, n);
    ElementLeaf(t, 0);
    ElementUploadable(t, n);
    ObjectRoundTrip(w, base, t, 32, ListOfOne(n), ListOfOne(0));
    var l := Leaf([0, 0], PyInt(n));
    var r := UploadLeaves(w, base, t, 32, [l]);
    assert HoldsLeaf(r.view, base, t, 32, [l][0]);
    ElementWritten(t, n, r.view, base);
    assert !ComesBack(t, [l][0]);
  }

  lemma ElementWritten(t: DIType, n: nat, w: View, base: nat)
    requires OneTypedefElement(t) && n < 256 && HoldsLeaf(w, base, t, 32, Leaf([0, 0], PyInt(n)))
    ensures Covers(w, base, 1) && ViewRead(w, base, 1) == [n] && !ComesBack(t, Leaf([0, 0], PyInt(n)))
  {
    hide RightAt, StopsAtElementRecord, WellFormed, OffsetOf, Walk, GepOf, StepsRight;
    ElementPath(t);
    assert EncodeLeaf(t, 32, Leaf([0, 0], PyInt(n))) == Write([n]) by { assert Pow256(1) == 256 && Le(n, 1) == [n]; }
  }

  lemma ElementUploadable(t: DIType, n: nat)
    requires OneTypedefElement(t) && n < 256
    ensures Uploadable(t, 32, ListOfOne(n), ListOfOne(0))
  {
    ElementReady(t, n);
    ElementsAlike(n);
    hide RightAt, LeafOk, EndsAtTypedefElement, ListOfOne, Like, Ready, Leaves, Conforms, WellFormed;
    ElementPath(t);
    ElementLeaf(t, n);
    ElementLeaf(t, 0);
    OneLeaf(t, Leaf([0, 0], PyInt(n)));
  }

  lemma OneLeaf(t: DIType, l: Leaf)
    requires Ready(t, 32, l)
    ensures AllReady(t, 32, [l]) && AllPlacesApart(t, 32, [l])
  {
    hide Ready;
  }

  lemma ElementReady(t: DIType, n: nat)
    requires OneTypedefElement(t) && n < 256
    ensures Ready(t, 32, Leaf([0, 0], PyInt(n)))
  {
    hide RightAt, StopsAtElementRecord, WellFormed, OffsetOf, Walk, GepOf;
    ElementPath(t);
    RightLeafInside(t, Leaf([0, 0], PyInt(n)));
  }

  lemma ElementsAlike(n: nat)
    ensures Like(ListOfOne(n), ListOfOne(0))
  {
    assert Like(PyList([PyInt(n)]), PyList([PyInt(0)]));
  }
}
