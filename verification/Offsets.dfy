// The whole pipeline from a field path to a byte offset: resolve the names, lower the
// type, walk the index list; and when the result is the C offset of the path.
module Offsets {
  import opened Common
  import opened DebugTypes
  import opened TypePaths
  import opened Layout
  import opened Resolver
  import opened Spelling

  /** offsetInBitsFromPath; `None` stands for its assertion failures and for the
      exception of `std::stoi`. */
  function OffsetInBits(t: DIType, needle: seq<string>): Option<nat>
    requires t.Struct?
  {
    match DirectInfo(t, needle)
    case Thrown => None
    case Aborted => None
    case Info(info) => GepOffset(Lower(t), info.gep)
  }

  function GepOffset(l: LType, gep: seq<nat>): Option<nat> {
    if gep == [] then None else
    match Walk(LArray(l, gep[0] + 1), gep)
    case None => None
    case Some(r) => Some(r.offset * 8)
  }

  method OffsetInBitsFromPath(t: DIType, needle: seq<string>) returns (bits: Option<nat>)
    requires t.Struct?
    ensures bits == OffsetInBits(t, needle)
  {
    var r := GetStructFieldInfo2(t, needle);
    if !r.Info? || r.info.gep == [] { return None; }
    bits := Gep2Offset(Lower(t), r.info.gep);
  }

  lemma {:induction false} LowerStrip(t: DIType)
    ensures Lower(Strip(t)) == Lower(t)
  {
    if t.Typedef? { LowerStrip(t.base); }
  }

  /** One step of the walk, seen from the C side. */
  lemma LoweredStep(t: DIType, i: nat)
    requires WellFormed(t) && HasChild(t, i)
    ensures var s := Step(Lower(t), StepIndex(t, i).index);
            && s.Some? && StepIndex(t, i).index < Arity(Lower(t))
            && s.value.offset == ChildOffset(t, i)
            && s.value.ty == (if Strip(t).Union?
                              then Lower(Strip(t).members[Kept(Strip(t).members, |Strip(t).members|)].ty)
                              else Lower(Child(t, i)))
  {
    LowerStrip(t);
    StripFacts(t);
    match Strip(t)
    case Struct(ms) => LowerKeepsOffset(ms, i);
    case Union(ms) =>
    case Array(e, _) => LowerKeepsSize(e);
  }

  // ---- When the walk is right ----

  /** Walking `cur` along the index list of the path ends without an abort, at the C
      offset. */
  ghost predicate RightAt(cur: LType, t: DIType, p: Path)
    requires ValidPath(t, p)
  {
    Walk(cur, GepOf(t, p)).Some? && Walk(cur, GepOf(t, p)).value.offset == OffsetOf(t, p)
  }

  /** Each step of the walk along `p` lands where C puts the next object. */
  ghost predicate StepsRight(cur: LType, t: DIType, p: Path)
    requires ValidPath(t, p)
    decreases p
  {
    p == [] ||
    var s := Step(cur, StepIndex(t, p[0]).index);
    s.Some? && s.value.offset == ChildOffset(t, p[0]) && StepsRight(s.value.ty, Child(t, p[0]), p[1..])
  }

  /** Level by level: every child of `t` is found where C puts it, and its own children
      too, in the type the step leads to. An array in `cur` takes any index, since the
      walk checks none. */
  ghost predicate WalksRight(cur: LType, t: DIType)
    decreases t, 1
  {
    if t.Typedef? then WalksRight(cur, t.base)
    else forall i: nat | HasChild(t, i) :: ChildRight(cur, t, i)
  }

  ghost predicate ChildRight(cur: LType, t: DIType, i: nat)
    requires !t.Typedef? && HasChild(t, i)
    decreases t, 0
  {
    var s := Step(cur, StepIndex(t, i).index);
    s.Some? && s.value.offset == ChildOffset(t, i) && WalksRight(s.value.ty, Child(t, i))
  }

  /** A walk of right steps is right. */
  lemma {:induction false} WalkGivesOffset(cur: LType, t: DIType, p: Path)
    requires ValidPath(t, p) && StepsRight(cur, t, p)
    ensures RightAt(cur, t, p)
    decreases p
  {
    if p != [] {
      GepOneMore(t, p);
      WalkGivesOffset(Step(cur, StepIndex(t, p[0]).index).value.ty, Child(t, p[0]), p[1..]);
    }
  }

  /** After a right first step, the walk of the path is right exactly if the rest is. */
  lemma RightAfterStep(cur: LType, t: DIType, i: nat, q: Path)
    requires HasChild(t, i) && ValidPath(Child(t, i), q)
    requires Step(cur, StepIndex(t, i).index).Some?
    requires Step(cur, StepIndex(t, i).index).value.offset == ChildOffset(t, i)
    ensures ValidPath(t, [i] + q)
    ensures RightAt(cur, t, [i] + q) <==> RightAt(Step(cur, StepIndex(t, i).index).value.ty, Child(t, i), q)
  {
    assert ([i] + q)[1..] == q;
    GepOneMore(t, [i] + q);
    WalkCons(cur, StepIndex(t, i).index, GepOf(Child(t, i), q));
  }

  lemma OneStep(t: DIType, i: nat)
    requires HasChild(t, i)
    ensures ValidPath(t, [i]) && OffsetOf(t, [i]) == ChildOffset(t, i) && GepOf(t, [i]) == [StepIndex(t, i).index]
  {
    var u, p := Child(t, i), [i];
    assert p[1..] == [] && GepOf(u, []) == [] && OffsetOf(u, p[1..]) == 0;
    GepOneMore(t, p);
    assert OffsetOf(t, p) == ChildOffset(t, i) + OffsetOf(u, p[1..]);
  }

  /** One index is walked right exactly if its step is. */
  lemma RightFirstStep(cur: LType, t: DIType, i: nat)
    requires HasChild(t, i)
    ensures ValidPath(t, [i])
    ensures RightAt(cur, t, [i]) <==>
            var s := Step(cur, StepIndex(t, i).index); s.Some? && s.value.offset == ChildOffset(t, i)
  {
    OneStep(t, i);
    WalkCons(cur, StepIndex(t, i).index, []);
    assert GepOf(t, [i]) == [StepIndex(t, i).index] + [];
  }

  /** The steps of a path are right exactly if the walk is right at it and at every
      shorter path on the way. */
  lemma {:induction false} StepsRightExact(cur: LType, t: DIType, p: Path)
    requires ValidPath(t, p)
    ensures StepsRight(cur, t, p) <==>
            forall n | 0 <= n <= |p| :: ValidPath(t, p[..n]) && RightAt(cur, t, p[..n])
    decreases p
  {
    if p == [] {
      assert p[..0] == [];
    } else {
      var i, u := p[0], Child(t, p[0]);
      assert p[..0] == [] && p[..1] == [i];
      RightFirstStep(cur, t, i);
      if RightAt(cur, t, [i]) {
        var next := Step(cur, StepIndex(t, i).index).value.ty;
        StepsRightExact(next, u, p[1..]);
        forall n | 0 <= n < |p|
          ensures ValidPath(t, p[..n + 1]) <==> ValidPath(u, p[1..][..n])
          ensures ValidPath(t, p[..n + 1]) ==> (RightAt(cur, t, p[..n + 1]) <==> RightAt(next, u, p[1..][..n]))
        {
          assert p[..n + 1] == [i] + p[1..][..n];
          assert p[..n + 1][1..] == p[1..][..n];
          if ValidPath(u, p[1..][..n]) { RightAfterStep(cur, t, i, p[1..][..n]); }
        }
        if forall n | 0 <= n <= |p| :: ValidPath(t, p[..n]) && RightAt(cur, t, p[..n]) {
          forall n | 0 <= n <= |p[1..]|
            ensures ValidPath(u, p[1..][..n]) && RightAt(next, u, p[1..][..n])
          {
            assert ValidPath(t, p[..n + 1]) && RightAt(cur, t, p[..n + 1]);
          }
        }
        if StepsRight(cur, t, p) {
          forall n | 0 <= n <= |p|
            ensures ValidPath(t, p[..n]) && RightAt(cur, t, p[..n])
          {
            if n > 0 { assert ValidPath(u, p[1..][..n - 1]) && RightAt(next, u, p[1..][..n - 1]); }
          }
        }
      } else {
        assert !RightAt(cur, t, p[..1]);
      }
    }
  }

  lemma {:induction false} EveryStepRight(cur: LType, t: DIType, p: Path)
    requires ValidPath(t, p) && WalksRight(cur, t)
    ensures StepsRight(cur, t, p)
    decreases |p|, t
  {
    if t.Typedef? {
      EveryStepRight(cur, t.base, p);
      StepsOfBase(cur, t, p);
    } else if p != [] {
      assert ChildRight(cur, t, p[0]);
      EveryStepRight(Step(cur, StepIndex(t, p[0]).index).value.ty, Child(t, p[0]), p[1..]);
    }
  }

  /** A typedef is walked as the type it names. */
  lemma StepsOfBase(cur: LType, t: DIType, p: Path)
    requires t.Typedef? && ValidPath(t, p)
    ensures ValidPath(t.base, p) && (StepsRight(cur, t, p) <==> StepsRight(cur, t.base, p))
    ensures RightAt(cur, t, p) <==> RightAt(cur, t.base, p)
  {
    if p != [] {
      GepOneMore(t, p);
      GepOneMore(t.base, p);
    }
  }

  /** The walk is right for every path of a type exactly if it walks right level by
      level. */
  lemma {:induction false} WalksRightExact(cur: LType, t: DIType)
    ensures WalksRight(cur, t) <==> forall p | ValidPath(t, p) :: RightAt(cur, t, p)
    decreases t
  {
    if WalksRight(cur, t) {
      forall p | ValidPath(t, p) ensures RightAt(cur, t, p) {
        EveryStepRight(cur, t, p);
        WalkGivesOffset(cur, t, p);
      }
    }
    if forall p | ValidPath(t, p) :: RightAt(cur, t, p) {
      if t.Typedef? {
        forall p | ValidPath(t.base, p) ensures RightAt(cur, t.base, p) {
          BasePath(t, p);
          StepsOfBase(cur, t, p);
        }
        WalksRightExact(cur, t.base);
      } else {
        forall i: nat | HasChild(t, i) ensures ChildRight(cur, t, i) {
          RightBelow(cur, t, i);
          WalksRightExact(Step(cur, StepIndex(t, i).index).value.ty, Child(t, i));
        }
      }
    }
  }

  lemma BasePath(t: DIType, p: Path)
    requires t.Typedef? && ValidPath(t.base, p)
    ensures ValidPath(t, p)
  {
  }

  lemma RightBelow(cur: LType, t: DIType, i: nat)
    requires HasChild(t, i) && forall p | ValidPath(t, p) :: RightAt(cur, t, p)
    ensures var s := Step(cur, StepIndex(t, i).index);
            && s.Some? && s.value.offset == ChildOffset(t, i)
            && forall q | ValidPath(Child(t, i), q) :: RightAt(s.value.ty, Child(t, i), q)
  {
    RightFirstStep(cur, t, i);
    assert RightAt(cur, t, [i]);
    var next := Step(cur, StepIndex(t, i).index).value.ty;
    forall q | ValidPath(Child(t, i), q) ensures RightAt(next, Child(t, i), q) {
      RightAfterStep(cur, t, i, q);
      assert RightAt(cur, t, [i] + q);
    }
  }

  /** What decides whether the lowered type walks right: below a union every member has
      to walk right in the one type LLVM kept; anything else only passes the question on. */
  lemma LoweredWalksRight(t: DIType)
    requires WellFormed(t)
    ensures WalksRight(Lower(t), t) <==>
            match t
            case Typedef(b) => WalksRight(Lower(b), b)
            case Struct(ms) => forall i | 0 <= i < |ms| :: WalksRight(Lower(ms[i].ty), ms[i].ty)
            case Union(ms) => forall i | 0 <= i < |ms| :: WalksRight(Lower(ms[Kept(ms, |ms|)].ty), ms[i].ty)
            case Array(e, n) => n == 0 || WalksRight(Lower(e), e)
            case _ => true
  {
    forall i: nat | !t.Typedef? && HasChild(t, i)
      ensures ChildRight(Lower(t), t, i) <==>
              WalksRight(if t.Union? then Lower(t.members[Kept(t.members, |t.members|)].ty) else Lower(Child(t, i)),
                         Child(t, i))
    {
      LoweredStep(t, i);
    }
    if t.Array? && t.count > 0 { assert HasChild(t, 0); }
    if t.Record() {
      assert forall i | 0 <= i < |t.members| :: HasChild(t, i) && Child(t, i) == t.members[i].ty;
    }
  }

  // ---- Where the accessors go ----

  /** Where the walk puts the object at the path; `None` is an abort. */
  function PlaceOf(t: DIType, p: Path): Option<nat>
    requires ValidPath(t, p)
  {
    match Walk(Lower(t), GepOf(t, p))
    case None => None
    case Some(r) => Some(r.offset)
  }

  /** An accessor gets to the object: irx finds a size for it, and the walk ends. */
  predicate Addressable(t: DIType, p: Path)
    requires ValidPath(t, p)
  {
    !StopsAtElementRecord(t, p) && PlaceOf(t, p).Some?
  }

  /** A path whose walk is right comes out at its C offset; the only such paths refused
      are those that stop at a whole record inside an array. */
  lemma OffsetIsRight(t: DIType, p: Path)
    requires t.Struct? && WellFormed(t) && ValidPath(t, p) && p != [] && EndsNamed(t, p)
    requires RightAt(Lower(t), t, p)
    ensures OffsetInBits(t, Designators(t, p)) ==
            if StopsAtElementRecord(t, p) then None else Some(8 * OffsetOf(t, p))
  {
    OffsetOfSpelling(t, p);
  }

  /** The offset of any spelled path is where the walk puts it; so it is the C offset
      exactly if the walk is right. */
  lemma OffsetOfSpelling(t: DIType, p: Path)
    requires t.Struct? && WellFormed(t) && ValidPath(t, p) && p != [] && EndsNamed(t, p)
    ensures OffsetInBits(t, Designators(t, p)) ==
            if Addressable(t, p) then Some(8 * PlaceOf(t, p).value) else None
    ensures OffsetInBits(t, Designators(t, p)) == Some(8 * OffsetOf(t, p)) <==>
            !StopsAtElementRecord(t, p) && RightAt(Lower(t), t, p)
  {
    SizeRecorded(t, p);
    SpellingInfo(t, p);
    WholeObject(Lower(t), GepOf(t, p));
  }

  /** The leading 0 of an index list selects the object itself. */
  lemma WholeObject(l: LType, gep: seq<nat>)
    ensures GepOffset(l, [0] + gep) ==
            match Walk(l, gep)
            case None => None
            case Some(r) => Some(8 * r.offset)
  {
    WalkCons(LArray(l, 1), 0, gep);
  }

  /** A path that goes on below a union member LLVM dropped can miss. In a struct with a
      union `u` of {int p, q} x and {char a, b} y, `u.y.b` lies at byte 1, and the answer
      is bit 32; `u.y.a` on the other hand is found. */
  lemma DroppedMemberMisses(xs: seq<Member>, ys: seq<Member>, us: seq<Member>, t: DIType)
    requires xs == [Member("p", Basic("int", 4, 4)), Member("q", Basic("int", 4, 4))]
    requires ys == [Member("a", Basic("char", 1, 1)), Member("b", Basic("char", 1, 1))]
    requires us == [Member("x", Struct(xs)), Member("y", Struct(ys))]
    requires t == Struct([Member("u", Union(us))])
    ensures WellFormed(t) && ValidPath(t, [0, 1, 0]) && ValidPath(t, [0, 1, 1])
    ensures OffsetOf(t, [0, 1, 1]) == 1 && OffsetInBits(t, ["u", "y", "b"]) == Some(32)
    ensures OffsetOf(t, [0, 1, 0]) == 0 && OffsetInBits(t, ["u", "y", "a"]) == Some(0)
    ensures StepsRight(Lower(t), t, [0, 1, 0]) && !WalksRight(Lower(t), t)
  {
    hide WellFormed, OffsetOf, FieldOffset, Align, Walk, Lower, WalksRight, StepsRight, Kept, ValidPath, GepOf,
         Designators, EndsNamed, StopsAtElementRecord, OffsetInBits;
    DroppedTypes(xs, ys, us, t);
    DroppedPath(ys, us, t, 0);
    DroppedPath(ys, us, t, 1);
    DroppedWalk(xs, us, t, 0);
    DroppedWalk(xs, us, t, 1);
    OffsetOfSpelling(t, [0, 1, 0]);
    OffsetOfSpelling(t, [0, 1, 1]);
    RightEverywhere(Lower(t), t, [0, 1, 1]);
    KeptFirst(ys, us, t);
  }

  lemma RightEverywhere(cur: LType, t: DIType, p: Path)
    requires ValidPath(t, p)
    ensures WalksRight(cur, t) ==> RightAt(cur, t, p)
  {
    WalksRightExact(cur, t);
  }

  lemma DroppedTypes(xs: seq<Member>, ys: seq<Member>, us: seq<Member>, t: DIType)
    requires xs == [Member("p", Basic("int", 4, 4)), Member("q", Basic("int", 4, 4))]
    requires ys == [Member("a", Basic("char", 1, 1)), Member("b", Basic("char", 1, 1))]
    requires us == [Member("x", Struct(xs)), Member("y", Struct(ys))]
    requires t == Struct([Member("u", Union(us))])
    ensures WellFormed(t)
    ensures Align(Struct(xs)) == 4 && Align(Struct(ys)) == 1 && FieldOffset(ys, 0) == 0 && FieldOffset(ys, 1) == 1
  {
    FieldOffsetsOfTwo(xs);
    FieldOffsetsOfTwo(ys);
    NamedPair(xs);
    NamedPair(ys);
    NamedPair(us);
    assert NamesFrom(t.members, 1) == {} && WellFormedFrom(t.members, 1);
  }

  /** The path `u.y` with the `k`-th member of `y`. */
  lemma DroppedPath(ys: seq<Member>, us: seq<Member>, t: DIType, k: nat)
    requires |us| == |ys| == 2 && k < 2 && us[1] == Member("y", Struct(ys)) && t == Struct([Member("u", Union(us))])
    requires ys[k].name != "" && ys[k].ty.Basic?
    ensures ValidPath(t, [0, 1, k]) && OffsetOf(t, [0, 1, k]) == FieldOffset(ys, k)
    ensures Designators(t, [0, 1, k]) == ["u", "y", ys[k].name] && EndsNamed(t, [0, 1, k])
    ensures GepOf(t, [0, 1, k]) == [0, 0, k] && !StopsAtElementRecord(t, [0, 1, k])
  {
    assert [0, 1, k][1..] == [1, k] && [1, k][1..] == [k] && [k][1..] == [];
    assert FieldOffset(t.members, 0) == 0 by { assert FieldsEnd(t.members, 0) == 0; }
    OneStep(Struct(ys), k);
    assert Designators(Struct(ys), [k]) == [ys[k].name];
    assert Designators(Union(us), [1, k]) == ["y", ys[k].name];
    GepOneMore(t, [0, 1, k]);
    GepOneMore(Union(us), [1, k]);
    assert !StopsAtElementRecord(Struct(ys), [k]) && !StopsAtElementRecord(Union(us), [1, k]);
  }

  /** The walk through the member LLVM kept, a pair of integers. */
  lemma DroppedWalk(xs: seq<Member>, us: seq<Member>, t: DIType, k: nat)
    requires |us| == |xs| == 2 && k < 2 && us[0].ty == Struct(xs) && t == Struct([Member("u", Union(us))])
    requires Align(Struct(xs)) == 4 && Align(us[1].ty) == 1
    requires xs[0].ty == xs[1].ty == Basic("int", 4, 4)
    ensures Walk(Lower(t), [0, 0, k]).Some? && Walk(Lower(t), [0, 0, k]).value.offset == 4 * k
  {
    assert Kept(us, 2) == 0 by { assert Kept(us, 1) == 0; }
    var fs := LowerMembers(xs, 2);
    assert fs == [Scalar(4, 4), Scalar(4, 4)] by {
      assert LowerMembers(xs, 1) == [Scalar(4, 4)] by { assert LowerMembers(xs, 0) == []; }
    }
    assert LFieldOffset(fs, 0) == 0 && LFieldOffset(fs, 1) == 4 by {
      assert LFieldsEnd(fs, 1) == 4 by { assert LFieldsEnd(fs, 0) == 0; }
    }
    assert LowerUnion(us)[0] == LStruct(fs);
    WalkCons(LStruct(fs), k, []);
    assert [k] + [] == [k];
    FirstField(LowerUnion(us), [k]);
    var outer := LowerMembers(t.members, 1);
    assert outer == [Lower(Union(us))] by { assert LowerMembers(t.members, 0) == []; }
    FirstField(outer, [0, k]);
  }

  lemma FirstField(fs: seq<LType>, rest: seq<nat>)
    requires fs != []
    ensures Walk(LStruct(fs), [0] + rest) == Walk(fs[0], rest)
  {
    assert LFieldOffset(fs, 0) == 0 by { assert LFieldsEnd(fs, 0) == 0; }
    WalkCons(LStruct(fs), 0, rest);
  }

  lemma KeptFirst(ys: seq<Member>, us: seq<Member>, t: DIType)
    requires |us| == |ys| == 2 && us[1] == Member("y", Struct(ys)) && t == Struct([Member("u", Union(us))])
    requires WellFormed(t) && ValidPath(t, [0, 1, 0]) && us[0].ty.Struct? && |us[0].ty.members| == 2
    requires Align(us[0].ty) == 4 && Align(us[1].ty) == 1 && FieldOffset(ys, 0) == 0
    ensures StepsRight(Lower(t), t, [0, 1, 0])
  {
    assert [0, 1, 0][1..] == [1, 0] && [1, 0][1..] == [0] && [0][1..] == [];
    assert Kept(us, 2) == 0 by { assert Kept(us, 1) == 0; }
    LoweredStep(t, 0);
    LoweredStep(Union(us), 1);
    var kept := Lower(us[0].ty);
    assert LFieldOffset(kept.fields, 0) == 0 by { assert LFieldsEnd(kept.fields, 0) == 0; }
  }

  lemma FieldOffsetsOfTwo(ms: seq<Member>)
    requires |ms| == 2 && ms[0].ty == ms[1].ty && ms[0].ty.Basic?
    requires ms[0].ty.bytes == ms[0].ty.align
    ensures FieldOffset(ms, 0) == 0 && FieldOffset(ms, 1) == ms[0].ty.bytes
    ensures Align(Struct(ms)) == ms[0].ty.align
  {
    assert FieldsEnd(ms, 0) == 0;
    assert FieldsEnd(ms, 1) == ms[0].ty.bytes;
    assert MaxAlign(ms, 0) == 1 && MaxAlign(ms, 1) == ms[0].ty.align;
    assert MaxAlign(ms, 2) == ms[0].ty.align;
  }
}
