// How a path is spelled as field names and indices, and the proof that the direct
// resolver reads every spelling back.
module Spelling {
  import opened Common
  import opened Decimal
  import opened DebugTypes
  import opened TypePaths
  import opened Resolver

  function StepName(t: DIType, i: nat): seq<string>
    requires HasChild(t, i)
  {
    var s := Strip(t);
    if s.Array? then [ToString(i)]
    else if s.members[i].name == "" then []
    else [s.members[i].name]
  }

  /** The strings a program writes to select a path: anonymous members leave no trace. */
  function Designators(t: DIType, p: Path): seq<string>
    requires ValidPath(t, p)
    decreases p
  {
    if p == [] then [] else StepName(t, p[0]) + Designators(Child(t, p[0]), p[1..])
  }

  /** The path does not stop at an anonymous member, so its spelling determines it. */
  predicate EndsNamed(t: DIType, p: Path)
    requires ValidPath(t, p)
    decreases p
  {
    p == [] || (if |p| == 1 then StepName(t, p[0]) != [] else EndsNamed(Child(t, p[0]), p[1..]))
  }

  function StepIndex(t: DIType, i: nat): TypedIndex
    requires HasChild(t, i)
  {
    var s := Strip(t);
    if s.Array? then TypedIndex(i, TypeNode(s.elem))
    else TypedIndex(MemberIndex(s, i), NodeOf(s.members[i]))
  }

  /** The index list of a path: every union member goes through index 0. */
  function TypedPath(t: DIType, p: Path): (r: seq<TypedIndex>)
    requires ValidPath(t, p)
    ensures |r| == |p|
    decreases p
  {
    if p == [] then [] else [StepIndex(t, p[0])] + TypedPath(Child(t, p[0]), p[1..])
  }

  /** How many steps the first name of a spelling covers. */
  function FirstNamed(t: DIType, p: Path): (n: nat)
    requires ValidPath(t, p) && EndsNamed(t, p) && p != []
    ensures 0 < n <= |p|
    decreases p
  {
    if StepName(t, p[0]) != [] then 1 else 1 + FirstNamed(Child(t, p[0]), p[1..])
  }

  lemma {:induction false} SpellingNonEmpty(t: DIType, p: Path)
    requires ValidPath(t, p) && EndsNamed(t, p) && p != []
    ensures Designators(t, p) != []
    decreases p
  {
    if StepName(t, p[0]) == [] { SpellingNonEmpty(Child(t, p[0]), p[1..]); }
  }

  lemma {:induction false} TypedPathsCompose(t: DIType, p: Path, q: Path)
    requires ValidPath(t, p) && ValidPath(TypeAt(t, p), q)
    ensures ValidPath(t, p + q)
    ensures TypedPath(t, p + q) == TypedPath(t, p) + TypedPath(TypeAt(t, p), q)
    ensures Designators(t, p + q) == Designators(t, p) + Designators(TypeAt(t, p), q)
    decreases p
  {
    hide OffsetOf, Child, HasChild, StepName, StepIndex;
    PathsCompose(t, p, q);
    if p == [] {
      assert p + q == q;
    } else {
      var c := Child(t, p[0]);
      assert (p + q)[1..] == p[1..] + q && (p + q)[0] == p[0];
      TypedPathsCompose(c, p[1..], q);
      Associates([StepIndex(t, p[0])], TypedPath(c, p[1..]), TypedPath(TypeAt(t, p), q));
      Associates(StepName(t, p[0]), Designators(c, p[1..]), Designators(TypeAt(t, p), q));
    }
  }

  lemma Associates<T>(a: seq<T>, b: seq<T>, c: seq<T>)
    ensures a + (b + c) == (a + b) + c
  {
  }

  lemma {:induction false} LastIndex(t: DIType, p: Path)
    requires WellFormed(t) && ValidPath(t, p) && p != []
    ensures BaseOf(TypedPath(t, p)[|p| - 1].node) == Strip(TypeAt(t, p))
    decreases p
  {
    if |p| > 1 {
      ChildWellFormed(t, p[0]);
      LastIndex(Child(t, p[0]), p[1..]);
    }
  }

  // ---- Names that are not there ----

  lemma {:induction false} AbsentName(t: DIType, name: string)
    requires WellFormed(t) && t.Record() && name !in Names(t)
    ensures MemberInfo(t, name) == Unresolved
    decreases t, 0
  {
    AbsentFrom(t, 0, name);
  }

  lemma {:induction false} AbsentFrom(t: DIType, i: nat, name: string)
    requires t.Record() && i <= |t.members|
    requires WellFormedFrom(t.members, i) && name !in NamesFrom(t.members, i)
    ensures MemberInfoFrom(t, i, name) == Unresolved
    decreases t.members, |t.members| - i
  {
    if i < |t.members| {
      var m := t.members[i];
      if m.name == "" { AbsentName(m.ty, name); }
      AbsentFrom(t, i + 1, name);
    }
  }

  /** Members before the one that holds `name` do not answer to it. */
  lemma {:induction false} SkipTo(t: DIType, j: nat, i: nat, name: string)
    requires t.Record() && j <= i < |t.members| && WellFormedFrom(t.members, j)
    requires name in MemberNames(t.members[i])
    ensures MemberInfoFrom(t, j, name) == MemberInfoFrom(t, i, name)
    decreases i - j
  {
    if j < i {
      var m := t.members[j];
      MemberNamesIncluded(t.members, j + 1, i);
      assert name !in MemberNames(m);
      if m.name == "" { AbsentName(m.ty, name); }
      SkipTo(t, j + 1, i, name);
    }
  }

  // ---- Resolving a spelling ----

  lemma {:induction false} FirstNameIsThere(t: DIType, p: Path)
    requires WellFormed(t) && t.Record() && ValidPath(t, p) && EndsNamed(t, p) && p != []
    ensures Designators(t, p) != [] && Designators(t, p)[0] in MemberNames(t.members[p[0]])
    decreases p
  {
    var m := t.members[p[0]];
    WellFormedMember(t.members, 0, p[0]);
    if m.name == "" {
      FirstNameIsThere(m.ty, p[1..]);
      MemberNamesIncluded(m.ty.members, 0, p[1]);
    }
  }

  /** The first name of the spelling resolves to the steps it covers; the other names
      spell the rest. */
  ghost predicate FirstResolves(t: DIType, p: Path)
    requires t.Composite() && ValidPath(t, p) && EndsNamed(t, p) && p != []
  {
    var n := FirstNamed(t, p);
    && ValidPath(t, p[..n])
    && Designators(t, p) != []
    && Designators(t, p) == [Designators(t, p)[0]] + Designators(t, p)[1..]
    && MemberInfo(t, Designators(t, p)[0]) == Resolved(TypedPath(t, p[..n]))
    && ValidPath(TypeAt(t, p[..n]), p[n..])
    && EndsNamed(TypeAt(t, p[..n]), p[n..])
    && Designators(t, p)[1..] == Designators(TypeAt(t, p[..n]), p[n..])
  }

  lemma {:induction false} FirstNameResolves(t: DIType, p: Path)
    requires WellFormed(t) && t.Composite() && ValidPath(t, p) && EndsNamed(t, p) && p != []
    ensures FirstResolves(t, p)
    decreases p
  {
    if t.Array? {
      IndexResolves(t, p);
    } else {
      FirstNameIsThere(t, p);
      SkipTo(t, 0, p[0], Designators(t, p)[0]);
      WellFormedMember(t.members, 0, p[0]);
      if t.members[p[0]].name == "" {
        FirstNameResolves(t.members[p[0]].ty, p[1..]);
        AnonymousResolves(t, p);
      } else {
        assert p[..1] == [p[0]];
      }
    }
  }

  lemma IndexResolves(t: DIType, p: Path)
    requires WellFormed(t) && t.Array? && ValidPath(t, p) && EndsNamed(t, p) && p != []
    ensures FirstResolves(t, p)
  {
    var front := p[..1];
    assert front == [p[0]] && front[1..] == [] && p == front + p[1..];
    StoiOfToString(p[0]);
  }

  /** A name inside an anonymous record is found through it. */
  lemma AnonymousResolves(t: DIType, p: Path)
    requires WellFormed(t) && t.Record() && ValidPath(t, p) && EndsNamed(t, p) && p != []
    requires t.members[p[0]].name == "" && t.members[p[0]].ty.Record()
    requires p[1..] != [] && FirstResolves(t.members[p[0]].ty, p[1..])
    requires Designators(t, p) != []
    requires MemberInfo(t, Designators(t, p)[0]) == MemberInfoFrom(t, p[0], Designators(t, p)[0])
    ensures FirstResolves(t, p)
  {
    hide WellFormed, ValidPath, EndsNamed, Designators, TypedPath, TypeAt, FirstNamed, MemberInfo, MemberInfoFrom,
         StepIndex, Child;
    FirstMember(t, p);
    AnonymousStep(t, p);
    var u, q := t.members[p[0]].ty, p[1..];
    var n := FirstNamed(u, q);
    PathsSplit(t, p, n + 1);
    ThroughAnonymous(t, p[0], Designators(u, q)[0], TypedPath(u, q[..n]));
  }

  lemma FirstMember(t: DIType, p: Path)
    requires t.Record() && ValidPath(t, p) && p != []
    ensures p[0] < |t.members|
  {
  }

  lemma AnonymousStep(t: DIType, p: Path)
    requires t.Record() && ValidPath(t, p) && EndsNamed(t, p) && p != [] && p[1..] != []
    requires t.members[p[0]].name == ""
    ensures p[0] < |t.members| && Child(t, p[0]) == t.members[p[0]].ty
    ensures ValidPath(Child(t, p[0]), p[1..]) && EndsNamed(Child(t, p[0]), p[1..])
    ensures Designators(t, p) == Designators(Child(t, p[0]), p[1..])
    ensures FirstNamed(t, p) == 1 + FirstNamed(Child(t, p[0]), p[1..])
  {
  }

  /** Cutting a path cuts the rest of it after the first step. */
  lemma PathsSplit(t: DIType, p: Path, n: nat)
    requires ValidPath(t, p) && p != [] && 0 < n <= |p|
    requires ValidPath(Child(t, p[0]), p[1..][..n - 1])
    ensures ValidPath(t, p[..n]) && p[n..] == p[1..][n - 1..]
    ensures TypeAt(t, p[..n]) == TypeAt(Child(t, p[0]), p[1..][..n - 1])
    ensures TypedPath(t, p[..n]) == [StepIndex(t, p[0])] + TypedPath(Child(t, p[0]), p[1..][..n - 1])
  {
    hide StepIndex, Child, HasChild;
    var front := p[..n];
    assert front[0] == p[0] && front[1..] == p[1..][..n - 1];
  }

  lemma ThroughAnonymous(t: DIType, i: nat, name: string, sub: seq<TypedIndex>)
    requires t.Record() && i < |t.members| && t.members[i].name == "" && t.members[i].ty.Record()
    requires MemberInfo(t.members[i].ty, name) == Resolved(sub)
    ensures HasChild(t, i) && MemberInfoFrom(t, i, name) == Resolved([StepIndex(t, i)] + sub)
  {
  }

  /** The direct resolver reads every spelling back to the index list of its path. */
  lemma {:induction false} SpellingResolves(t: DIType, p: Path)
    requires WellFormed(t) && t.Composite() && ValidPath(t, p) && EndsNamed(t, p)
    ensures Descend(Some(t), Designators(t, p)) == Resolved(TypedPath(t, p))
    decreases |p|
  {
    if p != [] {
      var n := FirstNamed(t, p);
      FirstNameResolves(t, p);
      var front, rest := p[..n], p[n..];
      assert p == front + rest;
      var u := TypeAt(t, front);
      TypeAtWellFormed(t, front);
      StripFacts(u);
      TypedPathsCompose(t, front, rest);
      LastIndex(t, front);
      if rest != [] {
        StripKeepsPaths(u, rest);
        assert Strip(u).Composite();
        SpellingResolves(Strip(u), rest);
      } else {
        assert Designators(u, rest) == [];
        assert TypedPath(u, rest) == [];
        assert TypedPath(t, front) + [] == TypedPath(t, front);
      }
    }
  }

  /** A typedef is transparent to paths and to their spelling. */
  lemma StripKeepsPaths(t: DIType, p: Path)
    requires ValidPath(t, p) && p != []
    ensures Strip(t).Composite() && Strip(Strip(t)) == Strip(t)
    ensures ValidPath(Strip(t), p)
    ensures TypeAt(Strip(t), p) == TypeAt(t, p) && OffsetOf(Strip(t), p) == OffsetOf(t, p)
    ensures Designators(Strip(t), p) == Designators(t, p)
    ensures TypedPath(Strip(t), p) == TypedPath(t, p)
    ensures EndsNamed(Strip(t), p) == EndsNamed(t, p)
  {
  }

  lemma {:induction false} NamesApart(ms: seq<Member>, k: nat, i: nat, j: nat)
    requires k <= i < j < |ms| && WellFormedFrom(ms, k)
    ensures MemberNames(ms[i]) !! MemberNames(ms[j])
    decreases i - k
  {
    if k < i { NamesApart(ms, k + 1, i, j); } else { MemberNamesIncluded(ms, i + 1, j); }
  }

  /** Paths with one spelling start with one step. */
  lemma SameFirstStep(t: DIType, p: Path, q: Path)
    requires WellFormed(t) && p != [] && q != []
    requires ValidPath(t, p) && EndsNamed(t, p) && ValidPath(t, q) && EndsNamed(t, q)
    requires Designators(t, p) == Designators(t, q)
    ensures p[0] == q[0]
  {
    var s, i, j := Strip(t), p[0], q[0];
    StripFacts(t);
    if s.Array? {
      assert Designators(t, p)[0] == ToString(i) && Designators(t, q)[0] == ToString(j);
      ToStringInjective(i, j);
    } else {
      StripKeepsPaths(t, p);
      StripKeepsPaths(t, q);
      FirstNameIsThere(s, p);
      FirstNameIsThere(s, q);
      if i < j { NamesApart(s.members, 0, i, j); }
      if j < i { NamesApart(s.members, 0, j, i); }
    }
  }

  lemma RestOfSpelling(t: DIType, p: Path)
    requires ValidPath(t, p) && EndsNamed(t, p) && p != []
    ensures HasChild(t, p[0]) && ValidPath(Child(t, p[0]), p[1..]) && EndsNamed(Child(t, p[0]), p[1..])
    ensures Designators(Child(t, p[0]), p[1..]) == Designators(t, p)[|StepName(t, p[0])|..]
    ensures p == [p[0]] + p[1..]
  {
  }

  /** Two paths with one spelling are one path. */
  lemma {:induction false} SpellingInjective(t: DIType, p: Path, q: Path)
    requires WellFormed(t)
    requires ValidPath(t, p) && EndsNamed(t, p) && ValidPath(t, q) && EndsNamed(t, q)
    requires Designators(t, p) == Designators(t, q)
    ensures p == q
    decreases p
  {
    if p == [] || q == [] {
      if q != [] { SpellingNonEmpty(t, q); }
      if p != [] { SpellingNonEmpty(t, p); }
    } else {
      hide WellFormed, EndsNamed, ValidPath, Designators, Child, HasChild, StepName;
      SameFirstStep(t, p, q);
      RestOfSpelling(t, p);
      RestOfSpelling(t, q);
      ChildWellFormed(t, p[0]);
      SpellingInjective(Child(t, p[0]), p[1..], q[1..]);
    }
  }

  // ---- Index lists and recorded sizes ----

  function GepOf(t: DIType, p: Path): seq<nat>
    requires ValidPath(t, p)
  {
    Indices(TypedPath(t, p))
  }

  lemma GepOneMore(t: DIType, p: Path)
    requires ValidPath(t, p) && p != []
    ensures GepOf(t, p) == [StepIndex(t, p[0]).index] + GepOf(Child(t, p[0]), p[1..])
  {
  }

  /** The path stops at a whole record inside an array. */
  predicate StopsAtElementRecord(t: DIType, p: Path)
    requires ValidPath(t, p)
    decreases p
  {
    p != [] &&
    if |p| == 1 then Strip(t).Array? && Strip(t).elem.Composite()
    else StopsAtElementRecord(Child(t, p[0]), p[1..])
  }

  /** The path stops at an element of an array whose element type is a typedef: the node
      found is the typedef, and records no size. */
  predicate EndsAtTypedefElement(t: DIType, p: Path)
    requires ValidPath(t, p)
    decreases p
  {
    p != [] &&
    if |p| == 1 then Strip(t).Array? && Strip(t).elem.Typedef?
    else EndsAtTypedefElement(Child(t, p[0]), p[1..])
  }

  /** The size the resolver reports for a path, in bytes. */
  function RecordedSize(t: DIType, p: Path): nat
    requires ValidPath(t, p)
  {
    if EndsAtTypedefElement(t, p) then 0 else Size(TypeAt(t, p))
  }

  lemma {:induction false} SizeRecorded(t: DIType, p: Path)
    requires WellFormed(t) && ValidPath(t, p) && p != [] && EndsNamed(t, p)
    ensures FieldBits(TypedPath(t, p)[|p| - 1].node) ==
            if StopsAtElementRecord(t, p) then None else Some(8 * RecordedSize(t, p))
    decreases p
  {
    var u := Child(t, p[0]);
    ChildWellFormed(t, p[0]);
    StripFacts(t);
    if |p| == 1 {
      assert TypeAt(t, p) == u;
    } else {
      SizeRecorded(u, p[1..]);
    }
  }

  lemma SpellingInfo(t: DIType, p: Path)
    requires t.Struct? && WellFormed(t) && ValidPath(t, p) && p != [] && EndsNamed(t, p)
    ensures var last := TypedPath(t, p)[|p| - 1].node;
            DirectInfo(t, Designators(t, p)) ==
            match FieldBits(last)
            case None => Aborted
            case Some(bits) => Info(FieldInfo(TypeName(BaseOf(last)), bits, bits / 8, [0] + GepOf(t, p)))
  {
    SpellingResolves(t, p);
  }
}
