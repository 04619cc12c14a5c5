// The two resolvers compared: on every spelling of a path that ends at a scalar, a
// pointer or an array of scalars they give the same answer, unless the search meets an
// array element without a recorded size first; and what the search does on all names.
module Agreement {
  import opened Common
  import opened Decimal
  import opened DebugTypes
  import opened TypePaths
  import opened Resolver
  import opened Spelling
  import opened Search

  predicate ScalarLeaf(t: DIType) {
    var s := Strip(t);
    s.Basic? || s.Pointer? || (s.Array? && Strip(s.elem).Basic?)
  }

  function LeafHit(t: DIType, p: Path): Hit
    requires ValidPath(t, p)
  {
    Hit(TypeName(Strip(TypeAt(t, p))), Size(TypeAt(t, p)), GepOf(t, p))
  }

  /** On its way to the end of `p` the search meets no array element without a recorded
      size: not in the members it visits before those on the path, not in the elements of
      arrays on the path, which it searches without an index first. */
  predicate ClearTo(t: DIType, p: Path)
    requires ValidPath(t, p)
    decreases p
  {
    var s := Strip(t);
    if p == [] then s.Array? ==> RecordedBits(s.elem) > 0
    else if s.Array? then RecordedBits(s.elem) > 0 && SearchDefined(s.elem)
    else (forall j | 0 <= j < p[0] :: SearchDefined(s.members[j].ty)) && ClearTo(Child(t, p[0]), p[1..])
  }

  lemma {:induction false} StripSearchDefined(t: DIType)
    ensures SearchDefined(Strip(t)) <==> SearchDefined(t)
  {
    if t.Typedef? { StripSearchDefined(t.base); }
  }

  lemma {:induction false} DefinedIsClear(t: DIType, p: Path)
    requires SearchDefined(t) && ValidPath(t, p)
    ensures ClearTo(t, p)
    decreases p
  {
    StripSearchDefined(t);
    var s := Strip(t);
    if p != [] && s.Record() {
      forall j | 0 <= j < |s.members| ensures SearchDefined(s.members[j].ty) {
        assert s.members[j] in s.members;
      }
      DefinedIsClear(Child(t, p[0]), p[1..]);
    }
  }

  // ---- Nothing is found under a name that is not there ----

  predicate DefinedFrom(ms: seq<Member>, i: nat) {
    forall j | i <= j < |ms| :: SearchDefined(ms[j].ty)
  }

  lemma DefinedMembers(t: DIType)
    requires t.Record()
    ensures SearchDefined(t) <==> DefinedFrom(t.members, 0)
  {
    assert forall m | m in t.members :: exists j | 0 <= j < |t.members| :: t.members[j] == m;
    assert forall j | 0 <= j < |t.members| :: t.members[j] in t.members;
  }

  lemma {:induction false} DfsAbsent(t: DIType, rest: seq<string>)
    requires WellFormed(t) && !Strip(t).Array?
    requires rest != [] && rest[0] !in Names(Strip(t))
    ensures Dfs(t, rest) == Explored(t)
    decreases t, 0
  {
    if t.Typedef? { DfsAbsent(t.base, rest); }
    if t.Record() {
      DfsAbsentMembers(t, 0, rest);
      DefinedMembers(t);
    }
  }

  lemma {:induction false} DfsAbsentMembers(t: DIType, i: nat, rest: seq<string>)
    requires t.Record() && i <= |t.members| && WellFormedFrom(t.members, i)
    requires rest != [] && rest[0] !in NamesFrom(t.members, i)
    ensures DfsMembers(t, i, rest) == if DefinedFrom(t.members, i) then Missing else Crashed
    decreases t.members, |t.members| - i
  {
    if i < |t.members| {
      var m := t.members[i];
      if m.name == "" { DfsAbsent(m.ty, rest); }
      DfsAbsentMembers(t, i + 1, rest);
      assert DefinedFrom(t.members, i) <==> SearchDefined(m.ty) && DefinedFrom(t.members, i + 1);
    }
  }

  /** A path that stops at a record is not found: the search only stops at leaves. */
  lemma {:induction false} DfsNoRecord(t: DIType)
    requires WellFormed(t) && Strip(t).Record()
    ensures !Dfs(t, []).Found?
    decreases t, 0
  {
    if t.Typedef? { DfsNoRecord(t.base); } else { DfsNoRecordMembers(t, 0); }
  }

  lemma {:induction false} DfsNoRecordMembers(t: DIType, i: nat)
    requires t.Record() && i <= |t.members| && WellFormedFrom(t.members, i)
    ensures !DfsMembers(t, i, []).Found?
    decreases t.members, |t.members| - i
  {
    if i < |t.members| {
      if t.members[i].name == "" { DfsNoRecord(t.members[i].ty); }
      DfsNoRecordMembers(t, i + 1);
    }
  }

  lemma DigitsAreNoNames(t: DIType, i: nat)
    requires WellFormed(t)
    ensures ToString(i) !in Names(t)
  {
    var s := ToString(i);
    assert IsDigit(s[0]);
    if s in Names(t) { NamesAreIdentifiers(t, s); }
  }

  // ---- Every spelled leaf is found, or the search crashes on the way ----

  lemma {:induction false} SkipMembers(t: DIType, j: nat, i: nat, rest: seq<string>)
    requires t.Record() && j <= i < |t.members| && WellFormedFrom(t.members, j)
    requires rest != [] && rest[0] in MemberNames(t.members[i])
    ensures DfsMembers(t, j, rest) ==
            if forall k | j <= k < i :: SearchDefined(t.members[k].ty) then DfsMembers(t, i, rest) else Crashed
    decreases i - j
  {
    if j < i {
      var m := t.members[j];
      MemberNamesIncluded(t.members, j + 1, i);
      if m.name == "" { DfsAbsent(m.ty, rest); }
      SkipMembers(t, j + 1, i, rest);
    }
  }

  lemma {:induction false} SkipElements(t: DIType, j: nat, i: nat, rest: seq<string>)
    requires t.Array? && j <= i < t.count && SearchDefined(t.elem)
    requires rest != [] && rest[0] == ToString(i)
    ensures DfsElements(t, j, rest) == DfsElements(t, i, rest)
    decreases i - j
  {
    if j < i {
      if ToString(j) == ToString(i) { ToStringInjective(j, i); }
      SkipElements(t, j + 1, i, rest);
    }
  }

  lemma {:induction false} LeafFound(t: DIType)
    requires WellFormed(t) && ScalarLeaf(t)
    ensures Dfs(t, []) == if ClearTo(t, []) then Found(Hit(TypeName(Strip(t)), Size(t), [])) else Crashed
    decreases t
  {
    match t
    case Basic(_, _, _) =>
    case Pointer(_, _) =>
    case Typedef(b) => LeafFound(b);
    case Array(e, _) =>
      if RecordedBits(e) > 0 { LeafFound(e); }
  }

  /** What the search makes of the spelling of a leaf path. */
  lemma {:induction false} DfsFinds(t: DIType, p: Path)
    requires WellFormed(t) && ValidPath(t, p) && EndsNamed(t, p) && ScalarLeaf(TypeAt(t, p))
    ensures Dfs(t, Designators(t, p)) == if ClearTo(t, p) then Found(LeafHit(t, p)) else Crashed
    decreases |p|, t
  {
    if p == [] {
      LeafFound(t);
    } else if t.Typedef? {
      DfsFinds(t.base, p);
    } else {
      var u := Child(t, p[0]);
      ChildWellFormed(t, p[0]);
      SpellingNonEmpty(t, p);
      DfsFinds(u, p[1..]);
      GepOneMore(t, p);
      if t.Array? { ElementStep(t, p); } else { MemberStep(t, p); }
    }
  }

  lemma ElementStep(t: DIType, p: Path)
    requires t.Array? && WellFormed(t) && ValidPath(t, p) && p != []
    requires ClearTo(t.elem, p[1..]) ==> Dfs(t.elem, Designators(t.elem, p[1..])).Found?
    ensures Dfs(t, Designators(t, p)) ==
            if ClearTo(t, p) then Below(t, p[0], Dfs(t.elem, Designators(t.elem, p[1..]))) else Crashed
    ensures ClearTo(t, p) ==> ClearTo(t.elem, p[1..])
  {
    var i, rest := p[0], Designators(t, p);
    assert rest[0] == ToString(i) && rest[1..] == Designators(t.elem, p[1..]);
    StripFacts(t.elem);
    DigitsAreNoNames(Strip(t.elem), i);
    DfsAbsent(t.elem, rest);
    if ClearTo(t, p) {
      DefinedIsClear(t.elem, p[1..]);
      SkipElements(t, 0, i, rest);
    }
  }

  lemma MemberStep(t: DIType, p: Path)
    requires t.Record() && WellFormed(t) && ValidPath(t, p) && EndsNamed(t, p) && p != []
    requires var r := Dfs(Child(t, p[0]), Designators(Child(t, p[0]), p[1..]));
             if ClearTo(Child(t, p[0]), p[1..]) then r.Found? else r.Crashed?
    ensures Dfs(t, Designators(t, p)) ==
            if ClearTo(t, p) then Below(t, p[0], Dfs(Child(t, p[0]), Designators(Child(t, p[0]), p[1..]))) else Crashed
  {
    var i, rest := p[0], Designators(t, p);
    FirstNameIsThere(t, p);
    SkipMembers(t, 0, i, rest);
    assert StepName(t, i) == [] ==> rest == Designators(Child(t, i), p[1..]);
    assert StepName(t, i) != [] ==> rest[1..] == Designators(Child(t, i), p[1..]);
  }

  // ---- The agreement ----

  lemma {:induction false} ClearRecordsSize(t: DIType, p: Path)
    requires ValidPath(t, p) && ClearTo(t, p)
    ensures !EndsAtTypedefElement(t, p)
    decreases p
  {
    if |p| > 1 {
      if Strip(t).Array? { DefinedIsClear(Child(t, p[0]), p[1..]); }
      ClearRecordsSize(Child(t, p[0]), p[1..]);
    }
  }

  /** On the spelling of a leaf path the search crashes exactly if it meets an element
      without a recorded size on its way. Otherwise both resolvers return the same type
      name, size and index list. The direct one always answers; at an element of an array
      of a typedef it answers with size 0, and there the search crashes. */
  lemma ResolversAgree(t: DIType, p: Path)
    requires t.Struct? && WellFormed(t)
    requires ValidPath(t, p) && p != [] && EndsNamed(t, p) && ScalarLeaf(TypeAt(t, p))
    ensures Dfs(t, Designators(t, p)) == if ClearTo(t, p) then Found(LeafHit(t, p)) else Crashed
    ensures var h := LeafHit(t, p);
            DirectInfo(t, Designators(t, p)) ==
            Info(FieldInfo(h.basicType, 8 * RecordedSize(t, p), RecordedSize(t, p), [0] + h.gep))
    ensures ClearTo(t, p) ==> RecordedSize(t, p) == LeafHit(t, p).bytes
    ensures EndsAtTypedefElement(t, p) ==> !ClearTo(t, p)
  {
    DfsFinds(t, p);
    SpellingInfo(t, p);
    LastIndex(t, p);
    SizeRecorded(t, p);
    NoRecordIsLeaf(t, p);
    if ClearTo(t, p) { ClearRecordsSize(t, p); }
  }

  lemma {:induction false} NoRecordIsLeaf(t: DIType, p: Path)
    requires WellFormed(t) && ValidPath(t, p) && p != [] && ScalarLeaf(TypeAt(t, p))
    ensures !StopsAtElementRecord(t, p)
    decreases p
  {
    ChildWellFormed(t, p[0]);
    StripFacts(t);
    if |p| > 1 { NoRecordIsLeaf(Child(t, p[0]), p[1..]); } else { assert TypeAt(t, p) == Child(t, p[0]); }
  }

  /** An array of a typedef in front of the wanted field is enough to crash the search;
      the direct resolver finds the field. */
  lemma SearchCrashes(r: Member, n: Member, t: DIType)
    requires r == Member("r", Array(Typedef(Basic("unsigned char", 1, 1)), 2)) && n == Member("n", Basic("int", 4, 4))
    requires t == Struct([r, n])
    ensures WellFormed(t) && Dfs(t, ["n"]) == Crashed
    ensures DirectInfo(t, ["n"]) == Info(FieldInfo("int", 32, 4, [0, 1]))
    ensures Dfs(Struct([n, r]), ["n"]) == Found(Hit("int", 4, [0]))
  {
    hide Dfs;
    var ms := [r, n];
    NamedPair(ms);
    CrashedBefore(r, n);
    FoundBefore(r, n);
    var p := [1];
    assert p[1..] == [] && Designators(t, p) == ["n"] && GepOf(n.ty, []) == [];
    GepOneMore(t, p);
    hide WellFormed, Dfs, Designators, GepOf, StepIndex, OffsetOf, ClearTo;
    ResolversAgree(t, p);
  }

  lemma CrashedBefore(r: Member, n: Member)
    requires r == Member("r", Array(Typedef(Basic("unsigned char", 1, 1)), 2))
    ensures Dfs(Struct([r, n]), ["n"]) == Crashed
  {
    assert DfsMember(Struct([r, n]), 0, ["n"]) == Explored(r.ty) == Crashed;
  }

  lemma FoundBefore(r: Member, n: Member)
    requires n == Member("n", Basic("int", 4, 4))
    ensures Dfs(Struct([n, r]), ["n"]) == Found(Hit("int", 4, [0]))
  {
    var u := Struct([n, r]);
    assert ["n"][1..] == [];
    assert DfsMember(u, 0, ["n"]) == Below(u, 0, Dfs(n.ty, []));
  }

  // ---- What the search does on all names ----

  /** A path as the search takes it: `None` is an array entered without an index. */
  type LoosePath = seq<Option<nat>>

  predicate ValidLoose(t: DIType, l: LoosePath)
    decreases l
  {
    l == [] ||
    match l[0]
    case None => Strip(t).Array? && ValidLoose(Strip(t).elem, l[1..])
    case Some(i) => HasChild(t, i) && ValidLoose(Child(t, i), l[1..])
  }

  function LooseType(t: DIType, l: LoosePath): DIType
    requires ValidLoose(t, l)
    decreases l
  {
    if l == [] then t else
    match l[0]
    case None => LooseType(Strip(t).elem, l[1..])
    case Some(i) => LooseType(Child(t, i), l[1..])
  }

  /** An array entered without an index leaves no trace in the names, nor in the index
      list. */
  function LooseNames(t: DIType, l: LoosePath): seq<string>
    requires ValidLoose(t, l)
    decreases l
  {
    if l == [] then [] else
    match l[0]
    case None => LooseNames(Strip(t).elem, l[1..])
    case Some(i) => StepName(t, i) + LooseNames(Child(t, i), l[1..])
  }

  function LooseGep(t: DIType, l: LoosePath): seq<nat>
    requires ValidLoose(t, l)
    decreases l
  {
    if l == [] then [] else
    match l[0]
    case None => LooseGep(Strip(t).elem, l[1..])
    case Some(i) => [StepIndex(t, i).index] + LooseGep(Child(t, i), l[1..])
  }

  predicate Reads(t: DIType, l: LoosePath, needle: seq<string>) {
    && ValidLoose(t, l) && LooseNames(t, l) == needle
    && (Strip(LooseType(t, l)).Basic? || Strip(LooseType(t, l)).Pointer?)
  }

  lemma {:induction false} ReadsStripped(t: DIType, l: LoosePath, needle: seq<string>)
    requires t.Typedef?
    ensures Reads(t, l, needle) <==> Reads(t.base, l, needle)
    ensures Reads(t, l, needle) ==> LooseGep(t, l) == LooseGep(t.base, l)
  {
  }

  /** What is found along a loose path; an array entered without an index counts in full
      if the names end there. */
  function LooseHit(t: DIType, l: LoosePath): Hit
    requires ValidLoose(t, l)
    decreases l
  {
    if l == [] then Hit(TypeName(Strip(t)), Size(t), []) else
    match l[0]
    case None =>
      var e := Strip(t).elem;
      var h := LooseHit(e, l[1..]);
      if LooseNames(e, l[1..]) == [] then h.(bytes := h.bytes * Strip(t).count) else h
    case Some(i) =>
      var h := LooseHit(Child(t, i), l[1..]);
      h.(gep := [StepIndex(t, i).index] + h.gep)
  }

  /** The search tries `l` before `m`: members and elements in order, an array first
      without an index. */
  predicate Before(l: LoosePath, m: LoosePath)
    decreases l
  {
    && l != [] && m != []
    && if l[0] == m[0] then Before(l[1..], m[1..])
       else m[0].Some? && (l[0].None? || l[0].value < m[0].value)
  }

  /** Of the loose paths with these names, `l` is the one the search tries first. */
  ghost predicate First(t: DIType, l: LoosePath, needle: seq<string>) {
    Reads(t, l, needle) && forall m | Reads(t, m, needle) :: m == l || Before(l, m)
  }

  /** On the way to the end of `l`, when nothing before it is found, the search meets no
      array element without a recorded size. */
  predicate LooseClear(t: DIType, l: LoosePath)
    requires ValidLoose(t, l)
    decreases l
  {
    var s := Strip(t);
    l == [] ||
    match l[0]
    case None => RecordedBits(s.elem) > 0 && LooseClear(s.elem, l[1..])
    case Some(i) =>
      if s.Array? then RecordedBits(s.elem) > 0 && SearchDefined(s.elem)
      else (forall j | 0 <= j < i :: SearchDefined(s.members[j].ty)) && LooseClear(Child(t, i), l[1..])
  }

  /** The search on any names of any type. It goes for the first loose path with those
      names to a scalar or pointer: it finds it, or crashes on an array element without a
      recorded size that it meets before. If there is none, it goes through the whole type. */
  lemma SearchExact(t: DIType, needle: seq<string>)
    ensures forall l | First(t, l, needle) ::
              Dfs(t, needle) == if LooseClear(t, l) then Found(LooseHit(t, l)) else Crashed
    ensures (exists l :: First(t, l, needle)) <==> exists l :: Reads(t, l, needle)
    ensures !(exists l :: Reads(t, l, needle)) ==> Dfs(t, needle) == Explored(t)
  {
    forall l | First(t, l, needle)
      ensures Dfs(t, needle) == if LooseClear(t, l) then Found(LooseHit(t, l)) else Crashed
    {
      FirstFound(t, l, needle);
    }
    if exists l :: Reads(t, l, needle) {
      var l :| Reads(t, l, needle);
      var f := HasFirst(t, l, needle);
      assert First(t, f, needle);
    } else {
      NotFoundExplored(t, needle);
      if Dfs(t, needle).Found? { var l := FoundReads(t, needle); }
    }
  }

  // ---- There is a first loose path ----

  /** Loose paths of a part, seen from the whole. */
  lemma ReadsBelow(t: DIType, x: Option<nat>, l: LoosePath, needle: seq<string>)
    requires !t.Typedef?
    ensures Reads(t, [x] + l, needle) <==>
            match x
            case None => t.Array? && Reads(t.elem, l, needle)
            case Some(i) =>
              && HasChild(t, i) && StepName(t, i) <= needle
              && Reads(Child(t, i), l, needle[|StepName(t, i)|..])
  {
    assert ([x] + l)[1..] == l;
  }

  lemma LeafReads(t: DIType, l: LoosePath, needle: seq<string>)
    requires !t.Typedef?
    ensures t.Basic? || t.Pointer? ==> (Reads(t, l, needle) <==> l == [] && needle == [])
    ensures t.Composite() && Reads(t, l, needle) ==> l != [] && l == [l[0]] + l[1..]
  {
  }

  lemma BeforeBelow(x: Option<nat>, l: LoosePath, m: LoosePath)
    ensures Before([x] + l, [x] + m) <==> Before(l, m)
  {
    assert ([x] + l)[1..] == l && ([x] + m)[1..] == m;
  }

  lemma {:induction false} HasFirst(t: DIType, l: LoosePath, needle: seq<string>) returns (f: LoosePath)
    requires Reads(t, l, needle)
    ensures First(t, f, needle)
    decreases t, 1, 0
  {
    hide Reads, ValidLoose, Before;
    if t.Typedef? {
      ReadsStripped(t, l, needle);
      f := HasFirst(t.base, l, needle);
      FirstStripped(t, f, needle);
    } else if t.Basic? || t.Pointer? {
      f := [];
      forall m ensures Reads(t, m, needle) <==> m == [] && needle == [] { LeafReads(t, m, needle); }
    } else if exists k :: Reads(t, [None] + k, needle) {
      var k :| Reads(t, [None] + k, needle);
      ReadsBelow(t, None, k, needle);
      f := HasFirst(t.elem, k, needle);
      ReadsBelow(t, None, f, needle);
      FirstAbove(t, None, f, needle, needle);
      f := [None] + f;
    } else {
      LeafReads(t, l, needle);
      f := HasFirstFrom(t, 0, l, needle);
    }
  }

  /** The first of the paths that start with an index. */
  lemma {:induction false} HasFirstFrom(t: DIType, j: nat, l: LoosePath, needle: seq<string>) returns (f: LoosePath)
    requires t.Composite() && Reads(t, l, needle) && !(exists k :: Reads(t, [None] + k, needle))
    requires forall i: nat, k | i < j :: !Reads(t, [Some(i)] + k, needle)
    ensures First(t, f, needle)
    decreases t, 0, if l == [] || l[0].None? || l[0].value < j then 0 else l[0].value - j
  {
    hide Reads, ValidLoose, Before;
    LeafReads(t, l, needle);
    assert l[0].Some? && j <= l[0].value;
    if exists k :: Reads(t, [Some(j)] + k, needle) {
      var k :| Reads(t, [Some(j)] + k, needle);
      ReadsBelow(t, Some(j), k, needle);
      var rest := needle[|StepName(t, j)|..];
      f := HasFirst(Child(t, j), k, rest);
      ReadsBelow(t, Some(j), f, needle);
      FirstAbove(t, Some(j), f, needle, rest);
      f := [Some(j)] + f;
    } else {
      f := HasFirstFrom(t, j + 1, l, needle);
    }
  }

  lemma FirstStripped(t: DIType, l: LoosePath, needle: seq<string>)
    requires t.Typedef?
    ensures First(t, l, needle) <==> First(t.base, l, needle)
  {
    hide Reads, Before;
    forall m ensures Reads(t, m, needle) <==> Reads(t.base, m, needle) { ReadsStripped(t, m, needle); }
  }

  /** The first path of the first part that has one is the first of the whole. */
  lemma FirstAbove(t: DIType, x: Option<nat>, f: LoosePath, needle: seq<string>, rest: seq<string>)
    requires t.Composite() && Reads(t, [x] + f, needle)
    requires if x.None? then t.Array? && rest == needle && First(t.elem, f, rest)
             else HasChild(t, x.value) && StepName(t, x.value) <= needle &&
                  rest == needle[|StepName(t, x.value)|..] && First(Child(t, x.value), f, rest)
    requires x.Some? ==> !exists k :: Reads(t, [None] + k, needle)
    requires x.Some? ==> forall i: nat, k | i < x.value :: !Reads(t, [Some(i)] + k, needle)
    ensures First(t, [x] + f, needle)
  {
    hide Reads, Before;
    forall m | Reads(t, m, needle)
      ensures m == [x] + f || Before([x] + f, m)
    {
      LeafReads(t, m, needle);
      if m[0] == x {
        ReadsBelow(t, x, m[1..], needle);
        BeforeBelow(x, f, m[1..]);
      } else {
        BeforeAt([x] + f, m);
      }
    }
  }

  lemma BeforeAt(l: LoosePath, m: LoosePath)
    requires l != [] && m != [] && l[0] != m[0]
    ensures Before(l, m) <==> m[0].Some? && (l[0].None? || l[0].value < m[0].value)
  {
  }

  /** The rest of the first path is the first of the part it starts with. */
  lemma FirstBelow(t: DIType, l: LoosePath, needle: seq<string>)
    requires t.Composite() && First(t, l, needle)
    ensures l != []
    ensures l[0].None? ==> t.Array? && First(t.elem, l[1..], needle)
    ensures l[0].Some? ==> var i := l[0].value;
              && HasChild(t, i) && StepName(t, i) <= needle
              && First(Child(t, i), l[1..], needle[|StepName(t, i)|..])
    ensures l[0].Some? ==> !exists k :: Reads(t, [None] + k, needle)
    ensures l[0].Some? ==> forall i: nat, k | i < l[0].value :: !Reads(t, [Some(i)] + k, needle)
  {
    hide Reads, Before;
    LeafReads(t, l, needle);
    var x, rest := l[0], l[1..];
    ReadsBelow(t, x, rest, needle);
    forall k | Reads(t, [x] + k, needle)
      ensures k == rest || Before(rest, k)
    {
      BeforeBelow(x, rest, k);
      assert ([x] + k)[1..] == k;
    }
    forall k ensures Reads(t, [x] + k, needle) <==>
                     match x
                     case None => t.Array? && Reads(t.elem, k, needle)
                     case Some(i) => HasChild(t, i) && StepName(t, i) <= needle &&
                                     Reads(Child(t, i), k, needle[|StepName(t, i)|..])
    {
      ReadsBelow(t, x, k, needle);
    }
    forall y: Option<nat>, k | x.Some? && (y.None? || y.value < x.value)
      ensures !Reads(t, [y] + k, needle)
    {
      if Reads(t, [y] + k, needle) { BeforeAt(l, [y] + k); }
    }
  }

  // ---- And the search goes for it ----

  lemma {:induction false} DefinedIsLooseClear(t: DIType, l: LoosePath)
    requires SearchDefined(t) && ValidLoose(t, l)
    ensures LooseClear(t, l)
    decreases l
  {
    StripSearchDefined(t);
    if l != [] {
      var s := Strip(t);
      if s.Record() {
        forall j | 0 <= j < |s.members| ensures SearchDefined(s.members[j].ty) { assert s.members[j] in s.members; }
        DefinedIsLooseClear(Child(t, l[0].value), l[1..]);
      } else if l[0].None? {
        DefinedIsLooseClear(s.elem, l[1..]);
      }
    }
  }

  lemma {:induction false} FirstFound(t: DIType, l: LoosePath, needle: seq<string>)
    requires First(t, l, needle)
    ensures ValidLoose(t, l)
    ensures Dfs(t, needle) == if LooseClear(t, l) then Found(LooseHit(t, l)) else Crashed
    decreases t
  {
    match t
    case Typedef(b) =>
      FirstStripped(t, l, needle);
      FirstFound(b, l, needle);
    case Basic(_, _, _) => LeafReads(t, l, needle);
    case Pointer(_, _) => LeafReads(t, l, needle);
    case Struct(_) => FirstMemberFound(t, l, needle);
    case Union(_) => FirstMemberFound(t, l, needle);
    case Array(_, _) => FirstElementFound(t, l, needle);
  }

  lemma {:induction false} FirstMemberFound(t: DIType, l: LoosePath, needle: seq<string>)
    requires t.Record() && First(t, l, needle)
    ensures ValidLoose(t, l)
    ensures Dfs(t, needle) == if LooseClear(t, l) then Found(LooseHit(t, l)) else Crashed
    decreases t, 0
  {
    FirstBelow(t, l, needle);
    var i := l[0].value;
    var u, rest := Child(t, i), needle[|StepName(t, i)|..];
    FirstFound(u, l[1..], rest);
    assert DfsMember(t, i, needle) == Below(t, i, Dfs(u, rest));
    hide Dfs, Explored, First, Reads;
    NothingBefore(t, 0, i, needle);
  }

  /** Members before the one with the first path are searched to the end. */
  lemma {:induction false} NothingBefore(t: DIType, j: nat, i: nat, needle: seq<string>)
    requires t.Record() && j <= i < |t.members|
    requires forall k: nat, l | k < i :: !Reads(t, [Some(k)] + l, needle)
    ensures DfsMembers(t, j, needle) ==
            if forall k | j <= k < i :: SearchDefined(t.members[k].ty) then DfsMembers(t, i, needle) else Crashed
    decreases i - j
  {
    hide Reads, Dfs;
    if j < i {
      MemberNotFound(t, j, needle);
      NothingBefore(t, j + 1, i, needle);
    }
  }

  lemma MemberNotFound(t: DIType, j: nat, needle: seq<string>)
    requires t.Record() && j < |t.members| && forall l :: !Reads(t, [Some(j)] + l, needle)
    ensures DfsMember(t, j, needle) == Explored(t.members[j].ty)
  {
    hide Reads, Dfs, SearchDefined;
    var u, name := t.members[j].ty, StepName(t, j);
    assert DfsMember(t, j, needle) == if name <= needle then Below(t, j, Dfs(u, needle[|name|..])) else Explored(u);
    if name <= needle {
      NotFoundExplored(u, needle[|name|..]);
      if Dfs(u, needle[|name|..]).Found? {
        var l := FoundReads(u, needle[|name|..]);
        ReadsBelow(t, Some(j), l, needle);
      }
    }
  }

  lemma {:induction false} FirstElementFound(t: DIType, l: LoosePath, needle: seq<string>)
    requires t.Array? && First(t, l, needle)
    ensures ValidLoose(t, l)
    ensures Dfs(t, needle) == if LooseClear(t, l) then Found(LooseHit(t, l)) else Crashed
    decreases t, 0
  {
    var e := t.elem;
    FirstBelow(t, l, needle);
    match l[0]
    case None => FirstFound(e, l[1..], needle);
    case Some(i) =>
      var rest := needle[1..];
      assert needle[|StepName(t, i)|..] == rest && needle[0] == ToString(i);
      FirstFound(e, l[1..], rest);
      if RecordedBits(e) > 0 {
        NotFoundExplored(e, needle);
        if Dfs(e, needle).Found? {
          var k := FoundReads(e, needle);
          ReadsBelow(t, None, k, needle);
        }
        if SearchDefined(e) {
          DefinedIsLooseClear(e, l[1..]);
          SkipElements(t, 0, i, needle);
        }
      }
  }

  /** A search that finds nothing ends as exploring the type does. */
  lemma {:induction false} NotFoundExplored(t: DIType, needle: seq<string>)
    ensures Dfs(t, needle).Found? || Dfs(t, needle) == Explored(t)
    decreases t, 0
  {
    match t
    case Typedef(b) => NotFoundExplored(b, needle);
    case Struct(_) => NotFoundMembers(t, 0, needle); DefinedMembers(t);
    case Union(_) => NotFoundMembers(t, 0, needle); DefinedMembers(t);
    case Array(e, _) =>
      NotFoundExplored(e, needle);
      if Dfs(e, needle).Missing? { NotFoundElements(t, 0, needle); }
    case _ =>
  }

  lemma {:induction false} NotFoundMembers(t: DIType, i: nat, needle: seq<string>)
    requires t.Record() && i <= |t.members|
    ensures var r := DfsMembers(t, i, needle);
            r.Found? || r == if DefinedFrom(t.members, i) then Missing else Crashed
    decreases t.members, |t.members| - i
  {
    if i < |t.members| {
      var m := t.members[i];
      NotFoundExplored(m.ty, needle);
      if needle != [] { NotFoundExplored(m.ty, needle[1..]); }
      NotFoundMembers(t, i + 1, needle);
      assert DefinedFrom(t.members, i) <==> SearchDefined(m.ty) && DefinedFrom(t.members, i + 1);
    }
  }

  lemma {:induction false} NotFoundElements(t: DIType, i: nat, needle: seq<string>)
    requires t.Array? && i <= t.count && SearchDefined(t.elem)
    ensures !DfsElements(t, i, needle).Crashed?
    decreases t.elem, t.count - i
  {
    if i < t.count {
      if needle != [] { NotFoundExplored(t.elem, needle[1..]); }
      NotFoundElements(t, i + 1, needle);
    }
  }

  lemma {:induction false} FoundReads(t: DIType, needle: seq<string>) returns (l: LoosePath)
    requires Dfs(t, needle).Found?
    ensures Reads(t, l, needle) && Dfs(t, needle).hit.gep == LooseGep(t, l)
    decreases t, 0
  {
    match t
    case Basic(_, _, _) => l := [];
    case Pointer(_, _) => l := [];
    case Typedef(b) =>
      l := FoundReads(b, needle);
      ReadsStripped(t, l, needle);
    case Struct(_) => l := FoundInMembers(t, 0, needle);
    case Union(_) => l := FoundInMembers(t, 0, needle);
    case Array(e, _) =>
      if Dfs(e, needle).Found? {
        var k := FoundReads(e, needle);
        l := [None] + k;
        assert l[1..] == k;
      } else {
        l := FoundInElements(t, 0, needle);
      }
  }

  lemma {:induction false} FoundInMembers(t: DIType, i: nat, needle: seq<string>) returns (l: LoosePath)
    requires t.Record() && i <= |t.members| && DfsMembers(t, i, needle).Found?
    ensures Reads(t, l, needle) && DfsMembers(t, i, needle).hit.gep == LooseGep(t, l)
    decreases t.members, |t.members| - i
  {
    var m := t.members[i];
    if DfsMember(t, i, needle).Found? {
      var k := FoundReads(m.ty, if m.name == "" then needle else needle[1..]);
      l := [Some(i)] + k;
      assert l[1..] == k;
      if m.name != "" { assert needle == [needle[0]] + needle[1..]; }
    } else {
      l := FoundInMembers(t, i + 1, needle);
    }
  }

  lemma {:induction false} FoundInElements(t: DIType, i: nat, needle: seq<string>) returns (l: LoosePath)
    requires t.Array? && i <= t.count && DfsElements(t, i, needle).Found?
    ensures Reads(t, l, needle) && DfsElements(t, i, needle).hit.gep == LooseGep(t, l)
    decreases t.elem, t.count - i
  {
    if DfsElement(t, i, needle).Found? {
      var k := FoundReads(t.elem, needle[1..]);
      l := [Some(i)] + k;
      assert l[1..] == k && needle == [needle[0]] + needle[1..];
    } else {
      l := FoundInElements(t, i + 1, needle);
    }
  }

  /** Leaving an index out: the direct resolver raises, the search finds the field, with
      an index list that is one index short. */
  lemma SkippedIndexFound(e: DIType, a: DIType, t: DIType)
    requires e == Struct([Member("x", Basic("int", 4, 4))]) && a == Array(e, 2) && t == Struct([Member("a", a)])
    ensures Descend(Some(t), ["a", "x"]).Raised?
    ensures Dfs(t, ["a", "x"]) == Found(Hit("int", 4, [0, 0]))
  {
    var needle := ["a", "x"];
    assert needle[1..] == ["x"] && ["x"][1..] == [];
    NamesDoNotIndex("x");
    assert MemberInfo(t, "a") == Resolved([TypedIndex(0, MemberNode(t.members[0]))]);
    assert Descend(Some(a), ["x"]) == Raised;
    assert FieldsEnd(e.members, 0) == 0 && FieldsEnd(e.members, 1) == 4;
    assert DfsMember(e, 0, ["x"]) == Below(e, 0, Dfs(Basic("int", 4, 4), []));
    assert Dfs(e, ["x"]) == Found(Hit("int", 4, [0]));
    assert RecordedBits(e) > 0;
    assert DfsMember(t, 0, needle) == Below(t, 0, Dfs(a, ["x"]));
  }

  // ---- Names on which the direct resolver does not raise ----

  /** `needle` spells `p`, and `p` ends at a leaf. */
  predicate Spells(t: DIType, p: Path, needle: seq<string>) {
    ValidPath(t, p) && EndsNamed(t, p) && Designators(t, p) == needle && ScalarLeaf(TypeAt(t, p))
  }

  /** An array answers an identifier with the exception of `std::stoi`. */
  lemma NamesDoNotIndex(name: string)
    requires name != "" && IdentifierStart(name[0])
    ensures Stoi(name) == None
  {
    assert SkipSpaces(name) == name;
    assert LeadingDigits(name) == "";
  }

  lemma {:induction false} DfsOnlyFinds(t: DIType, needle: seq<string>) returns (p: Path)
    requires WellFormed(t) && Dfs(t, needle).Found?
    requires Strip(t).Composite() ==> !Descend(Some(Strip(t)), needle).Raised?
    ensures Spells(t, p, needle)
    decreases |needle|, t
  {
    StripFacts(t);
    if needle == [] {
      p := [];
      FoundIsLeaf(t);
    } else {
      match t
      case Typedef(b) =>
        p := DfsOnlyFinds(b, needle);
        assert p != [];
        StripKeepsPaths(b, p);
        StripKeepsPaths(t, p);
      case Array(e, _) =>
        p := ElementFound(t, needle);
      case Struct(_) =>
        p := MemberFound(t, needle);
      case Union(_) =>
        p := MemberFound(t, needle);
    }
  }

  lemma ElementFound(t: DIType, needle: seq<string>) returns (p: Path)
    requires t.Array? && WellFormed(t) && needle != [] && Dfs(t, needle).Found?
    requires !Descend(Some(t), needle).Raised?
    ensures Spells(t, p, needle)
    decreases |needle|, t, 0
  {
    var e := t.elem;
    StripFacts(e);
    if Dfs(e, needle).Found? {
      if needle[0] !in Names(Strip(e)) { DfsAbsent(e, needle); }
      NamesAreIdentifiers(Strip(e), needle[0]);
      NamesDoNotIndex(needle[0]);
      assert false;
    }
    var i := HitElement(t, 0, needle);
    StoiOfToString(i);
    assert Strip(e).Composite() ==> !Descend(Some(Strip(e)), needle[1..]).Raised?;
    var q := DfsOnlyFinds(e, needle[1..]);
    p := [i] + q;
    assert p[1..] == q;
  }

  lemma {:induction false} HitElement(t: DIType, j: nat, needle: seq<string>) returns (i: nat)
    requires t.Array? && j <= t.count && DfsElements(t, j, needle).Found?
    ensures i < t.count && needle != [] && needle[0] == ToString(i) && Dfs(t.elem, needle[1..]).Found?
    decreases t.count - j
  {
    if DfsElement(t, j, needle).Found? { i := j; } else { i := HitElement(t, j + 1, needle); }
  }

  lemma {:induction false} HitMember(t: DIType, j: nat, needle: seq<string>) returns (i: nat)
    requires t.Record() && j <= |t.members| && DfsMembers(t, j, needle).Found?
    ensures j <= i < |t.members| && DfsMember(t, i, needle).Found?
    decreases |t.members| - j
  {
    if DfsMember(t, j, needle).Found? { i := j; } else { i := HitMember(t, j + 1, needle); }
  }

  lemma MemberFound(t: DIType, needle: seq<string>) returns (p: Path)
    requires t.Record() && WellFormed(t) && needle != [] && Dfs(t, needle).Found?
    requires !Descend(Some(t), needle).Raised?
    ensures Spells(t, p, needle)
    decreases |needle|, t, 0
  {
    var i := HitMember(t, 0, needle);
    hide Descend, Dfs, DfsMembers, Spells, WellFormed, MemberInfo;
    var m := t.members[i];
    MemberLeads(t, i, needle);
    var rest := if m.name == "" then needle else needle[1..];
    var q := DfsOnlyFinds(m.ty, rest);
    p := [i] + q;
    SpellsBelow(t, i, q, needle);
  }

  /** The search goes on below the member it finds something in, and there the direct
      resolver does not raise either. */
  lemma MemberLeads(t: DIType, i: nat, needle: seq<string>)
    requires t.Record() && WellFormed(t) && needle != [] && !Descend(Some(t), needle).Raised?
    requires i < |t.members| && DfsMember(t, i, needle).Found?
    ensures var m := t.members[i];
            var rest := if m.name == "" then needle else needle[1..];
            && WellFormed(m.ty) && (m.name != "" ==> m.name == needle[0]) && Dfs(m.ty, rest).Found?
            && (Strip(m.ty).Composite() ==> !Descend(Some(Strip(m.ty)), rest).Raised?)
  {
    var m := t.members[i];
    WellFormedMember(t.members, 0, i);
    StripFacts(m.ty);
    if m.name == "" {
      if needle[0] !in Names(m.ty) { DfsAbsent(m.ty, needle); }
      SkipTo(t, 0, i, needle[0]);
      PresentName(m.ty, needle[0]);
      DescendThroughAnonymous(t, i, needle);
    } else {
      SkipTo(t, 0, i, needle[0]);
    }
  }

  lemma SpellsBelow(t: DIType, i: nat, q: Path, needle: seq<string>)
    requires t.Record() && WellFormed(t) && i < |t.members| && needle != []
    requires var m := t.members[i];
             && (m.name != "" ==> m.name == needle[0])
             && Spells(m.ty, q, if m.name == "" then needle else needle[1..])
    ensures Spells(t, [i] + q, needle)
  {
    hide WellFormed, ScalarLeaf;
    var p := [i] + q;
    assert p[1..] == q && needle == [needle[0]] + needle[1..];
  }

  lemma {:induction false} PresentName(t: DIType, name: string)
    requires WellFormed(t) && t.Record() && name in Names(t)
    ensures MemberInfo(t, name) != Unresolved
    decreases t, 0
  {
    PresentFrom(t, 0, name);
  }

  lemma {:induction false} PresentFrom(t: DIType, i: nat, name: string)
    requires t.Record() && i <= |t.members|
    requires WellFormedFrom(t.members, i) && name in NamesFrom(t.members, i)
    ensures MemberInfoFrom(t, i, name) != Unresolved
    decreases t.members, |t.members| - i
  {
    var m := t.members[i];
    if name in MemberNames(m) {
      if m.name == "" { PresentName(m.ty, name); }
    } else {
      if m.name == "" { AbsentName(m.ty, name); }
      PresentFrom(t, i + 1, name);
    }
  }

  /** An anonymous record adds an index in front and changes nothing else. */
  lemma DescendThroughAnonymous(t: DIType, i: nat, needle: seq<string>)
    requires t.Record() && i < |t.members| && needle != []
    requires t.members[i].name == "" && t.members[i].ty.Composite()
    requires MemberInfo(t, needle[0]) == MemberInfoFrom(t, i, needle[0])
    requires MemberInfo(t.members[i].ty, needle[0]) != Unresolved
    ensures Descend(Some(t.members[i].ty), needle).Raised? ==> Descend(Some(t), needle).Raised?
  {
    var m := t.members[i];
    match MemberInfo(m.ty, needle[0])
    case Raised =>
    case Resolved(sub) => MemberInfoNonEmpty(m.ty, needle[0]);
  }

  lemma {:induction false} FoundIsLeaf(t: DIType)
    requires WellFormed(t) && Dfs(t, []).Found?
    ensures ScalarLeaf(t)
  {
    match t
    case Basic(_, _, _) =>
    case Pointer(_, _) =>
    case Typedef(b) => FoundIsLeaf(b);
    case Struct(_) => DfsNoRecord(t);
    case Union(_) => DfsNoRecord(t);
    case Array(e, _) =>
      NoEmptyElement(t, 0);
      FoundIsLeaf(e);
  }

  lemma {:induction false} NoEmptyElement(t: DIType, i: nat)
    requires t.Array? && i <= t.count
    ensures !DfsElements(t, i, []).Found?
    decreases t.count - i
  {
    if i < t.count { NoEmptyElement(t, i + 1); }
  }

  /** Whenever the direct resolver does not raise, the search finds exactly the spellings
      of leaf paths it has a clear way to; where it misses, nothing is spelled so. */
  lemma SearchFindsExactly(t: DIType, needle: seq<string>)
    requires t.Struct? && WellFormed(t) && !Descend(Some(t), needle).Raised?
    ensures Dfs(t, needle).Found? <==> exists p :: Spells(t, p, needle) && ClearTo(t, p)
    ensures Dfs(t, needle).Missing? ==> !exists p :: Spells(t, p, needle)
  {
    if Dfs(t, needle).Found? {
      var p := DfsOnlyFinds(t, needle);
      DfsFinds(t, p);
      assert Spells(t, p, needle) && ClearTo(t, p);
    }
    forall p | Spells(t, p, needle)
      ensures Dfs(t, needle) == if ClearTo(t, p) then Found(LeafHit(t, p)) else Crashed
    {
      DfsFinds(t, p);
    }
  }
}
