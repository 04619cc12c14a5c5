// How section names are matched and grouped: the first matching prefix decides the
// level, and a group is sorted by section name.
module LinkerSections {
  import opened Common

  datatype ValueType = Plain(id: nat) | ArrayType(element: ValueType)

  /** A global variable with its section ("" for none), type and initialiser. */
  datatype Global = Global(section: string, ty: ValueType, init: nat)

  datatype SectionTypeConfig = SectionTypeConfig(
    sectionName: string,
    matchList: seq<string>,
    initList: seq<string>,
    startPrefix: string, startPostfix: string,
    endPrefix: string, endPostfix: string,
    namePrefix: string, namePostfix: string)

  /** The two kinds of section finders. */
  datatype SectionKind =
    | ZephyrNative(conf: SectionTypeConfig)
    | ZephyrStatic(object': string)

  // ---- Matching ----

  /** The first of the names that is a prefix of `sec`. */
  function FirstPrefix(names: seq<string>, sec: string): (r: Option<string>)
    ensures r.Some? ==> r.value in names && r.value <= sec
    ensures r.None? <==> forall n | n in names :: !(n <= sec)
  {
    if names == [] then None
    else if names[0] <= sec then Some(names[0])
    else
      var r := FirstPrefix(names[1..], sec);
      assert forall n | n in names :: n == names[0] || n in names[1..];
      r
  }

  function FindFrom(s: string, needle: string, k: nat): (n: Option<nat>)
    requires k <= |s|
    ensures n.Some? ==> k <= n.value <= |s| && needle <= s[n.value..]
    decreases |s| - k
  {
    if needle <= s[k..] then Some(k) else if k == |s| then None else FindFrom(s, needle, k + 1)
  }

  /** What is left of the section name when the finder accepts it. */
  function Matched(kind: SectionKind, section: string): Option<string> {
    match kind
    case ZephyrNative(conf) =>
      (match FirstPrefix(conf.matchList, section)
       case None => None
       case Some(p) => Some(section[|p|..]))
    case ZephyrStatic(o) =>
      var prefix := "._" + o;
      if !(prefix <= section) then None else
      var rest := section[|prefix|..];
      match FindFrom(rest, ".static.", 0)
      case None => None
      case Some(n) => Some(rest[..n])
  }

  /** The level of a section, if the finder collects it. */
  function LevelOf(kind: SectionKind, section: string): Option<string> {
    if section == "" then None else
    match Matched(kind, section)
    case None => None
    case Some(rest) =>
      match kind
      case ZephyrNative(conf) => FirstPrefix(conf.initList, rest)
      case ZephyrStatic(_) => Some(rest)
  }

  function InitialLevels(kind: SectionKind): seq<string> {
    if kind.ZephyrNative? then kind.conf.initList else []
  }

  /** The levels after the globals have been seen: new ones are appended. */
  function Levels(kind: SectionKind, globals: seq<Global>): seq<string> {
    if globals == [] then InitialLevels(kind) else
    var front := Levels(kind, globals[..|globals| - 1]);
    match LevelOf(kind, globals[|globals| - 1].section)
    case None => front
    case Some(l) => if l in front then front else front + [l]
  }

  lemma {:induction false} LevelsDistinct(kind: SectionKind, globals: seq<Global>)
    requires Distinct(InitialLevels(kind))
    ensures Distinct(Levels(kind, globals))
    ensures forall g | g in globals && LevelOf(kind, g.section).Some? ::
              LevelOf(kind, g.section).value in Levels(kind, globals)
    decreases globals
  {
    if globals != [] {
      LevelsDistinct(kind, globals[..|globals| - 1]);
      assert forall g | g in globals :: g in globals[..|globals| - 1] || g == globals[|globals| - 1];
    }
  }

  // ---- Sorting ----

  predicate Less(a: string, b: string) {
    if b == "" then false
    else if a == "" then true
    else a[0] < b[0] || (a[0] == b[0] && Less(a[1..], b[1..]))
  }

  lemma {:induction false} LessTotal(a: string, b: string)
    ensures Less(a, b) || a == b || Less(b, a)
    ensures !(Less(a, b) && Less(b, a)) && !Less(a, a)
    decreases a
  {
    if a != "" && b != "" {
      LessTotal(a[1..], b[1..]);
      LessTotal(a[1..], a[1..]);
      if a[0] == b[0] && a[1..] == b[1..] { assert a == [a[0]] + a[1..] == b; }
    } else if a != "" {
      LessTotal(a[1..], a[1..]);
    }
  }

  lemma {:induction false} LessTransitive(a: string, b: string, c: string)
    requires Less(a, b) && Less(b, c)
    ensures Less(a, c)
    decreases a
  {
    if a != "" && a[0] == b[0] && b[0] == c[0] { LessTransitive(a[1..], b[1..], c[1..]); }
  }

  predicate StrictlySorted(l: seq<string>) {
    forall i, j | 0 <= i < j < |l| :: Less(l[i], l[j])
  }

  /** Iteration over an ordered map visits its keys in ascending order. */
  method SortedKeys(keys: set<string>) returns (r: seq<string>)
    ensures StrictlySorted(r) && forall x :: x in r <==> x in keys
  {
    r := [];
    var left := keys;
    while left != {}
      invariant left <= keys && StrictlySorted(r)
      invariant forall x :: x in r <==> x in keys && x !in left
      invariant forall x, y | x in r && y in left :: Less(x, y)
      decreases left
    {
      var m := Least(left);
      r, left := r + [m], left - {m};
    }
  }

  method Least(keys: set<string>) returns (m: string)
    requires keys != {}
    ensures m in keys && forall x | x in keys && x != m :: Less(m, x)
  {
    m :| m in keys;
    var left := keys - {m};
    while left != {}
      invariant m in keys && left <= keys
      invariant forall x | x in keys && x !in left && x != m :: Less(m, x)
      decreases left
    {
      var x :| x in left;
      LessTotal(m, x);
      if Less(x, m) {
        forall y | y in keys && y !in left && y != m ensures Less(x, y) { LessTransitive(x, m, y); }
        m := x;
      }
      left := left - {x};
    }
  }

  /** A strictly sorted list is determined by its elements. */
  lemma {:induction false} SortedUnique(a: seq<string>, b: seq<string>)
    requires StrictlySorted(a) && StrictlySorted(b) && forall x :: x in a <==> x in b
    ensures a == b
    decreases a
  {
    if a == [] {
      assert forall i | 0 <= i < |b| :: b[i] in b;
    } else {
      assert a[0] in a && a[0] in b;
      assert b[0] in b && b[0] in a;
      SameHead(a, b);
      forall x ensures x in a[1..] <==> x in b[1..] {
        LessTotal(a[0], a[0]);
        if x in a[1..] { assert x in b && x != a[0]; }
        if x in b[1..] { assert x in a && x != b[0]; }
      }
      SortedUnique(a[1..], b[1..]);
    }
  }

  lemma SameHead(a: seq<string>, b: seq<string>)
    requires a != [] && b != [] && StrictlySorted(a) && StrictlySorted(b) && a[0] in b && b[0] in a
    ensures a[0] == b[0]
  {
    LessTotal(a[0], b[0]);
  }

  // ---- Groups ----

  function Sections(gs: seq<Global>): (r: seq<string>)
    ensures |r| == |gs| && forall i | 0 <= i < |r| :: r[i] == gs[i].section
  {
    seq(|gs|, i requires 0 <= i < |gs| => gs[i].section)
  }

  /** The last global in the section: the one an ordered map by section name keeps. */
  function LastIn(globals: seq<Global>, section: string): (r: Option<Global>)
    ensures r.Some? ==> r.value in globals && r.value.section == section
    ensures r.None? <==> forall g | g in globals :: g.section != section
  {
    if globals == [] then None else
    var g := globals[|globals| - 1];
    assert forall x | x in globals :: x == g || x in globals[..|globals| - 1];
    if g.section == section then Some(g) else LastIn(globals[..|globals| - 1], section)
  }

  /** The globals of level `l`, sorted by section name. */
  ghost predicate IsGroup(kind: SectionKind, globals: seq<Global>, l: string, group: seq<Global>) {
    && StrictlySorted(Sections(group))
    && (forall g | g in group :: LevelOf(kind, g.section) == Some(l) && LastIn(globals, g.section) == Some(g))
    && (forall g | g in globals && LevelOf(kind, g.section) == Some(l) :: g.section in Sections(group))
  }

  /** There is one such group. */
  lemma GroupUnique(kind: SectionKind, globals: seq<Global>, l: string, a: seq<Global>, b: seq<Global>)
    requires IsGroup(kind, globals, l, a) && IsGroup(kind, globals, l, b)
    ensures a == b
  {
    SameSections(kind, globals, l, a, b);
    SameSections(kind, globals, l, b, a);
    SortedUnique(Sections(a), Sections(b));
    forall i | 0 <= i < |a|
      ensures a[i] == b[i]
    {
      assert a[i] in a && b[i] in b && Sections(a)[i] == Sections(b)[i];
    }
    assert |a| == |Sections(a)| == |Sections(b)| == |b|;
  }

  lemma SameSections(kind: SectionKind, globals: seq<Global>, l: string, a: seq<Global>, b: seq<Global>)
    requires IsGroup(kind, globals, l, a) && IsGroup(kind, globals, l, b)
    ensures forall s | s in Sections(a) :: s in Sections(b)
  {
    forall s | s in Sections(a)
      ensures s in Sections(b)
    {
      var i :| 0 <= i < |a| && Sections(a)[i] == s;
      assert a[i] in a;
    }
  }

  function Flatten(groups: seq<seq<Global>>): seq<Global> {
    if groups == [] then [] else Flatten(groups[..|groups| - 1]) + groups[|groups| - 1]
  }

  ghost predicate AreGroups(kind: SectionKind, globals: seq<Global>, levels: seq<string>, groups: seq<seq<Global>>) {
    |groups| == |levels| && forall k | 0 <= k < |levels| :: IsGroup(kind, globals, levels[k], groups[k])
  }

  // ---- The section array ----

  function Position(l: seq<string>, x: string): (k: nat)
    requires x in l
    ensures k < |l| && l[k] == x
  {
    if l[0] == x then 0 else 1 + Position(l[1..], x)
  }

  ghost predicate InGroup(kind: SectionKind, globals: seq<Global>, l: string, g: Global) {
    LevelOf(kind, g.section) == Some(l) && LastIn(globals, g.section) == Some(g)
  }

  /** Elements before the first position of level `k` belong to earlier levels, those
      from there on to level `k` or later ones. */
  lemma {:induction false} LevelsInOrder(kind: SectionKind, globals: seq<Global>, levels: seq<string>,
                                         groups: seq<seq<Global>>, k: nat, i: nat)
    requires AreGroups(kind, globals, levels, groups) && k <= |groups| && i < |Flatten(groups)|
    ensures |Flatten(groups[..k])| <= |Flatten(groups)|
    ensures i < |Flatten(groups[..k])| ==>
            exists j | 0 <= j < k :: InGroup(kind, globals, levels[j], Flatten(groups)[i])
    ensures i >= |Flatten(groups[..k])| ==>
            exists j | k <= j < |levels| :: InGroup(kind, globals, levels[j], Flatten(groups)[i])
    decreases groups
  {
    var n := |groups| - 1;
    var front := Flatten(groups[..n]);
    if k == |groups| {
      assert groups[..k] == groups;
    } else {
      assert groups[..n][..k] == groups[..k];
    }
    if i < |front| {
      LevelsInOrder(kind, globals, levels[..n], groups[..n], if k <= n then k else n, i);
      if k > n { assert groups[..n][..n] == groups[..n]; }
    } else {
      assert Flatten(groups)[i] == groups[n][i - |front|];
      assert groups[n][i - |front|] in groups[n];
      assert IsGroup(kind, globals, levels[n], groups[n]);
      assert InGroup(kind, globals, levels[n], Flatten(groups)[i]);
      if k <= n { FlattenGrows(groups[..n], k); }
    }
  }

  lemma {:induction false} FlattenGrows(groups: seq<seq<Global>>, k: nat)
    requires k <= |groups|
    ensures |Flatten(groups[..k])| <= |Flatten(groups)|
    decreases groups
  {
    if k == |groups| {
      assert groups[..k] == groups;
    } else {
      assert groups[..|groups| - 1][..k] == groups[..k];
      FlattenGrows(groups[..|groups| - 1], k);
    }
  }

  // ---- Each global once ----

  /** The globals the finder collects, in module order. */
  function Matching(kind: SectionKind, globals: seq<Global>): seq<Global> {
    if globals == [] then [] else
    var front, g := Matching(kind, globals[..|globals| - 1]), globals[|globals| - 1];
    if LevelOf(kind, g.section).Some? then front + [g] else front
  }

  predicate DistinctSections(gs: seq<Global>) {
    forall i, j | 0 <= i < j < |gs| :: gs[i].section != gs[j].section
  }

  lemma {:induction false} MatchingIn(kind: SectionKind, globals: seq<Global>, g: Global)
    ensures g in Matching(kind, globals) <==> g in globals && LevelOf(kind, g.section).Some?
    decreases globals
  {
    if globals != [] {
      MatchingIn(kind, globals[..|globals| - 1], g);
      assert g in globals <==> g in globals[..|globals| - 1] || g == globals[|globals| - 1];
    }
  }

  /** The array has one global for every section that is collected: the last one. */
  lemma {:induction false} ArrayElements(kind: SectionKind, globals: seq<Global>, levels: seq<string>,
                                         groups: seq<seq<Global>>, g: Global)
    requires AreGroups(kind, globals, levels, groups)
    ensures g in Flatten(groups) <==> exists k | 0 <= k < |levels| :: InGroup(kind, globals, levels[k], g)
    decreases groups
  {
    hide IsGroup, InGroup;
    if groups != [] {
      var n := |groups| - 1;
      ArrayElements(kind, globals, levels[..n], groups[..n], g);
      assert IsGroup(kind, globals, levels[n], groups[n]);
      GroupElements(kind, globals, levels[n], groups[n]);
      if k :| 0 <= k < n && InGroup(kind, globals, levels[k], g) {
        assert InGroup(kind, globals, levels[..n][k], g);
      }
    }
  }

  /** And at most one of each section. */
  lemma {:induction false} ArraySections(kind: SectionKind, globals: seq<Global>, levels: seq<string>,
                                         groups: seq<seq<Global>>)
    requires AreGroups(kind, globals, levels, groups) && Distinct(levels)
    ensures DistinctSections(Flatten(groups))
    decreases groups
  {
    if groups != [] {
      var n := |groups| - 1;
      var front := Flatten(groups[..n]);
      ArraySections(kind, globals, levels[..n], groups[..n]);
      assert IsGroup(kind, globals, levels[n], groups[n]);
      GroupSections(groups[n]);
      forall i, j | 0 <= i < |front| && 0 <= j < |groups[n]|
        ensures front[i].section != groups[n][j].section
      {
        assert front[i] in front && groups[n][j] in groups[n];
        ArrayElements(kind, globals, levels[..n], groups[..n], front[i]);
        var k :| 0 <= k < n && InGroup(kind, globals, levels[..n][k], front[i]);
        assert levels[k] != levels[n];
      }
      DistinctJoin(front, groups[n]);
    }
  }

  lemma GroupSections(group: seq<Global>)
    requires StrictlySorted(Sections(group))
    ensures DistinctSections(group)
  {
    forall i, j | 0 <= i < j < |group|
      ensures group[i].section != group[j].section
    {
      assert Less(Sections(group)[i], Sections(group)[j]);
      LessTotal(group[i].section, group[i].section);
    }
  }

  lemma DistinctJoin(a: seq<Global>, b: seq<Global>)
    requires DistinctSections(a) && DistinctSections(b)
    requires forall i, j | 0 <= i < |a| && 0 <= j < |b| :: a[i].section != b[j].section
    ensures DistinctSections(a + b)
  {
    forall i, j | 0 <= i < j < |a + b|
      ensures (a + b)[i].section != (a + b)[j].section
    {
      if i < |a| && j >= |a| { assert a[i].section != b[j - |a|].section; }
    }
  }

  lemma GroupElements(kind: SectionKind, globals: seq<Global>, l: string, group: seq<Global>)
    requires IsGroup(kind, globals, l, group)
    ensures forall g :: g in group <==> InGroup(kind, globals, l, g)
  {
    forall g | InGroup(kind, globals, l, g)
      ensures g in group
    {
      assert g in globals && g.section in Sections(group);
      var i :| 0 <= i < |group| && Sections(group)[i] == g.section;
      assert group[i] in group;
    }
  }

  lemma {:induction false} CountOnce(gs: seq<Global>, g: Global)
    requires DistinctSections(gs)
    ensures multiset(gs)[g] == if g in gs then 1 else 0
    decreases gs
  {
    if gs != [] {
      assert gs == gs[..|gs| - 1] + [gs[|gs| - 1]];
      CountOnce(gs[..|gs| - 1], g);
    }
  }

  lemma {:induction false} LastOfDistinct(globals: seq<Global>, g: Global)
    requires g in globals && forall x, y | x in globals && y in globals && x.section == y.section == g.section :: x == y
    ensures LastIn(globals, g.section) == Some(g)
  {
  }

  /** The array holds each collected global exactly once if and only if no two of them
      share a section name. */
  lemma EachOnceIffDistinct(kind: SectionKind, globals: seq<Global>, levels: seq<string>, groups: seq<seq<Global>>)
    requires levels == Levels(kind, globals) && Distinct(InitialLevels(kind))
    requires AreGroups(kind, globals, levels, groups)
    ensures multiset(Flatten(groups)) == multiset(Matching(kind, globals)) <==>
            DistinctSections(Matching(kind, globals))
  {
    LevelsDistinct(kind, globals);
    ArraySections(kind, globals, levels, groups);
    var area, all := Flatten(groups), Matching(kind, globals);
    if DistinctSections(all) {
      forall g
        ensures multiset(area)[g] == multiset(all)[g]
      {
        CountOnce(area, g);
        CountOnce(all, g);
        CollectedIff(kind, globals, levels, g);
        ArrayElements(kind, globals, levels, groups, g);
      }
    } else if multiset(area) == multiset(all) {
      var i, j :| 0 <= i < j < |all| && all[i].section == all[j].section;
      SharedSection(area, all, i, j);
    }
  }

  lemma CollectedIff(kind: SectionKind, globals: seq<Global>, levels: seq<string>, g: Global)
    requires DistinctSections(Matching(kind, globals))
    requires forall g | g in globals && LevelOf(kind, g.section).Some? :: LevelOf(kind, g.section).value in levels
    ensures g in Matching(kind, globals) <==> exists k | 0 <= k < |levels| :: InGroup(kind, globals, levels[k], g)
  {
    var all := Matching(kind, globals);
    MatchingIn(kind, globals, g);
    if g in all {
      forall x, y | x in globals && y in globals && x.section == y.section == g.section
        ensures x == y
      {
        MatchingIn(kind, globals, x);
        MatchingIn(kind, globals, y);
        var i, j :| 0 <= i < |all| && all[i] == x && 0 <= j < |all| && all[j] == y;
      }
      LastOfDistinct(globals, g);
      var k := Position(levels, LevelOf(kind, g.section).value);
      assert InGroup(kind, globals, levels[k], g);
    }
  }

  lemma SharedSection(area: seq<Global>, all: seq<Global>, i: nat, j: nat)
    requires DistinctSections(area) && i < j < |all| && all[i].section == all[j].section
    ensures multiset(area) != multiset(all)
  {
    if multiset(area) == multiset(all) {
      assert all[i] in multiset(area) && all[j] in multiset(area);
      assert all[i] in area && all[j] in area;
      var p, q :| 0 <= p < |area| && area[p] == all[i] && 0 <= q < |area| && area[q] == all[j];
      assert p == q;
      CountOnce(area, all[i]);
      Twice(all, i, j);
    }
  }

  lemma Twice(all: seq<Global>, i: nat, j: nat)
    requires i < j < |all| && all[i] == all[j]
    ensures multiset(all)[all[i]] >= 2
  {
    assert all == all[..j] + all[j..];
    assert all[i] in all[..j] && all[j] in all[j..];
  }

  // ---- Which finders there are ----

  /** Object names to have a static finder, starting from the mandatory ones: one more
      for each new name among the globals' sections. */
  function Objects(mandatory: seq<string>, globals: seq<Global>): seq<string> {
    if globals == [] then mandatory else
    var front, section := Objects(mandatory, globals[..|globals| - 1]), globals[|globals| - 1].section;
    if section == "" then front else
    match Matched(ZephyrStatic(""), section)
    case None => front
    case Some(o) => if o in front then front else front + [o]
  }

  method InitializeZephyrSectionFinders(mandatory: seq<string>, configs: seq<SectionTypeConfig>, globals: seq<Global>)
    returns (finders: seq<SectionKind>)
    ensures finders == seq(|Objects(mandatory, globals)|, i requires 0 <= i < |Objects(mandatory, globals)| =>
                           ZephyrStatic(Objects(mandatory, globals)[i])) +
                       seq(|configs|, i requires 0 <= i < |configs| => ZephyrNative(configs[i]))
  {
    var found := mandatory;
    finders := seq(|found|, i requires 0 <= i < |found| => ZephyrStatic(found[i]));
    for i := 0 to |globals|
      invariant found == Objects(mandatory, globals[..i])
      invariant finders == seq(|found|, j requires 0 <= j < |found| => ZephyrStatic(found[j]))
    {
      assert globals[..i + 1][..i] == globals[..i];
      if globals[i].section != "" {
        var o := Matched(ZephyrStatic(""), globals[i].section);
        if o.Some? && o.value !in found {
          finders := finders + [ZephyrStatic(o.value)];
          found := found + [o.value];
        }
      }
    }
    assert globals[..|globals|] == globals;
    for i := 0 to |configs|
      invariant finders == seq(|found|, j requires 0 <= j < |found| => ZephyrStatic(found[j])) +
                           seq(i, j requires 0 <= j < i => ZephyrNative(configs[j]))
    {
      finders := finders + [ZephyrNative(configs[i])];
    }
  }

  lemma {:induction false} ObjectFound(mandatory: seq<string>, globals: seq<Global>, g: Global, o: string)
    requires g in globals && g.section != "" && Matched(ZephyrStatic(""), g.section) == Some(o)
    ensures o in Objects(mandatory, globals)
    decreases globals
  {
    if g != globals[|globals| - 1] {
      assert g in globals[..|globals| - 1];
      ObjectFound(mandatory, globals[..|globals| - 1], g, o);
    }
  }

  lemma FoundAtOnce(s: string, needle: string)
    requires needle <= s
    ensures FindFrom(s, needle, 0) == Some(0)
  {
    assert s[0..] == s;
  }

  lemma OwnFinderMatches(section: string, o: string)
    requires Matched(ZephyrStatic(""), section) == Some(o)
    ensures Matched(ZephyrStatic(o), section) == Some("")
  {
    hide FindFrom;
    assert "._" + "" == "._";
    var rest, own := section[2..], "._" + o;
    var n := FindFrom(rest, ".static.", 0).value;
    assert section == own + rest[n..];
    FoundAtOnce(rest[n..], ".static.");
    assert section[|own|..] == rest[n..];
  }

  /** Every static section of the module has a finder that collects it, at the level
      without a name. */
  lemma StaticSectionCollected(mandatory: seq<string>, globals: seq<Global>, g: Global, o: string)
    requires g in globals && g.section != "" && Matched(ZephyrStatic(""), g.section) == Some(o)
    ensures o in Objects(mandatory, globals) && LevelOf(ZephyrStatic(o), g.section) == Some("")
  {
    hide Matched;
    ObjectFound(mandatory, globals, g, o);
    OwnFinderMatches(g.section, o);
  }
}
