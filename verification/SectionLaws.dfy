// What a section finder collects, where, and under which names, said by the names in its
// configuration and the section names of the globals alone.
module SectionLaws {
  import opened Common
  import opened LinkerSections
  import opened SectionArrays

  // ---- Which sections, at which level ----

  /** The `i`-th name is the first that is a prefix of `s`. */
  ghost predicate FirstAt(names: seq<string>, i: nat, s: string) {
    i < |names| && names[i] <= s && forall j | 0 <= j < i :: !(names[j] <= s)
  }

  lemma {:induction false} FirstPrefixExact(names: seq<string>, s: string, n: string)
    ensures FirstPrefix(names, s) == Some(n) <==> exists i: nat :: FirstAt(names, i, s) && names[i] == n
  {
    if names != [] && !(names[0] <= s) {
      FirstPrefixExact(names[1..], s, n);
      if i: nat :| FirstAt(names[1..], i, s) && names[1..][i] == n {
        FirstAtLater(names, i, s);
      }
      if i: nat :| FirstAt(names, i, s) && names[i] == n {
        assert i > 0;
        FirstAtLater(names, i - 1, s);
      }
    } else if names != [] {
      assert FirstAt(names, 0, s);
    }
  }

  lemma FirstAtLater(names: seq<string>, i: nat, s: string)
    requires names != [] && !(names[0] <= s)
    ensures FirstAt(names[1..], i, s) <==> FirstAt(names, i + 1, s)
    ensures i < |names| - 1 ==> names[1..][i] == names[i + 1]
  {
    if FirstAt(names[1..], i, s) {
      forall j | 0 <= j < i + 1 ensures !(names[j] <= s) {
        if j > 0 { assert names[1..][j - 1] == names[j]; }
      }
    }
    if FirstAt(names, i + 1, s) {
      forall j | 0 <= j < i ensures !(names[1..][j] <= s) { assert names[1..][j] == names[j + 1]; }
    }
  }

  /** A native finder collects a section at level `l` if and only if the section has a
      name, starts with some name of the match list, `m` being the first such, and `l` is
      the first level that follows `m` in it. */
  ghost predicate NativeAt(conf: SectionTypeConfig, s: string, l: string, i: nat, j: nat) {
    && s != "" && FirstAt(conf.matchList, i, s)
    && j < |conf.initList| && conf.initList[j] == l && conf.matchList[i] + l <= s
    && forall k | 0 <= k < j :: !(conf.matchList[i] + conf.initList[k] <= s)
  }

  lemma NativeLevelExact(conf: SectionTypeConfig, s: string, l: string)
    ensures LevelOf(ZephyrNative(conf), s) == Some(l) <==> exists i: nat, j: nat :: NativeAt(conf, s, l, i, j)
  {
    if LevelOf(ZephyrNative(conf), s) == Some(l) {
      var m := FirstPrefix(conf.matchList, s).value;
      FirstPrefixExact(conf.matchList, s, m);
      var i: nat :| FirstAt(conf.matchList, i, s) && conf.matchList[i] == m;
      FirstPrefixExact(conf.initList, s[|m|..], l);
      var j: nat :| FirstAt(conf.initList, j, s[|m|..]) && conf.initList[j] == l;
      forall k | 0 <= k <= j ensures conf.initList[k] <= s[|m|..] <==> m + conf.initList[k] <= s {
        BehindPrefix(m, conf.initList[k], s);
      }
      assert NativeAt(conf, s, l, i, j);
    }
    forall i: nat, j: nat | NativeAt(conf, s, l, i, j) ensures LevelOf(ZephyrNative(conf), s) == Some(l) {
      var m := conf.matchList[i];
      FirstPrefixExact(conf.matchList, s, m);
      forall k | 0 <= k <= j ensures conf.initList[k] <= s[|m|..] <==> m + conf.initList[k] <= s {
        BehindPrefix(m, conf.initList[k], s);
      }
      assert FirstAt(conf.initList, j, s[|m|..]);
      FirstPrefixExact(conf.initList, s[|m|..], l);
    }
  }

  lemma BehindPrefix(m: string, l: string, s: string)
    requires m <= s
    ensures l <= s[|m|..] <==> m + l <= s
  {
    if l <= s[|m|..] { assert s == m + s[|m|..]; }
    if m + l <= s { assert s[|m|..][..|l|] == s[..|m| + |l|][|m|..]; }
  }

  /** A static finder for `o` collects a section at level `l` if and only if the section
      starts with `._`, `o`, `l` and `.static.`, and with no shorter level. */
  ghost predicate StaticAt(o: string, s: string, l: string) {
    && ("._" + o) + (l + ".static.") <= s
    && forall k: string | |k| < |l| :: !(("._" + o) + (k + ".static.") <= s)
  }

  lemma StaticLevelExact(o: string, s: string, l: string)
    ensures LevelOf(ZephyrStatic(o), s) == Some(l) <==> StaticAt(o, s, l)
  {
    hide FindFrom, LevelOf, StaticAt, Shortest;
    StaticLevelFound(o, s);
    StaticBehind(o, s, l);
    if "._" + o <= s { ShortestPart(s[|"._" + o|..], l); }
  }

  lemma StaticLevelFound(o: string, s: string)
    ensures var prefix := "._" + o;
            LevelOf(ZephyrStatic(o), s) ==
            if !(prefix <= s) then None
            else
              match FindFrom(s[|prefix|..], ".static.", 0)
              case None => None
              case Some(n) => Some(s[|prefix|..][..n])
  {
    hide FindFrom;
  }

  lemma StaticBehind(o: string, s: string, l: string)
    ensures var prefix := "._" + o;
            StaticAt(o, s, l) <==> prefix <= s && Shortest(s[|prefix|..], l)
  {
    var prefix := "._" + o;
    if prefix <= s {
      SameParts(prefix, s);
    } else if StaticAt(o, s, l) {
      NoPrefix(prefix, l + ".static.", s);
    }
  }

  lemma SameParts(prefix: string, s: string)
    requires prefix <= s
    ensures forall k: string :: prefix + (k + ".static.") <= s <==> k + ".static." <= s[|prefix|..]
  {
    forall k: string ensures prefix + (k + ".static.") <= s <==> k + ".static." <= s[|prefix|..] {
      BehindPrefix(prefix, k + ".static.", s);
    }
  }

  lemma NoPrefix(a: string, b: string, s: string)
    requires a + b <= s
    ensures a <= s
  {
    assert a == (a + b)[..|a|];
  }

  ghost predicate Shortest(rest: string, l: string) {
    l + ".static." <= rest && forall k: string | |k| < |l| :: !(k + ".static." <= rest)
  }

  lemma ShortestPart(rest: string, l: string)
    ensures var f := FindFrom(rest, ".static.", 0); f.Some? && rest[..f.value] == l <==> Shortest(rest, l)
  {
    var f := FindFrom(rest, ".static.", 0);
    FindFromFirst(rest, ".static.", 0);
    hide FindFrom;
    if f.Some? && rest[..f.value] == l {
      FoundPart(rest, |l|);
      forall k: string | |k| < |l| ensures !(k + ".static." <= rest) {
        if k + ".static." <= rest { PartFound(rest, k); }
      }
    }
    if Shortest(rest, l) {
      PartFound(rest, l);
      if f.value < |l| { FoundPart(rest, f.value); }
    }
  }

  lemma FoundPart(s: string, n: nat)
    requires n <= |s| && ".static." <= s[n..]
    ensures s[..n] + ".static." <= s
  {
    assert s == s[..n] + s[n..];
  }

  lemma PartFound(s: string, l: string)
    requires l + ".static." <= s
    ensures |l| <= |s| && ".static." <= s[|l|..] && s[..|l|] == l
  {
    assert s[|l|..][..8] == (l + ".static.")[|l|..];
  }

  lemma {:induction false} FindFromFirst(s: string, needle: string, k: nat)
    requires k <= |s|
    ensures match FindFrom(s, needle, k)
            case Some(n) => forall j | k <= j < n :: !(needle <= s[j..])
            case None => forall j | k <= j <= |s| :: !(needle <= s[j..])
    decreases |s| - k
  {
    if !(needle <= s[k..]) && k < |s| { FindFromFirst(s, needle, k + 1); }
  }

  /** There is a static finder for each mandatory object first, and then for the others
      the module has a static section of: no object but these. */
  lemma {:induction false} ObjectsExact(mandatory: seq<string>, globals: seq<Global>, o: string)
    ensures mandatory <= Objects(mandatory, globals)
    ensures o in Objects(mandatory, globals) <==>
            o in mandatory || exists g :: g in globals && g.section != "" && StaticAt("", g.section, o)
    decreases globals
  {
    hide Matched;
    if globals != [] {
      var front, g := globals[..|globals| - 1], globals[|globals| - 1];
      ObjectsExact(mandatory, front, o);
      assert forall x :: x in globals <==> x in front || x == g;
      StaticLevelExact("", g.section, o);
      if g.section != "" && StaticAt("", g.section, o) { assert g in globals; }
    }
  }

  // ---- The order of levels and of sections ----

  /** The levels of a native finder are the configured ones. */
  lemma {:induction false} NativeLevels(conf: SectionTypeConfig, globals: seq<Global>)
    ensures Levels(ZephyrNative(conf), globals) == conf.initList
    decreases globals
  {
    if globals != [] { NativeLevels(conf, globals[..|globals| - 1]); }
  }

  /** The `a`-th global is the first one at its level. */
  ghost predicate FirstOfLevel(kind: SectionKind, globals: seq<Global>, l: string, a: nat) {
    && a < |globals| && LevelOf(kind, globals[a].section) == Some(l)
    && forall b | 0 <= b < a :: LevelOf(kind, globals[b].section) != Some(l)
  }

  /** Those of a static finder are the levels of its globals, in order of appearance. */
  lemma {:induction false} StaticLevels(o: string, globals: seq<Global>, i: nat, j: nat, a: nat, b: nat)
    requires i < j < |Levels(ZephyrStatic(o), globals)|
    requires FirstOfLevel(ZephyrStatic(o), globals, Levels(ZephyrStatic(o), globals)[i], a)
    requires FirstOfLevel(ZephyrStatic(o), globals, Levels(ZephyrStatic(o), globals)[j], b)
    ensures a < b
    decreases globals
  {
    hide LevelOf;
    var kind, n := ZephyrStatic(o), |globals| - 1;
    var front := Levels(kind, globals[..n]);
    if j < |front| {
      LevelsAppear(o, globals[..n], i);
      LevelsAppear(o, globals[..n], j);
      StaticLevels(o, globals[..n], i, j, a, b);
    } else {
      LevelsAppear(o, globals[..n], i);
      NotBefore(o, globals[..n], Levels(kind, globals)[j]);
    }
  }

  lemma {:induction false} NotBefore(o: string, globals: seq<Global>, l: string)
    ensures (exists a | 0 <= a < |globals| :: LevelOf(ZephyrStatic(o), globals[a].section) == Some(l)) ==>
              l in Levels(ZephyrStatic(o), globals)
    decreases globals
  {
    hide LevelOf;
    if globals != [] {
      var n := |globals| - 1;
      NotBefore(o, globals[..n], l);
      if a :| 0 <= a < n && LevelOf(ZephyrStatic(o), globals[a].section) == Some(l) {
        assert globals[..n][a] == globals[a];
      }
    }
  }

  /** Every level of a static finder is that of some global. */
  lemma {:induction false} LevelsAppear(o: string, globals: seq<Global>, i: nat)
    requires i < |Levels(ZephyrStatic(o), globals)|
    ensures exists a | 0 <= a < |globals| ::
              LevelOf(ZephyrStatic(o), globals[a].section) == Some(Levels(ZephyrStatic(o), globals)[i])
    decreases globals
  {
    hide LevelOf;
    var kind, n := ZephyrStatic(o), |globals| - 1;
    if i < |Levels(kind, globals[..n])| {
      LevelsAppear(o, globals[..n], i);
      var a :| 0 <= a < n && LevelOf(kind, globals[..n][a].section) == Some(Levels(kind, globals[..n])[i]);
      assert globals[a] == globals[..n][a];
    } else {
      assert LevelOf(kind, globals[n].section) == Some(Levels(kind, globals)[i]);
    }
  }

  /** Section names ascend: the smaller one is a proper prefix of the other, or has the
      smaller character where they first differ. */
  ghost predicate SmallerAt(a: string, b: string, k: nat) {
    && k <= |a| && k < |b| && a[..k] == b[..k] && (k == |a| || a[k] < b[k])
  }

  lemma SameFirst(a: string, b: string, k: nat)
    ensures SmallerAt(a, b, k) && k > 0 ==> a[0] == b[0]
  {
    if SmallerAt(a, b, k) && k > 0 { assert a[..k][0] == b[..k][0]; }
  }

  lemma {:induction false} LessExact(a: string, b: string)
    ensures Less(a, b) <==> exists k: nat :: SmallerAt(a, b, k)
  {
    if a != "" && b != "" && a[0] == b[0] {
      LessExact(a[1..], b[1..]);
      if k: nat :| SmallerAt(a[1..], b[1..], k) {
        assert a[..k + 1] == [a[0]] + a[1..][..k] && b[..k + 1] == [b[0]] + b[1..][..k];
        assert SmallerAt(a, b, k + 1);
      }
      if k: nat :| SmallerAt(a, b, k) {
        assert k > 0;
        assert a[1..][..k - 1] == a[..k][1..] && b[1..][..k - 1] == b[..k][1..];
        assert SmallerAt(a[1..], b[1..], k - 1);
      }
    } else if b != "" {
      if a == "" || a[0] < b[0] { assert SmallerAt(a, b, 0); }
      if k: nat :| SmallerAt(a, b, k) {
        SameFirst(a, b, k);
      }
    }
  }

  // ---- Where a global is found ----

  lemma {:induction false} LastOfSection(globals: seq<Global>, a: nat)
    requires a < |globals| && forall b | a < b < |globals| :: globals[b].section != globals[a].section
    ensures LastIn(globals, globals[a].section) == Some(globals[a])
    decreases globals
  {
    var n := |globals| - 1;
    if a < n { LastOfSection(globals[..n], a); }
  }

  function StartOr(indices: seq<nat>, k: nat, end: nat): nat {
    if k < |indices| then indices[k] else end
  }

  /** The last global of a section that is collected at the `k`-th level is in the array,
      from the start of that level on and before the start of the next. */
  lemma CollectedBetween(kind: SectionKind, globals: seq<Global>, levels: seq<string>, groups: seq<seq<Global>>,
                         values: seq<Global>, indices: seq<nat>, k: nat, a: nat) returns (i: nat)
    requires IsArray(kind, globals, levels, groups, values, indices) && k < |levels| && a < |globals|
    requires LevelOf(kind, globals[a].section) == Some(levels[k])
    requires forall b | a < b < |globals| :: globals[b].section != globals[a].section
    ensures |indices| == |levels| && indices[k] <= i < StartOr(indices, k + 1, |values|) && i < |values|
    ensures values[i] == globals[a]
  {
    hide LevelOf, IsArray, AreGroups, IsGroup, InGroup, Starts, Flatten, LastIn;
    var g := globals[a];
    ArrayParts(kind, globals, levels, groups, values, indices);
    LastOfSection(globals, a);
    GroupHolds(kind, globals, levels, groups, k, g);
    var j :| 0 <= j < |groups[k]| && groups[k][j] == g;
    i := |Flatten(groups[..k])| + j;
    InPlace(groups, k, j);
    StartsAt(groups, indices, k);
    if k + 1 < |groups| { StartsAt(groups, indices, k + 1); }
  }

  lemma GroupHolds(kind: SectionKind, globals: seq<Global>, levels: seq<string>, groups: seq<seq<Global>>, k: nat,
                   g: Global)
    requires AreGroups(kind, globals, levels, groups) && k < |levels|
    requires LevelOf(kind, g.section) == Some(levels[k]) && LastIn(globals, g.section) == Some(g)
    ensures |groups| == |levels| && g in groups[k]
  {
    hide LevelOf, LastIn;
    assert IsGroup(kind, globals, levels[k], groups[k]);
    GroupElements(kind, globals, levels[k], groups[k]);
    assert InGroup(kind, globals, levels[k], g);
  }

  lemma StartsAt(groups: seq<seq<Global>>, indices: seq<nat>, k: nat)
    requires Starts(indices, groups) && k < |groups|
    ensures k < |indices| && indices[k] == |Flatten(groups[..k])|
  {
  }

  lemma {:induction false} InPlace(groups: seq<seq<Global>>, k: nat, j: nat)
    requires k < |groups| && j < |groups[k]|
    ensures |Flatten(groups[..k])| + j < |Flatten(groups[..k + 1])| <= |Flatten(groups)|
    ensures Flatten(groups)[|Flatten(groups[..k])| + j] == groups[k][j]
    decreases groups
  {
    var n := |groups| - 1;
    if k == n {
      assert groups[..n + 1] == groups;
    } else {
      assert groups[..n][..k] == groups[..k] && groups[..n][..k + 1] == groups[..k + 1];
      InPlace(groups[..n], k, j);
    }
  }

  /** So a global whose section starts with a native finder's match name and level is in
      the array between that level's start and the next. */
  lemma NativeCollected(conf: SectionTypeConfig, globals: seq<Global>, groups: seq<seq<Global>>, values: seq<Global>,
                        indices: seq<nat>, a: nat, i: nat, j: nat) returns (at: nat)
    requires IsArray(ZephyrNative(conf), globals, conf.initList, groups, values, indices) && a < |globals|
    requires j < |conf.initList|
    requires NativeAt(conf, globals[a].section, conf.initList[j], i, j)
    requires forall b | a < b < |globals| :: globals[b].section != globals[a].section
    ensures |indices| == |conf.initList| && indices[j] <= at < StartOr(indices, j + 1, |values|) && at < |values|
    ensures values[at] == globals[a]
  {
    NativeLevelExact(conf, globals[a].section, conf.initList[j]);
    at := CollectedBetween(ZephyrNative(conf), globals, conf.initList, groups, values, indices, j, a);
  }

  // ---- Names, types, elements ----

  /** The names of a native finder's array and symbols. A level's symbol is named after the
      level if no level listed earlier is a prefix of it. */
  lemma NativeNames(conf: SectionTypeConfig, j: nat)
    ensures AreaName(ZephyrNative(conf)) == conf.sectionName
    ensures StartName(ZephyrNative(conf)) == conf.startPrefix + conf.startPostfix
    ensures EndName(ZephyrNative(conf)) == conf.endPrefix + conf.endPostfix
    ensures j < |conf.initList| && (forall k | 0 <= k < j :: !(conf.initList[k] <= conf.initList[j])) ==>
              LevelName(ZephyrNative(conf), conf.initList[j]) == conf.namePrefix + conf.initList[j] + conf.namePostfix
  {
    if j < |conf.initList| && forall k | 0 <= k < j :: !(conf.initList[k] <= conf.initList[j]) {
      assert FirstAt(conf.initList, j, conf.initList[j]);
      FirstPrefixExact(conf.initList, conf.initList[j], conf.initList[j]);
    }
  }

  lemma StaticNames(o: string, l: string)
    ensures AreaName(ZephyrStatic(o)) == o + "_area"
    ensures StartName(ZephyrStatic(o)) == "_" + o + "_list_start" && EndName(ZephyrStatic(o)) == "_" + o + "_list_end"
    ensures LevelName(ZephyrStatic(o), l) == l + "_area"
  {
  }

  /** No other names are emitted: the start symbol of an array with levels, the end symbol,
      and one name for each level that has a name. */
  lemma NamesEmitted(kind: SectionKind, levels: seq<string>, indices: seq<nat>, n: nat, s: string)
    requires |levels| == |indices|
    ensures FirstEmission(Emissions(kind, levels, indices, n), s).Some? <==>
            || (s == StartName(kind) && levels != []) || s == EndName(kind)
            || exists j :: 0 <= j < |levels| && levels[j] != "" && LevelName(kind, levels[j]) == s
  {
    hide StartName, EndName, LevelName, FirstEmission;
    var level, end := LevelEmissions(kind, levels, indices), [Emission(EndName(kind), n + 1)];
    LevelNamesEmitted(kind, levels, indices, s);
    OneEmission(end[0], s);
    if levels != [] {
      var start := [Emission(StartName(kind), indices[0])];
      OneEmission(start[0], s);
      FirstOfBoth(start, level, s);
      FirstOfBoth(start + level, end, s);
    } else {
      assert Emissions(kind, levels, indices, n) == level + end;
      FirstOfBoth(level, end, s);
    }
  }

  lemma {:induction false} LevelNamesEmitted(kind: SectionKind, levels: seq<string>, indices: seq<nat>, s: string)
    requires |levels| == |indices|
    ensures FirstEmission(LevelEmissions(kind, levels, indices), s).Some? <==>
            exists j :: 0 <= j < |levels| && levels[j] != "" && LevelName(kind, levels[j]) == s
    decreases levels
  {
    if levels != [] {
      hide LevelName, FirstEmission, LevelEmissions;
      var k := |levels| - 1;
      LevelNamesEmitted(kind, levels[..k], indices[..k], s);
      OneMoreLevel(kind, levels, indices, s);
      OneMoreName(kind, levels, s);
    }
  }

  lemma OneMoreName(kind: SectionKind, levels: seq<string>, s: string)
    requires levels != []
    ensures var front, last := levels[..|levels| - 1], levels[|levels| - 1];
            (exists j :: 0 <= j < |levels| && levels[j] != "" && LevelName(kind, levels[j]) == s) <==>
            || (last != "" && LevelName(kind, last) == s)
            || exists j :: 0 <= j < |front| && front[j] != "" && LevelName(kind, front[j]) == s
  {
    hide LevelName;
    var k := |levels| - 1;
    if j :| 0 <= j < k && levels[..k][j] != "" && LevelName(kind, levels[..k][j]) == s {
      assert levels[j] == levels[..k][j];
    }
    if j :| 0 <= j <= k && levels[j] != "" && LevelName(kind, levels[j]) == s {
      if j < k { assert levels[..k][j] == levels[j]; }
    }
  }

  /** A declared start symbol can always be made an alias, since it decides the element
      type; without it a declared end symbol can; without both the first global is in the
      array with its initialiser. */
  lemma ElementTypeSuits(declared: map<string, ValueType>, kind: SectionKind, values: seq<Global>, fallback: ValueType)
    ensures var ty := AreaType(declared, kind, values, fallback);
            && (StartName(kind) in declared ==> Aliasable(declared[StartName(kind)], ty))
            && (StartName(kind) !in declared && EndName(kind) in declared ==> Aliasable(declared[EndName(kind)], ty))
            && (StartName(kind) !in declared && EndName(kind) !in declared ==>
                  ty == if values == [] then fallback else values[0].ty)
  {
  }

  /** The element at each position is the initialiser of the global there, null if its type
      is another one. */
  lemma AreaElement(a: Area, c: Section, declared: map<string, ValueType>, fallback: ValueType, i: nat)
    requires IsAreaOf(a, c, declared, fallback) && i < |Flatten(c.groups)|
    ensures |a.elements| == |Flatten(c.groups)|
    ensures Flatten(c.groups)[i].ty == a.ty ==> a.elements[i] == Init(Flatten(c.groups)[i].init)
    ensures Flatten(c.groups)[i].ty != a.ty ==> a.elements[i] == Null
  {
  }
}
