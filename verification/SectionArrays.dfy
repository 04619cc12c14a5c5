// Emulating the linker script: the array of each section kind and the symbols into it.
module SectionArrays {
  import opened Common
  import opened LinkerSections

  /** A symbol made by a constant GEP into the array: `first` counts whole arrays,
      `second` elements. */
  datatype Symbol = Symbol(area: string, first: nat, second: nat)

  /** The element a symbol points at in an array of `n` elements. */
  function Flat(s: Symbol, n: nat): nat {
    s.first * n + s.second
  }

  datatype Element = Init(init: nat) | Null

  datatype Area = Area(name: string, ty: ValueType, elements: seq<Element>)

  function ElementOf(ty: ValueType, g: Global): Element {
    if g.ty == ty then Init(g.init) else Null
  }

  /** An array element: the initialiser of its global, null if the types differ. */
  function Elements(ty: ValueType, gs: seq<Global>): (r: seq<Element>)
    ensures |r| == |gs| && forall i | 0 <= i < |r| :: r[i] == ElementOf(ty, gs[i])
  {
    seq(|gs|, i requires 0 <= i < |gs| => ElementOf(ty, gs[i]))
  }

  // ---- Symbol names ----

  function AreaName(kind: SectionKind): string {
    match kind
    case ZephyrNative(conf) => conf.sectionName
    case ZephyrStatic(o) => o + "_area"
  }

  function StartName(kind: SectionKind): string {
    match kind
    case ZephyrNative(conf) => conf.startPrefix + conf.startPostfix
    case ZephyrStatic(o) => "_" + o + "_list_start"
  }

  function EndName(kind: SectionKind): string {
    match kind
    case ZephyrNative(conf) => conf.endPrefix + conf.endPostfix
    case ZephyrStatic(o) => "_" + o + "_list_end"
  }

  /** The symbol of a level; the level is looked up once more by prefix. */
  function LevelName(kind: SectionKind, level: string): string {
    match kind
    case ZephyrNative(conf) =>
      conf.namePrefix + FirstPrefix(conf.initList, level).GetOr(level) + conf.namePostfix
    case ZephyrStatic(_) => level + "_area"
  }

  // ---- The symbols of one array ----

  /** A symbol to be set up, with the element it is to point at. */
  datatype Emission = Emission(name: string, offset: nat)

  function LevelEmissions(kind: SectionKind, levels: seq<string>, indices: seq<nat>): seq<Emission>
    requires |levels| == |indices|
  {
    if levels == [] then [] else
    var k := |levels| - 1;
    LevelEmissions(kind, levels[..k], indices[..k]) +
      (if levels[k] == "" then [] else [Emission(LevelName(kind, levels[k]), indices[k])])
  }

  function StartEmission(kind: SectionKind, indices: seq<nat>): seq<Emission> {
    if indices == [] then [] else [Emission(StartName(kind), indices[0])]
  }

  /** All symbols of the array, in the order they are set up. */
  function Emissions(kind: SectionKind, levels: seq<string>, indices: seq<nat>, n: nat): seq<Emission>
    requires |levels| == |indices|
  {
    StartEmission(kind, indices) + LevelEmissions(kind, levels, indices) + [Emission(EndName(kind), n + 1)]
  }

  /** The first emission under a name. */
  function FirstEmission(es: seq<Emission>, name: string): (r: Option<nat>)
    ensures r.Some? ==> exists e :: e in es && e.name == name && e.offset == r.value
    ensures r.None? ==> forall e | e in es :: e.name != name
  {
    if es == [] then None else
    var r := FirstEmission(es[..|es| - 1], name);
    assert forall e | e in es :: e in es[..|es| - 1] || e == es[|es| - 1];
    if r.Some? then r else if es[|es| - 1].name == name then Some(es[|es| - 1].offset) else None
  }

  lemma {:induction false} FirstOfBoth(a: seq<Emission>, b: seq<Emission>, name: string)
    ensures FirstEmission(a + b, name) ==
            if FirstEmission(a, name).Some? then FirstEmission(a, name) else FirstEmission(b, name)
    decreases b
  {
    if b == [] {
      assert a + b == a;
    } else {
      assert (a + b)[..|a + b| - 1] == a + b[..|b| - 1];
      FirstOfBoth(a, b[..|b| - 1], name);
    }
  }

  /** The name `s` after its first emission `r`: a declared name has become a symbol for
      it; without an emission nothing has changed. */
  ghost predicate EmittedAs(before: map<string, ValueType>, symbols: map<string, Symbol>, r: Option<nat>,
                            area: string, n: nat, declared: map<string, ValueType>, symbols': map<string, Symbol>,
                            s: string) {
    if s in before && r.Some? then
      s !in declared && s in symbols' && symbols'[s].area == area && Flat(symbols'[s], n) == r.value
    else
      && (s in declared <==> s in before) && (s in before ==> declared[s] == before[s])
      && (s in symbols' <==> s in symbols) && (s in symbols ==> symbols'[s] == symbols[s])
  }

  ghost predicate Emitted(before: map<string, ValueType>, symbols: map<string, Symbol>, es: seq<Emission>,
                          area: string, n: nat, declared: map<string, ValueType>, symbols': map<string, Symbol>) {
    forall s :: EmittedAs(before, symbols, FirstEmission(es, s), area, n, declared, symbols', s)
  }

  lemma OneEmission(e: Emission, name: string)
    ensures FirstEmission([e], name) == if e.name == name then Some(e.offset) else None
  {
    assert [e][..0] == [];
  }

  /** The last level's symbol counts only if no earlier level has its name. */
  lemma OneMoreLevel(kind: SectionKind, levels: seq<string>, indices: seq<nat>, name: string)
    requires |levels| == |indices| && levels != []
    ensures var n := |levels| - 1;
            var front := FirstEmission(LevelEmissions(kind, levels[..n], indices[..n]), name);
            FirstEmission(LevelEmissions(kind, levels, indices), name) ==
              if front.Some? then front
              else if levels[n] != "" && LevelName(kind, levels[n]) == name then Some(indices[n])
              else None
  {
    hide LevelName, FirstEmission;
    var n := |levels| - 1;
    var front := LevelEmissions(kind, levels[..n], indices[..n]);
    if levels[n] == "" {
      assert front + [] == front;
    } else {
      OneEmission(Emission(LevelName(kind, levels[n]), indices[n]), name);
      FirstOfBoth(front, [Emission(LevelName(kind, levels[n]), indices[n])], name);
    }
  }

  lemma {:induction false} LevelEmission(kind: SectionKind, levels: seq<string>, indices: seq<nat>, k: nat)
    requires |levels| == |indices| && k < |levels| && levels[k] != ""
    requires forall j | 0 <= j < k && levels[j] != "" :: LevelName(kind, levels[j]) != LevelName(kind, levels[k])
    ensures FirstEmission(LevelEmissions(kind, levels, indices), LevelName(kind, levels[k])) == Some(indices[k])
    decreases levels
  {
    hide LevelName, FirstEmission, LevelEmissions;
    var n := |levels| - 1;
    OneMoreLevel(kind, levels, indices, LevelName(kind, levels[k]));
    if k < n {
      assert levels[..n][k] == levels[k];
      LevelEmission(kind, levels[..n], indices[..n], k);
    } else {
      NoLevelEmission(kind, levels[..n], indices[..n], LevelName(kind, levels[k]));
    }
  }

  lemma {:induction false} NoLevelEmission(kind: SectionKind, levels: seq<string>, indices: seq<nat>, name: string)
    requires |levels| == |indices|
    requires forall j | 0 <= j < |levels| && levels[j] != "" :: LevelName(kind, levels[j]) != name
    ensures FirstEmission(LevelEmissions(kind, levels, indices), name) == None
    decreases levels
  {
    if levels != [] {
      var n := |levels| - 1;
      NoLevelEmission(kind, levels[..n], indices[..n], name);
      OneMoreLevel(kind, levels, indices, name);
    }
  }

  /** Unless an earlier symbol has its name, a level's symbol points at `indices[k]`. */
  lemma LevelSymbol(kind: SectionKind, levels: seq<string>, indices: seq<nat>, n: nat, k: nat)
    requires |levels| == |indices| && k < |levels| && levels[k] != ""
    requires StartName(kind) != LevelName(kind, levels[k])
    requires forall j | 0 <= j < k && levels[j] != "" :: LevelName(kind, levels[j]) != LevelName(kind, levels[k])
    ensures FirstEmission(Emissions(kind, levels, indices, n), LevelName(kind, levels[k])) == Some(indices[k])
  {
    var name := LevelName(kind, levels[k]);
    var start := [Emission(StartName(kind), indices[0])];
    var level := LevelEmissions(kind, levels, indices);
    LevelEmission(kind, levels, indices, k);
    OneEmission(start[0], name);
    FirstOfBoth(start, level, name);
    FirstOfBoth(start + level, [Emission(EndName(kind), n + 1)], name);
  }

  /** The start symbol points at the first element, and unless the end symbol shares its
      name with another, it points one past the end and one more: the distance between
      the two is one more than the number of elements. */
  lemma StartAndEnd(kind: SectionKind, levels: seq<string>, indices: seq<nat>, n: nat)
    requires |levels| == |indices|
    ensures levels != [] ==> FirstEmission(Emissions(kind, levels, indices, n), StartName(kind)) == Some(indices[0])
    ensures (levels != [] ==> StartName(kind) != EndName(kind)) &&
            (forall j | 0 <= j < |levels| && levels[j] != "" :: LevelName(kind, levels[j]) != EndName(kind)) ==>
            FirstEmission(Emissions(kind, levels, indices, n), EndName(kind)) == Some(n + 1)
  {
    var start := if indices == [] then [] else [Emission(StartName(kind), indices[0])];
    var level := LevelEmissions(kind, levels, indices);
    var end := [Emission(EndName(kind), n + 1)];
    OneEmission(end[0], EndName(kind));
    if start != [] {
      OneEmission(start[0], StartName(kind));
      OneEmission(start[0], EndName(kind));
    }
    FirstOfBoth(start, level, StartName(kind));
    FirstOfBoth(start + level, end, StartName(kind));
    FirstOfBoth(start, level, EndName(kind));
    FirstOfBoth(start + level, end, EndName(kind));
    if forall j | 0 <= j < |levels| && levels[j] != "" :: LevelName(kind, levels[j]) != EndName(kind) {
      NoLevelEmission(kind, levels, indices, EndName(kind));
    }
  }

  lemma NothingEmitted(before: map<string, ValueType>, symbols: map<string, Symbol>, area: string, n: nat)
    ensures Emitted(before, symbols, [], area, n, before, symbols)
  {
  }

  function ElementOfType(ty: ValueType): ValueType {
    if ty.ArrayType? then ty.element else ty
  }

  /** What the program declares decides the element type: the start symbol first, then
      the end symbol; else the first global does. */
  function AreaType(declared: map<string, ValueType>, kind: SectionKind, values: seq<Global>,
                    fallback: ValueType): ValueType {
    if StartName(kind) in declared then ElementOfType(declared[StartName(kind)])
    else if EndName(kind) in declared then ElementOfType(declared[EndName(kind)])
    else if values != [] then values[0].ty
    else fallback
  }

  /** An alias for a declared variable can be made in an array of `ty`; otherwise the
      source goes on with a null pointer. */
  predicate Aliasable(declared: ValueType, ty: ValueType) {
    declared == ty || declared.ArrayType?
  }

  /** Every declared name that is emitted can be made an alias. */
  ghost predicate AllAliasable(declared: map<string, ValueType>, es: seq<Emission>, ty: ValueType) {
    forall s | s in declared && FirstEmission(es, s).Some? :: Aliasable(declared[s], ty)
  }

  lemma MoreAliases(declared: map<string, ValueType>, a: seq<Emission>, b: seq<Emission>, ty: ValueType)
    ensures AllAliasable(declared, a + b, ty) ==> AllAliasable(declared, a, ty)
  {
    hide FirstEmission, Aliasable;
    forall s | s in declared && FirstEmission(a, s).Some?
      ensures FirstEmission(a + b, s).Some?
    {
      FirstOfBoth(a, b, s);
    }
  }

  lemma NextLevel(kind: SectionKind, levels: seq<string>, indices: seq<nat>, k: nat)
    requires |levels| == |indices| && k < |levels|
    ensures LevelEmissions(kind, levels[..k + 1], indices[..k + 1]) ==
            LevelEmissions(kind, levels[..k], indices[..k]) +
              (if levels[k] == "" then [] else [Emission(LevelName(kind, levels[k]), indices[k])])
  {
    hide LevelName;
    assert levels[..k + 1][..k] == levels[..k] && indices[..k + 1][..k] == indices[..k];
  }

  /** The levels emitted so far come first. */
  lemma {:induction false} LevelPrefix(kind: SectionKind, levels: seq<string>, indices: seq<nat>, k: nat)
      returns (rest: seq<Emission>)
    requires |levels| == |indices| && k <= |levels|
    ensures LevelEmissions(kind, levels, indices) == LevelEmissions(kind, levels[..k], indices[..k]) + rest
    decreases levels
  {
    var n := |levels| - 1;
    if k > n {
      assert levels[..k] == levels && indices[..k] == indices;
      rest := [];
    } else {
      assert levels[..n][..k] == levels[..k] && indices[..n][..k] == indices[..k];
      var front := LevelPrefix(kind, levels[..n], indices[..n], k);
      rest := front + (if levels[n] == "" then [] else [Emission(LevelName(kind, levels[n]), indices[n])]);
    }
  }

  class LinkerModule {
    const globals: seq<Global>
    /** External variables the program declares and nobody defines yet. */
    var declared: map<string, ValueType>
    var symbols: map<string, Symbol>
    var areas: seq<Area>

    constructor (globals: seq<Global>, declared: map<string, ValueType>)
      ensures this.globals == globals && this.declared == declared && symbols == map[] && areas == []
    {
      this.globals, this.declared, symbols, areas := globals, declared, map[], [];
    }

    /** Set up one symbol, if the program declares it. The end of the array is spelled as
        the start of the next one. False is the crash on a declared variable that is
        neither of the element type nor an array. */
    method EmitOffset(name: string, area: string, ty: ValueType, n: nat, offset1: nat) returns (ok: bool)
      modifies this`declared, this`symbols
      ensures ok <==> name !in old(declared) || old(declared)[name] == ty || old(declared)[name].ArrayType?
      ensures if ok && name in old(declared) then
                && declared == old(declared) - {name}
                && name in symbols && symbols == old(symbols)[name := symbols[name]]
                && symbols[name].area == area && Flat(symbols[name], n) == offset1
                && (symbols[name].first == 1 && symbols[name].second == 0 <==> n != 0 && offset1 == n)
              else declared == old(declared) && symbols == old(symbols)
    {
      var first, second := 0, offset1;
      if n != 0 && second == n {
        first, second := 1, 0;
      }
      if name in declared {
        if declared[name] != ty && !declared[name].ArrayType? { return false; }
        symbols := symbols[name := Symbol(area, first, second)];
        declared := declared - {name};
      }
      return true;
    }

    /** One more symbol. */
    method EmitNext(ghost before: map<string, ValueType>, ghost was: map<string, Symbol>, ghost es: seq<Emission>,
                    name: string, area: string, ty: ValueType, n: nat, offset1: nat) returns (ok: bool)
      requires Emitted(before, was, es, area, n, declared, symbols) && AllAliasable(before, es, ty)
      modifies this`declared, this`symbols
      ensures ok <==> AllAliasable(before, es + [Emission(name, offset1)], ty)
      ensures ok ==> Emitted(before, was, es + [Emission(name, offset1)], area, n, declared, symbols)
    {
      hide FirstEmission, Flat;
      ghost var d, y := declared, symbols;
      OneMoreAlias(before, was, es, Emission(name, offset1), area, ty, n, d, y);
      ok := EmitOffset(name, area, ty, n, offset1);
      if !ok { return; }
      forall s
        ensures EmittedAs(before, was, FirstEmission(es + [Emission(name, offset1)], s), area, n, declared, symbols, s)
      {
        assert EmittedAs(before, was, FirstEmission(es, s), area, n, d, y, s);
        FirstOfBoth(es, [Emission(name, offset1)], s);
        OneEmission(Emission(name, offset1), s);
      }
    }

    // ---- Collecting ----

    /** The loop over the globals: group them by level, and within a level by section
        name; in `list` the levels grow. */
    method Group(kind: SectionKind) returns (gvs: map<string, map<string, Global>>, list: seq<string>)
      ensures list == Levels(kind, globals)
      ensures Grouping(kind, globals, gvs)
    {
      gvs, list := map[], InitialLevels(kind);
      for i := 0 to |globals|
        invariant list == Levels(kind, globals[..i]) && Grouping(kind, globals[..i], gvs)
      {
        hide Matched;
        var g := globals[i];
        assert globals[..i + 1][..i] == globals[..i];
        OneMoreGlobal(kind, globals[..i + 1], gvs);
        if g.section != "" {
          var sec := Matched(kind, g.section);
          if sec.Some? {
            var level := LevelOf(kind, g.section);
            if level.Some? {
              var group := if level.value in gvs then gvs[level.value] else map[];
              gvs := gvs[level.value := group[g.section := g]];
              if level.value !in list { list := list + [level.value]; }
            }
          }
        }
      }
      assert globals[..|globals|] == globals;
    }

    /** The loop over the levels: the concatenation of the sorted groups, and where each
        one starts. */
    method Concatenate(kind: SectionKind, gvs: map<string, map<string, Global>>, list: seq<string>)
      returns (values: seq<Global>, indices: seq<nat>)
      requires Grouping(kind, globals, gvs)
      ensures exists groups :: IsArray(kind, globals, list, groups, values, indices)
    {
      ghost var groups := [];
      values, indices := [], [];
      assert list[..0] == [];
      for k := 0 to |list|
        invariant AreGroups(kind, globals, list[..k], groups) && values == Flatten(groups)
        invariant Starts(indices, groups)
      {
        hide IsGroup, Grouping, Flatten, Starts, AreGroups;
        var group := SortedGroup(kind, gvs, list[k]);
        GroupAppended(groups, group, indices);
        LevelAppended(kind, globals, list[..k], groups, list[k], group);
        indices := indices + [|values|];
        values, groups := values + group, groups + [group];
        assert list[..k + 1] == list[..k] + [list[k]];
      }
      assert list[..|list|] == list;
      assert IsArray(kind, globals, list, groups, values, indices);
    }

    method SortedGroup(kind: SectionKind, gvs: map<string, map<string, Global>>, level: string)
        returns (group: seq<Global>)
      requires Grouping(kind, globals, gvs)
      ensures IsGroup(kind, globals, level, group)
    {
      group := [];
      var members := if level in gvs then gvs[level] else map[];
      var keys := SortedKeys(members.Keys);
      group := seq(|keys|, i requires 0 <= i < |keys| => assert keys[i] in keys; members[keys[i]]);
      forall i | 0 <= i < |keys|
        ensures group[i].section == keys[i] && InGroup(kind, globals, level, group[i])
      {
        assert keys[i] in keys;
      }
      assert Sections(group) == keys;
      forall g | g in globals && LevelOf(kind, g.section) == Some(level)
        ensures g.section in Sections(group)
      {
        assert LastIn(globals, g.section).Some?;
      }
    }

    /** The element type: that of the declared start or end symbol, else of the first
        element, else a default. */
    method ElementType(kind: SectionKind, values: seq<Global>, fallback: ValueType) returns (ty: ValueType)
      ensures ty == AreaType(declared, kind, values, fallback)
    {
      var name := if StartName(kind) in declared then StartName(kind) else EndName(kind);
      if name in declared {
        ty := if declared[name].ArrayType? then declared[name].element else declared[name];
      } else if values != [] {
        ty := values[0].ty;
      } else {
        ty := fallback;
      }
    }

    /** One kind of section: its array is the concatenation over the levels, in order, of
        the level's globals sorted by section name, and its symbols point at the first
        position of their level, the end symbol one past the end and one more. */
    method CollectSection(kind: SectionKind, fallback: ValueType)
      returns (ok: bool, ghost groups: seq<seq<Global>>, ghost indices: seq<nat>)
      modifies this
      ensures AreGroups(kind, globals, Levels(kind, globals), groups)
      ensures Starts(indices, groups)
      ensures |areas| == |old(areas)| + 1 && areas[..|old(areas)|] == old(areas)
      ensures var a := areas[|old(areas)|];
              && a.name == AreaName(kind) && a.elements == Elements(a.ty, Flatten(groups))
              && a.ty == AreaType(old(declared), kind, Flatten(groups), fallback)
      ensures ok <==> AllAliasable(old(declared), Emissions(kind, Levels(kind, globals), indices, |Flatten(groups)|),
                                   areas[|old(areas)|].ty)
      ensures ok ==>
              Emitted(old(declared), old(symbols), Emissions(kind, Levels(kind, globals), indices, |Flatten(groups)|),
                      AreaName(kind), |Flatten(groups)|, declared, symbols)
    {
      hide Grouping, Emitted, AllAliasable, AreaType, Elements, Emissions, AreGroups, Starts, Flatten, Levels, AreaName,
           IsArray;
      var gvs, list := Group(kind);
      var values, at := Concatenate(kind, gvs, list);
      groups :| IsArray(kind, globals, list, groups, values, at);
      ArrayParts(kind, globals, list, groups, values, at);
      indices := at;
      var ty := ElementType(kind, values, fallback);
      areas := areas + [Area(AreaName(kind), ty, Elements(ty, values))];
      ok := EmitAll(kind, list, at, ty, |values|);
    }

    /** All sections, one finder after the other: one array for each. A declared name
        becomes the symbol of the first finder that emits it; a name none of them emits
        stays as it was. False is the crash, at the last of the sections: one of its names
        is declared and cannot be made an alias. */
    method CollectLinkerScriptSections(finders: seq<SectionKind>, fallback: ValueType)
        returns (ok: bool, ghost secs: seq<Section>)
      modifies this
      ensures |areas| == |old(areas)| + |secs| && areas[..|old(areas)|] == old(areas)
      ensures AreCollected(areas[|old(areas)|..], finders, secs, globals, old(declared), fallback)
      ensures ok ==> |secs| == |finders| && AllFit(areas[|old(areas)|..], secs, old(declared), |secs|)
      ensures ok ==> EmittedBy(old(declared), old(symbols), secs, declared, symbols)
      ensures !ok ==>
                && secs != [] && AllFit(areas[|old(areas)|..], secs, old(declared), |secs| - 1)
                && !Fits(areas[|old(areas)|..], secs, old(declared), |secs| - 1)
    {
      secs := [];
      ghost var before, was, start := declared, symbols, |areas|;
      NobodyEmitted(before, was);
      NothingCollected(finders, globals, before, fallback);
      hide EmittedBy, IsSection, IsAreaOf, StillDeclared, AreCollected, AllFit, Fits, AllAliasable;
      assert areas[start..] == [];
      for k := 0 to |finders|
        invariant |areas| == start + k && areas[..start] == old(areas) && |secs| == k
        invariant AreCollected(areas[start..], finders, secs, globals, before, fallback)
        invariant |areas[start..]| == k && AllFit(areas[start..], secs, before, k)
        invariant EmittedBy(before, was, secs, declared, symbols)
      {
        ghost var all := areas;
        ghost var c;
        ok, c := CollectNext(finders[k], fallback, before, was, secs);
        assert areas == all + [areas[|all|]];
        assert areas[start..] == all[start..] + [areas[|all|]];
        OneMoreCollected(all[start..], finders, secs, globals, before, fallback, areas[|all|], c);
        OneMoreFits(all[start..], secs, before, areas[|all|], c);
        secs := secs + [c];
        if !ok { return; }
        FitOneMore(areas[start..], secs, before, k);
      }
      ok := true;
    }

    /** One more section. */
    method CollectNext(kind: SectionKind, fallback: ValueType, ghost before: map<string, ValueType>,
                       ghost was: map<string, Symbol>, ghost secs: seq<Section>) returns (ok: bool, ghost c: Section)
      requires EmittedBy(before, was, secs, declared, symbols)
      modifies this
      ensures |areas| == |old(areas)| + 1 && areas[..|old(areas)|] == old(areas)
      ensures c.kind == kind && IsSection(c, globals)
      ensures IsAreaOf(areas[|old(areas)|], c, StillDeclared(before, secs), fallback)
      ensures ok <==> AllAliasable(StillDeclared(before, secs), c.emissions, areas[|old(areas)|].ty)
      ensures ok ==> EmittedBy(before, was, secs + [c], declared, symbols)
    {
      hide Emitted, EmittedBy, AreGroups, Starts, Elements, AreaType, StillDeclared, Emissions, AllAliasable;
      ghost var d, y := declared, symbols;
      DeclaredIsStill(before, was, secs, d, y);
      ghost var groups, indices;
      ok, groups, indices := CollectSection(kind, fallback);
      LevelStarts(kind, globals, groups, indices);
      c := Section(kind, groups, indices, Emissions(kind, Levels(kind, globals), indices, |Flatten(groups)|));
      if ok { OneMoreSection(before, was, secs, c, d, y, declared, symbols); }
    }

    /** All symbols of one array. */
    method EmitAll(kind: SectionKind, list: seq<string>, at: seq<nat>, ty: ValueType, n: nat) returns (ok: bool)
      requires |at| == |list|
      modifies this`declared, this`symbols
      ensures ok <==> AllAliasable(old(declared), Emissions(kind, list, at, n), ty)
      ensures ok ==>
                Emitted(old(declared), old(symbols), Emissions(kind, list, at, n), AreaName(kind), n, declared, symbols)
    {
      hide Emitted, FirstEmission, LevelName, StartName, EndName, AreaName, AllAliasable;
      ghost var before, was, es := declared, symbols, [];
      NothingEmitted(before, was, AreaName(kind), n);
      NoAliases(before, ty);
      ok := true;
      if at != [] {
        ok := EmitNext(before, was, es, StartName(kind), AreaName(kind), ty, n, at[0]);
        es := es + [Emission(StartName(kind), at[0])];
      }
      ghost var head := es;
      if !ok {
        assert es == StartEmission(kind, at) + LevelEmissions(kind, list[..0], at[..0]);
        EmitFailed(before, kind, list, at, es, ty, n, 0);
        return;
      }
      for k := 0 to |list|
        invariant ok && es == head + LevelEmissions(kind, list[..k], at[..k]) && AllAliasable(before, es, ty)
        invariant Emitted(before, was, es, AreaName(kind), n, declared, symbols)
      {
        hide LevelEmissions, Emissions, StartEmission;
        NextLevel(kind, list, at, k);
        if list[k] != "" {
          ok := EmitNext(before, was, es, LevelName(kind, list[k]), AreaName(kind), ty, n, at[k]);
          es := es + [Emission(LevelName(kind, list[k]), at[k])];
          if !ok {
            assert es == StartEmission(kind, at) + LevelEmissions(kind, list[..k + 1], at[..k + 1]);
            EmitFailed(before, kind, list, at, es, ty, n, k + 1);
            return;
          }
        }
      }
      assert list[..|list|] == list && at[..|list|] == at;
      assert Emissions(kind, list, at, n) == es + [Emission(EndName(kind), n + 1)];
      ok := EmitNext(before, was, es, EndName(kind), AreaName(kind), ty, n, n + 1);
    }
  }

  lemma NoAliases(declared: map<string, ValueType>, ty: ValueType)
    ensures AllAliasable(declared, [], ty)
  {
  }

  /** The next name is among the declared ones only if no earlier symbol took it. */
  lemma OneMoreAlias(before: map<string, ValueType>, was: map<string, Symbol>, es: seq<Emission>, e: Emission,
                     area: string, ty: ValueType, n: nat, declared: map<string, ValueType>,
                     symbols: map<string, Symbol>)
    requires Emitted(before, was, es, area, n, declared, symbols) && AllAliasable(before, es, ty)
    ensures AllAliasable(before, es + [e], ty) <==> (e.name in declared ==> Aliasable(declared[e.name], ty))
  {
    hide FirstEmission, Flat, Aliasable;
    forall s
      ensures FirstEmission(es + [e], s).Some? <==> FirstEmission(es, s).Some? || s == e.name
    {
      FirstOfBoth(es, [e], s);
      OneEmission(e, s);
    }
    assert EmittedAs(before, was, FirstEmission(es, e.name), area, n, declared, symbols, e.name);
  }

  /** A failure among the first symbols is one among all. */
  lemma EmitFailed(declared: map<string, ValueType>, kind: SectionKind, list: seq<string>, at: seq<nat>,
                   es: seq<Emission>, ty: ValueType, n: nat, k: nat)
    requires |at| == |list| && k <= |list|
    requires es == StartEmission(kind, at) + LevelEmissions(kind, list[..k], at[..k])
    requires !AllAliasable(declared, es, ty)
    ensures !AllAliasable(declared, Emissions(kind, list, at, n), ty)
  {
    hide AllAliasable, LevelEmissions, StartEmission, EndName;
    var end := [Emission(EndName(kind), n + 1)];
    var rest := LevelPrefix(kind, list, at, k);
    assert Emissions(kind, list, at, n) == es + (rest + end);
    MoreAliases(declared, es, rest + end, ty);
  }

  /** The nested maps hold the last global of every collected section, under its level. */
  ghost predicate Grouping(kind: SectionKind, globals: seq<Global>, gvs: map<string, map<string, Global>>) {
    && (forall l | l in gvs :: forall s | s in gvs[l] ::
          LevelOf(kind, s) == Some(l) && LastIn(globals, s) == Some(gvs[l][s]))
    && forall s | LastIn(globals, s).Some? && LevelOf(kind, s).Some? ::
          LevelOf(kind, s).value in gvs && s in gvs[LevelOf(kind, s).value]
  }

  /** `indices` are the positions at which the groups start in their concatenation. */
  ghost predicate Starts(indices: seq<nat>, groups: seq<seq<Global>>) {
    |indices| == |groups| && forall k | 0 <= k < |groups| :: indices[k] == |Flatten(groups[..k])|
  }

  /** `values` is the concatenation of the sorted groups of the levels, and `indices` say
      where each one starts. */
  ghost predicate IsArray(kind: SectionKind, globals: seq<Global>, levels: seq<string>, groups: seq<seq<Global>>,
                          values: seq<Global>, indices: seq<nat>) {
    AreGroups(kind, globals, levels, groups) && values == Flatten(groups) && Starts(indices, groups)
  }

  lemma ArrayParts(kind: SectionKind, globals: seq<Global>, levels: seq<string>, groups: seq<seq<Global>>,
                   values: seq<Global>, indices: seq<nat>)
    requires IsArray(kind, globals, levels, groups, values, indices)
    ensures AreGroups(kind, globals, levels, groups) && values == Flatten(groups) && Starts(indices, groups)
    ensures |indices| == |levels|
  {
  }

  lemma GroupAppended(groups: seq<seq<Global>>, group: seq<Global>, indices: seq<nat>)
    requires Starts(indices, groups)
    ensures Flatten(groups + [group]) == Flatten(groups) + group
    ensures Starts(indices + [|Flatten(groups)|], groups + [group])
  {
    var all := groups + [group];
    assert all[..|groups|] == groups;
    forall k | 0 <= k < |groups| ensures all[..k] == groups[..k] {
    }
  }

  lemma LevelAppended(kind: SectionKind, globals: seq<Global>, levels: seq<string>, groups: seq<seq<Global>>,
                      level: string, group: seq<Global>)
    requires AreGroups(kind, globals, levels, groups) && IsGroup(kind, globals, level, group)
    ensures AreGroups(kind, globals, levels + [level], groups + [group])
  {
    hide IsGroup;
  }

  lemma LastOfMore(globals: seq<Global>)
    requires globals != []
    ensures var g := globals[|globals| - 1];
            forall s :: LastIn(globals, s) == if g.section == s then Some(g) else LastIn(globals[..|globals| - 1], s)
  {
  }

  /** The next global is not collected, or takes the place of its section. */
  lemma OneMoreGlobal(kind: SectionKind, globals: seq<Global>, gvs: map<string, map<string, Global>>)
    requires globals != [] && Grouping(kind, globals[..|globals| - 1], gvs)
    ensures var g := globals[|globals| - 1];
            match LevelOf(kind, g.section)
            case None => Grouping(kind, globals, gvs)
            case Some(l) => Grouping(kind, globals, gvs[l := (if l in gvs then gvs[l] else map[])[g.section := g]])
  {
    hide LevelOf, LastIn;
    LastOfMore(globals);
    var g := globals[|globals| - 1];
    if LevelOf(kind, g.section).Some? { Regrouped(kind, globals, gvs, LevelOf(kind, g.section).value, g); }
  }

  lemma Regrouped(kind: SectionKind, globals: seq<Global>, gvs: map<string, map<string, Global>>, l: string, g: Global)
    requires globals != [] && Grouping(kind, globals[..|globals| - 1], gvs) && LevelOf(kind, g.section) == Some(l)
    requires forall s :: LastIn(globals, s) == if g.section == s then Some(g) else LastIn(globals[..|globals| - 1], s)
    ensures Grouping(kind, globals, gvs[l := (if l in gvs then gvs[l] else map[])[g.section := g]])
  {
    hide LevelOf, LastIn;
    var gvs' := gvs[l := (if l in gvs then gvs[l] else map[])[g.section := g]];
    forall m, s | m in gvs' && s in gvs'[m]
      ensures LevelOf(kind, s) == Some(m) && LastIn(globals, s) == Some(gvs'[m][s])
    {
      if s == g.section { assert LevelOf(kind, s) == Some(l); }
    }
    forall s | LastIn(globals, s).Some? && LevelOf(kind, s).Some?
      ensures LevelOf(kind, s).value in gvs' && s in gvs'[LevelOf(kind, s).value]
    {
    }
  }

  // ---- All finders together ----

  /** What one finder collects: the groups of its levels, where each starts in the array,
      and the symbols that are set up. */
  datatype Section = Section(kind: SectionKind, groups: seq<seq<Global>>, indices: seq<nat>, emissions: seq<Emission>)

  ghost predicate IsSection(c: Section, globals: seq<Global>) {
    && AreGroups(c.kind, globals, Levels(c.kind, globals), c.groups)
    && Starts(c.indices, c.groups) && |c.indices| == |Levels(c.kind, globals)|
    && c.emissions == Emissions(c.kind, Levels(c.kind, globals), c.indices, |Flatten(c.groups)|)
  }

  /** The array of the section; what is declared when it is collected decides its type. */
  ghost predicate IsAreaOf(a: Area, c: Section, declared: map<string, ValueType>, fallback: ValueType) {
    && a.name == AreaName(c.kind) && a.elements == Elements(a.ty, Flatten(c.groups))
    && a.ty == AreaType(declared, c.kind, Flatten(c.groups), fallback)
  }

  ghost predicate AreCollected(areas: seq<Area>, finders: seq<SectionKind>, secs: seq<Section>, globals: seq<Global>,
                               before: map<string, ValueType>, fallback: ValueType) {
    |areas| == |secs| <= |finders| && forall k | 0 <= k < |secs| ::
      && secs[k].kind == finders[k] && IsSection(secs[k], globals)
      && IsAreaOf(areas[k], secs[k], StillDeclared(before, secs[..k]), fallback)
  }

  lemma OneMoreCollected(areas: seq<Area>, finders: seq<SectionKind>, secs: seq<Section>, globals: seq<Global>,
                         before: map<string, ValueType>, fallback: ValueType, a: Area, c: Section)
    requires AreCollected(areas, finders, secs, globals, before, fallback) && |secs| < |finders|
    requires c.kind == finders[|secs|] && IsSection(c, globals)
    requires IsAreaOf(a, c, StillDeclared(before, secs), fallback)
    ensures AreCollected(areas + [a], finders, secs + [c], globals, before, fallback)
  {
    hide IsSection, IsAreaOf, StillDeclared;
    forall k | 0 <= k <= |secs| ensures (secs + [c])[..k] == secs[..k] {
    }
  }

  /** Everything the section emits can be made an alias, as far as it is still declared. */
  ghost predicate Fits(areas: seq<Area>, secs: seq<Section>, before: map<string, ValueType>, k: nat)
    requires k < |secs| == |areas|
  {
    AllAliasable(StillDeclared(before, secs[..k]), secs[k].emissions, areas[k].ty)
  }

  ghost predicate AllFit(areas: seq<Area>, secs: seq<Section>, before: map<string, ValueType>, n: nat)
    requires n <= |secs| == |areas|
  {
    forall k | 0 <= k < n :: Fits(areas, secs, before, k)
  }

  lemma FitOneMore(areas: seq<Area>, secs: seq<Section>, before: map<string, ValueType>, n: nat)
    requires n < |secs| == |areas| && AllFit(areas, secs, before, n) && Fits(areas, secs, before, n)
    ensures AllFit(areas, secs, before, n + 1)
  {
  }

  lemma NothingCollected(finders: seq<SectionKind>, globals: seq<Global>, before: map<string, ValueType>,
                         fallback: ValueType)
    ensures AreCollected([], finders, [], globals, before, fallback) && AllFit([], [], before, 0)
  {
  }

  lemma OneMoreFits(areas: seq<Area>, secs: seq<Section>, before: map<string, ValueType>, a: Area, c: Section)
    requires |areas| == |secs| && AllFit(areas, secs, before, |secs|)
    ensures AllFit(areas + [a], secs + [c], before, |secs|)
    ensures Fits(areas + [a], secs + [c], before, |secs|) <==>
            AllAliasable(StillDeclared(before, secs), c.emissions, a.ty)
  {
    hide AllAliasable, StillDeclared;
    assert (secs + [c])[..|secs|] == secs;
    forall k | 0 <= k < |secs|
      ensures Fits(areas + [a], secs + [c], before, k) == Fits(areas, secs, before, k)
    {
      assert (secs + [c])[..k] == secs[..k];
    }
  }

  /** The first finder that sets up a symbol under the name. */
  ghost function FirstEmitter(secs: seq<Section>, name: string): (r: Option<nat>)
    ensures r.Some? ==> r.value < |secs| && FirstEmission(secs[r.value].emissions, name).Some?
    ensures forall j | 0 <= j < (if r.Some? then r.value else |secs|) :: FirstEmission(secs[j].emissions, name).None?
  {
    if secs == [] then None else
    var n := |secs| - 1;
    var r := FirstEmitter(secs[..n], name);
    if r.Some? then r else if FirstEmission(secs[n].emissions, name).Some? then Some(n) else None
  }

  /** Each declared name has become the symbol of the first finder that sets it up. */
  ghost predicate EmittedBy(before: map<string, ValueType>, was: map<string, Symbol>, secs: seq<Section>,
                            declared: map<string, ValueType>, symbols: map<string, Symbol>) {
    forall s :: EmittedAmong(before, was, secs, declared, symbols, s)
  }

  ghost predicate EmittedAmong(before: map<string, ValueType>, was: map<string, Symbol>, secs: seq<Section>,
                               declared: map<string, ValueType>, symbols: map<string, Symbol>, s: string) {
    match FirstEmitter(secs, s)
    case None => EmittedAs(before, was, None, "", 0, declared, symbols, s)
    case Some(k) =>
      var c := secs[k];
      EmittedAs(before, was, FirstEmission(c.emissions, s), AreaName(c.kind), |Flatten(c.groups)|, declared, symbols, s)
  }

  /** The declarations that none of the finders has turned into a symbol. */
  ghost function StillDeclared(before: map<string, ValueType>, secs: seq<Section>): map<string, ValueType> {
    map s | s in before && FirstEmitter(secs, s).None? :: before[s]
  }

  lemma NobodyEmitted(before: map<string, ValueType>, was: map<string, Symbol>)
    ensures EmittedBy(before, was, [], before, was)
  {
  }

  lemma LevelStarts(kind: SectionKind, globals: seq<Global>, groups: seq<seq<Global>>, indices: seq<nat>)
    requires AreGroups(kind, globals, Levels(kind, globals), groups) && Starts(indices, groups)
    ensures |indices| == |Levels(kind, globals)|
  {
  }

  lemma DeclaredIsStill(before: map<string, ValueType>, was: map<string, Symbol>, secs: seq<Section>,
                        declared: map<string, ValueType>, symbols: map<string, Symbol>)
    requires EmittedBy(before, was, secs, declared, symbols)
    ensures declared == StillDeclared(before, secs)
  {
    hide FirstEmitter, FirstEmission, Flatten, AreaName, Flat;
    forall s
      ensures s in declared <==> s in before && FirstEmitter(secs, s).None?
      ensures s in declared ==> declared[s] == before[s]
    {
      assert EmittedAmong(before, was, secs, declared, symbols, s);
    }
  }

  lemma FirstEmitterOfMore(secs: seq<Section>, c: Section, name: string)
    ensures FirstEmitter(secs + [c], name) ==
            if FirstEmitter(secs, name).Some? then FirstEmitter(secs, name)
            else if FirstEmission(c.emissions, name).Some? then Some(|secs|) else None
  {
    assert (secs + [c])[..|secs|] == secs;
  }

  lemma OneMoreSection(before: map<string, ValueType>, was: map<string, Symbol>, secs: seq<Section>, c: Section,
                       d: map<string, ValueType>, y: map<string, Symbol>,
                       declared: map<string, ValueType>, symbols: map<string, Symbol>)
    requires EmittedBy(before, was, secs, d, y)
    requires Emitted(d, y, c.emissions, AreaName(c.kind), |Flatten(c.groups)|, declared, symbols)
    ensures EmittedBy(before, was, secs + [c], declared, symbols)
  {
    hide FirstEmitter, FirstEmission, Flatten, AreaName, Flat;
    forall s ensures EmittedAmong(before, was, secs + [c], declared, symbols, s) {
      FirstEmitterOfMore(secs, c, s);
      assert EmittedAmong(before, was, secs, d, y, s);
      assert EmittedAs(d, y, FirstEmission(c.emissions, s), AreaName(c.kind), |Flatten(c.groups)|,
                       declared, symbols, s);
    }
  }
}
