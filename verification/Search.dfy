// The exhaustive resolver: a depth-first search that carries the path walked so far
// and compares it with the wanted one at every node.
module Search {
  import opened Common
  import opened Decimal
  import opened DebugTypes
  import opened Resolver

  datatype Hit = Hit(basicType: string, bytes: nat, gep: seq<nat>)

  /** `Crashed` is a division by zero: the search divides by the recorded size of every
      array element it meets, and a typedef records none. */
  datatype SearchResult = Found(hit: Hit) | Missing | Crashed

  /** Nothing below makes the search divide by zero. */
  predicate SearchDefined(t: DIType)
    decreases t, 0
  {
    match t
    case Typedef(b) => SearchDefined(b)
    case Struct(ms) => forall m | m in ms :: SearchDefined(m.ty)
    case Union(ms) => forall m | m in ms :: SearchDefined(m.ty)
    case Array(e, _) => RecordedBits(e) > 0 && SearchDefined(e)
    case _ => true
  }

  /** A part of the type where the path already differs from the wanted one is searched
      all the same, and to the end. */
  function Explored(t: DIType): SearchResult {
    if SearchDefined(t) then Missing else Crashed
  }

  /** What the search makes of `t` once the path walked so far has been matched and
      `rest` is left of the wanted one. Arrays are first tried without an index. */
  function Dfs(t: DIType, rest: seq<string>): SearchResult
    decreases t, 0
  {
    match t
    case Basic(name, b, _) => if rest == [] then Found(Hit(name, b, [])) else Missing
    case Pointer(b, _) => if rest == [] then Found(Hit("PTR", b, [])) else Missing
    case Typedef(b) => Dfs(b, rest)
    case Struct(_) => DfsMembers(t, 0, rest)
    case Union(_) => DfsMembers(t, 0, rest)
    case Array(e, n) =>
      if RecordedBits(e) == 0 then Crashed else
      match Dfs(e, rest)
      case Found(h) => Found(if rest == [] then h.(bytes := h.bytes * n) else h)
      case Crashed => Crashed
      case Missing => DfsElements(t, 0, rest)
  }

  function Below(t: DIType, i: nat, r: SearchResult): SearchResult {
    match r
    case Found(h) => Found(h.(gep := [MemberIndex(t, i)] + h.gep))
    case _ => r
  }

  function DfsMember(t: DIType, i: nat, rest: seq<string>): SearchResult
    requires t.Record() && i < |t.members|
    decreases t.members, |t.members| - i, 0
  {
    var m := t.members[i];
    if m.name == "" then Below(t, i, Dfs(m.ty, rest))
    else if rest != [] && rest[0] == m.name then Below(t, i, Dfs(m.ty, rest[1..]))
    else Explored(m.ty)
  }

  function DfsMembers(t: DIType, i: nat, rest: seq<string>): SearchResult
    requires t.Record() && i <= |t.members|
    decreases t.members, |t.members| - i, 1
  {
    if i == |t.members| then Missing else
    var r := DfsMember(t, i, rest);
    if r.Missing? then DfsMembers(t, i + 1, rest) else r
  }

  function DfsElement(t: DIType, i: nat, rest: seq<string>): SearchResult
    requires t.Array? && i < t.count
    decreases t.elem, t.count - i, 0
  {
    if rest != [] && rest[0] == ToString(i) then Below(t, i, Dfs(t.elem, rest[1..])) else Explored(t.elem)
  }

  function DfsElements(t: DIType, i: nat, rest: seq<string>): SearchResult
    requires t.Array? && i <= t.count
    decreases t.elem, t.count - i, 1
  {
    if i == t.count then Missing else
    var r := DfsElement(t, i, rest);
    if r.Missing? then DfsElements(t, i + 1, rest) else r
  }

  function Reverse(s: seq<nat>): (r: seq<nat>)
    ensures |r| == |s|
  {
    if s == [] then [] else Reverse(s[1..]) + [s[0]]
  }

  lemma {:induction false} ReverseTwice(s: seq<nat>)
    ensures Reverse(Reverse(s)) == s
  {
    if s != [] {
      ReverseTwice(s[1..]);
      ReverseAppend(Reverse(s[1..]), s[0]);
    }
  }

  lemma {:induction false} ReverseAppend(s: seq<nat>, x: nat)
    ensures Reverse(s + [x]) == [x] + Reverse(s)
  {
    if s != [] {
      assert (s + [x])[1..] == s[1..] + [x];
      ReverseAppend(s[1..], x);
    }
  }

  /** How many elements the array has, from the recorded sizes. */
  function ArrayCount(t: DIType): (r: Option<nat>)
    requires t.Array?
    ensures r == if RecordedBits(t.elem) == 0 then None else Some(t.count)
  {
    if RecordedBits(t.elem) == 0 then None else
    assert 8 * Size(t) / RecordedBits(t.elem) == t.count by { CountExact(Size(t.elem), t.count); }
    Some(8 * Size(t) / RecordedBits(t.elem))
  }

  lemma CountExact(s: nat, n: nat)
    requires s > 0
    ensures 8 * (n * s) / (8 * s) == n
  {
    assert 8 * (n * s) == n * (8 * s);
    DivModUnique(8 * (n * s), 8 * s, n, 0);
  }

  // ---- The search as the code runs it ----

  /** The outcome at `t` when `path` has been walked. */
  function ResultAt(t: DIType, path: seq<string>, needle: seq<string>): SearchResult {
    if path <= needle then Dfs(t, needle[|path|..]) else Explored(t)
  }

  /** What the search returns; `None` stands for the crash. */
  function Answer(r: SearchResult): Option<bool> {
    match r
    case Found(_) => Some(true)
    case Missing => Some(false)
    case Crashed => None
  }

  /** The record the search fills in as it goes; `gep` is collected innermost first. */
  class SearchInfo {
    var basicType: string
    var bits: nat
    var bytes: nat
    var gep: seq<nat>

    constructor ()
      ensures basicType == "unknown" && bits == bytes == 0xffff_ffff && gep == []
    {
      basicType, bits, bytes, gep := "unknown", 0xffff_ffff, 0xffff_ffff, [];
    }

    /** The fields after a successful search that started with `before` collected. */
    ghost predicate Holds(h: Hit, before: seq<nat>)
      reads this
    {
      && basicType == h.basicType
      && bytes == h.bytes
      && bits == 8 * h.bytes
      && gep == before + Reverse(h.gep)
    }

    /** A successful search leaves its hit in the record; a failed one leaves the
        collected indices alone. */
    method ProcessElement(t: DIType, path: seq<string>, needle: seq<string>) returns (found: Option<bool>)
      modifies this
      ensures found == Answer(ResultAt(t, path, needle))
      ensures found == Some(true) ==> Holds(ResultAt(t, path, needle).hit, old(gep))
      ensures found == Some(false) ==> gep == old(gep)
      decreases t, 1
    {
      var here := needle == path;
      ElementSearched(t, path, needle);
      hide Dfs, Explored, ResultAt, Reverse, ArrayCount, Size;
      match t
      case Basic(name, b, _) =>
        if here { basicType, bits, bytes := name, 8 * b, b; }
        found := Some(here);
      case Pointer(b, _) =>
        if here { basicType, bits, bytes := "PTR", 8 * b, b; }
        found := Some(here);
      case Typedef(b) =>
        found := ProcessElement(b, path, needle);
      case Struct(_) =>
        found := ProcessComposite(t, path, needle);
      case Union(_) =>
        found := ProcessComposite(t, path, needle);
      case Array(e, _) =>
        var count := ArrayCount(t);
        if count.None? { return None; }
        found := ProcessComposite(t, path, needle);
        if found.None? { return; }
        if here {
          bits, bytes := bits * count.value, bytes * count.value;
        }
    }

    method ProcessComposite(t: DIType, path: seq<string>, needle: seq<string>) returns (found: Option<bool>)
      requires t.Composite()
      modifies this
      ensures found == Answer(ResultAt(t, path, needle))
      ensures found == Some(false) ==> gep == old(gep)
      ensures found == Some(true) && !(t.Array? && needle == path) ==> Holds(ResultAt(t, path, needle).hit, old(gep))
      ensures found == Some(true) && t.Array? && needle == path ==>
                Dfs(t.elem, []).Found? && Holds(Dfs(t.elem, []).hit, old(gep))
      decreases t, 0
    {
      if t.Array? {
        found := ProcessArray(t, path, needle);
        return;
      }
      AllRemain(t, path, needle);
      hide Dfs, ResultAt, Remaining, Reverse;
      var index := 0;
      for k := 0 to |t.members|
        invariant index == MemberIndex(t, k) && gep == old(gep)
        invariant ResultAt(t, path, needle) == Remaining(t, k, path, needle)
      {
        var m := t.members[k];
        var walked := if m.name == "" then path else path + [m.name];
        MemberSearched(t, k, path, walked, needle);
        found := ProcessElement(m.ty, walked, needle);
        if found.None? { return; }
        if found.value {
          ReverseOneMore(index, ResultAt(m.ty, walked, needle).hit.gep);
          gep := gep + [index];
          return;
        }
        if !t.Union? { index := index + 1; }
      }
      found := Some(false);
    }

    method ProcessArray(t: DIType, path: seq<string>, needle: seq<string>) returns (found: Option<bool>)
      requires t.Array?
      modifies this
      ensures found == Answer(ResultAt(t, path, needle))
      ensures found == Some(false) ==> gep == old(gep)
      ensures found == Some(true) && needle != path ==> Holds(ResultAt(t, path, needle).hit, old(gep))
      ensures found == Some(true) && needle == path ==>
                Dfs(t.elem, []).Found? && Holds(Dfs(t.elem, []).hit, old(gep))
      decreases t.elem, 2
    {
      var count := ArrayCount(t);
      if count.None? { return None; }
      ghost var rest := if path <= needle then needle[|path|..] else [];
      assert needle == path ==> rest == [];
      found := ProcessElement(t.elem, path, needle);
      if found.None? || found.value { return; }
      for i := 0 to count.value
        invariant gep == old(gep)
        invariant path <= needle ==> Dfs(t, rest) == DfsElements(t, i, rest)
      {
        var walked := path + [ToString(i)];
        NextName(path, ToString(i), needle);
        found := ProcessElement(t.elem, walked, needle);
        if found.None? { return; }
        if found.value {
          ReverseOneMore(i, Dfs(t.elem, needle[|walked|..]).hit.gep);
          gep := gep + [i];
          return;
        }
      }
      found := Some(false);
    }
  }

  lemma NextName(path: seq<string>, name: string, needle: seq<string>)
    ensures path + [name] <= needle <==>
            path <= needle && needle[|path|..] != [] && needle[|path|..][0] == name
    ensures path + [name] <= needle ==> needle[|path|..][1..] == needle[|path + [name]|..]
  {
    if path <= needle && needle[|path|..] != [] && needle[|path|..][0] == name {
      assert needle[|path|] == name;
      assert needle[..|path| + 1] == path + [name];
    }
  }

  /** The outcome where no members are searched; a whole array is as large as its elements
      together. */
  lemma ElementSearched(t: DIType, path: seq<string>, needle: seq<string>)
    ensures var r := ResultAt(t, path, needle);
            match t
            case Basic(name, b, _) => r == if needle == path then Found(Hit(name, b, [])) else Missing
            case Pointer(b, _) => r == if needle == path then Found(Hit("PTR", b, [])) else Missing
            case Typedef(b) => r == ResultAt(b, path, needle)
            case Array(e, n) =>
              if RecordedBits(e) == 0 then r == Crashed else
              needle == path && Dfs(e, []).Found? ==>
                r == Found(Dfs(e, []).hit.(bytes := Dfs(e, []).hit.bytes * n))
            case _ => true
  {
    assert needle == path <==> path <= needle && needle[|path|..] == [];
  }

  /** The outcome at `t` when the members before the `k`-th have been searched in vain. */
  function Remaining(t: DIType, k: nat, path: seq<string>, needle: seq<string>): SearchResult
    requires t.Record() && k <= |t.members|
  {
    if path <= needle then DfsMembers(t, k, needle[|path|..])
    else if forall m | m in t.members[k..] :: SearchDefined(m.ty) then Missing else Crashed
  }

  lemma AllRemain(t: DIType, path: seq<string>, needle: seq<string>)
    requires t.Record()
    ensures Remaining(t, 0, path, needle) == ResultAt(t, path, needle)
    ensures Remaining(t, |t.members|, path, needle) == Missing
  {
    assert t.members[0..] == t.members;
  }

  lemma MemberSearched(t: DIType, k: nat, path: seq<string>, walked: seq<string>, needle: seq<string>)
    requires t.Record() && k < |t.members|
    requires walked == if t.members[k].name == "" then path else path + [t.members[k].name]
    ensures Remaining(t, k, path, needle) ==
            var r := ResultAt(t.members[k].ty, walked, needle);
            if r.Missing? then Remaining(t, k + 1, path, needle) else Below(t, k, r)
  {
    hide Dfs, SearchDefined;
    NextName(path, t.members[k].name, needle);
    var all, rest := t.members[k..], t.members[k + 1..];
    assert all == [t.members[k]] + rest;
    assert forall m :: m in all <==> m == t.members[k] || m in rest;
    var r := ResultAt(t.members[k].ty, walked, needle);
    if path <= needle {
      assert DfsMember(t, k, needle[|path|..]) == Below(t, k, r);
    } else {
      assert r == Explored(t.members[k].ty);
      assert Remaining(t, k, path, needle) == if r.Missing? then Remaining(t, k + 1, path, needle) else r;
    }
  }

  lemma ReverseOneMore(i: nat, gep: seq<nat>)
    ensures Reverse([i] + gep) == Reverse(gep) + [i]
  {
    assert ([i] + gep)[1..] == gep;
  }

  /** What getStructFieldInfo comes to: the field, the "Not found" report, or a crash. */
  datatype InfoAnswer = FieldFound(info: FieldInfo) | NotFound | DivisionByZero

  method GetStructFieldInfo(t: DIType, needle: seq<string>) returns (r: InfoAnswer)
    requires t.Struct?
    ensures r == match Dfs(t, needle)
                 case Missing => NotFound
                 case Crashed => DivisionByZero
                 case Found(h) => FieldFound(FieldInfo(h.basicType, 8 * h.bytes, h.bytes, [0] + h.gep))
  {
    var info := new SearchInfo();
    var found := info.ProcessComposite(t, [], needle);
    assert needle[0..] == needle;
    if found.None? { return DivisionByZero; }
    if !found.value { return NotFound; }
    ghost var gep := Dfs(t, needle).hit.gep;
    assert info.gep == Reverse(gep);
    ReverseAppend(Reverse(gep), 0);
    ReverseTwice(gep);
    return FieldFound(FieldInfo(info.basicType, info.bits, info.bytes, Reverse(info.gep + [0])));
  }
}
