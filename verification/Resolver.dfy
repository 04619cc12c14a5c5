// The direct path resolver, which every accessor uses (getStructFieldInfo2 and GEP):
// descend by the names, anonymous members included.
module Resolver {
  import opened Common
  import opened Decimal
  import opened DebugTypes

  /** The metadata node an index leads to: a member, or the bare type of an array
      element or anonymous record. */
  datatype Node = MemberNode(m: Member) | TypeNode(t: DIType)

  datatype TypedIndex = TypedIndex(index: nat, node: Node)

  /** `Raised` is the exception of `std::stoi`; `Unresolved` is the empty list. */
  datatype Resolution = Resolved(indices: seq<TypedIndex>) | Unresolved | Raised

  function NodeOf(m: Member): Node {
    if m.name == "" then TypeNode(m.ty) else MemberNode(m)
  }

  function MemberIndex(t: DIType, i: nat): nat {
    if t.Union? then 0 else i
  }

  // ---- Direct descent ----

  function MemberInfo(t: DIType, name: string): Resolution
    requires t.Composite()
    decreases t, 0
  {
    if t.Array? then
      match Stoi(name)
      case None => Raised
      case Some(i) => if i >= 0 then Resolved([TypedIndex(i, TypeNode(t.elem))]) else Unresolved
    else MemberInfoFrom(t, 0, name)
  }

  function MemberInfoFrom(t: DIType, i: nat, name: string): Resolution
    requires t.Record() && i <= |t.members|
    decreases t.members, |t.members| - i
  {
    if i == |t.members| then Unresolved else
    var m := t.members[i];
    if m.name == "" && m.ty.Composite() then
      match MemberInfo(m.ty, name)
      case Resolved(sub) => Resolved([TypedIndex(MemberIndex(t, i), TypeNode(m.ty))] + sub)
      case Unresolved => MemberInfoFrom(t, i + 1, name)
      case Raised => Raised
    else if m.name != "" && m.name == name then Resolved([TypedIndex(MemberIndex(t, i), MemberNode(m))])
    else MemberInfoFrom(t, i + 1, name)
  }

  method Gep2MemberInfo(t: DIType, name: string) returns (r: Resolution)
    requires t.Composite()
    ensures r == MemberInfo(t, name)
    decreases t
  {
    if t.Array? {
      var i := Stoi(name);
      if i.None? { return Raised; }
      if i.value >= 0 { return Resolved([TypedIndex(i.value, TypeNode(t.elem))]); }
      return Unresolved;
    }
    var index := 0;
    for k := 0 to |t.members|
      invariant index == MemberIndex(t, k)
      invariant MemberInfo(t, name) == MemberInfoFrom(t, k, name)
    {
      var m := t.members[k];
      if m.name == "" {
        if m.ty.Composite() {
          var sub := Gep2MemberInfo(m.ty, name);
          if sub.Raised? { return Raised; }
          if sub.Resolved? { return Resolved([TypedIndex(index, TypeNode(m.ty))] + sub.indices); }
        }
      } else if m.name == name {
        return Resolved([TypedIndex(index, MemberNode(m))]);
      }
      if !t.Union? { index := index + 1; }
    }
    return Unresolved;
  }

  /** resolveDerivedTypeBaseType: one derived node and then every typedef. A bare
      pointer node would lose its pointer here; WellFormed keeps it away. */
  function BaseOf(n: Node): DIType {
    match n
    case MemberNode(m) => Strip(m.ty)
    case TypeNode(t) => Strip(t)
  }

  function AsComposite(t: DIType): Option<DIType> {
    if t.Composite() then Some(t) else None
  }

  function Prefixed(front: seq<TypedIndex>, r: Resolution): Resolution {
    if r.Resolved? then Resolved(front + r.indices) else r
  }

  /** Resolving the names of `needle` one after the other, from a current aggregate. */
  function Descend(cur: Option<DIType>, needle: seq<string>): Resolution
    requires cur.Some? ==> cur.value.Composite()
    decreases needle
  {
    if needle == [] then Resolved([])
    else if cur.None? then Unresolved
    else
      var sub := MemberInfo(cur.value, needle[0]);
      if sub.Resolved? && sub.indices != [] then
        Prefixed(sub.indices,
                 Descend(AsComposite(BaseOf(sub.indices[|sub.indices| - 1].node)), needle[1..]))
      else sub
  }

  method Gep(t: DIType, needle: seq<string>) returns (r: Resolution)
    requires t.Composite()
    ensures r == Prefixed([TypedIndex(0, TypeNode(t))], Descend(Some(t), needle))
  {
    var indices, cur := [TypedIndex(0, TypeNode(t))], Some(t);
    for k := 0 to |needle|
      invariant cur.Some? ==> cur.value.Composite()
      invariant Prefixed([TypedIndex(0, TypeNode(t))], Descend(Some(t), needle)) ==
                Prefixed(indices, Descend(cur, needle[k..]))
    {
      assert needle[k..][1..] == needle[k + 1..];
      if cur.None? { return Unresolved; }
      var sub := Gep2MemberInfo(cur.value, needle[k]);
      if sub.Raised? { return Raised; }
      if sub.Unresolved? { return Unresolved; }
      MemberInfoNonEmpty(cur.value, needle[k]);
      cur := AsComposite(BaseOf(sub.indices[|sub.indices| - 1].node));
      ghost var rest := Descend(cur, needle[k + 1..]);
      assert rest.Resolved? ==>
          indices + (sub.indices + rest.indices) == (indices + sub.indices) + rest.indices;
      indices := indices + sub.indices;
    }
    return Resolved(indices);
  }

  lemma MemberInfoNonEmpty(t: DIType, name: string)
    requires t.Composite() && MemberInfo(t, name).Resolved?
    ensures MemberInfo(t, name).indices != []
  {
    if t.Record() { MemberInfoFromNonEmpty(t, 0, name); }
  }

  lemma {:induction false} MemberInfoFromNonEmpty(t: DIType, i: nat, name: string)
    requires t.Record() && i <= |t.members| && MemberInfoFrom(t, i, name).Resolved?
    ensures MemberInfoFrom(t, i, name).indices != []
    decreases |t.members| - i
  {
    var m := t.members[i];
    if !(m.name == "" && m.ty.Composite() && MemberInfo(m.ty, name).Resolved?) &&
       !(m.name != "" && m.name == name) {
      MemberInfoFromNonEmpty(t, i + 1, name);
    }
  }

  // ---- What the accessors learn about a field ----

  datatype FieldInfo = FieldInfo(basicType: string, bits: nat, bytes: nat, gep: seq<nat>)

  datatype InfoResult = Info(info: FieldInfo) | Aborted | Thrown

  /** The size a metadata node carries. Compilers record none for a typedef; asking for
      the field size of an aggregate node fails an assertion. */
  function RecordedBits(t: DIType): nat {
    if t.Typedef? then 0 else 8 * Size(t)
  }

  function FieldBits(n: Node): Option<nat> {
    match n
    case MemberNode(m) => Some(8 * Size(m.ty))
    case TypeNode(t) => if t.Composite() then None else Some(RecordedBits(t))
  }

  function BasicOf(t: DIType): Option<string> {
    match t
    case Basic(name, _, _) => Some(name)
    case Typedef(b) => BasicOf(b)
    case Array(e, _) => BasicOf(e)
    case _ => None
  }

  method ToBasicType(t: DIType) returns (r: Option<string>)
    ensures r == BasicOf(t)
  {
    var cur := t;
    while true
      invariant BasicOf(t) == BasicOf(cur)
      decreases cur
    {
      match cur
      case Basic(name, _, _) => return Some(name);
      case Typedef(b) => cur := b;
      case Array(e, _) => cur := e;
      case _ => return None;
    }
  }

  function TypeName(t: DIType): string {
    if t.Pointer? then "PTR" else BasicOf(t).GetOr("unknown")
  }

  function Indices(l: seq<TypedIndex>): (r: seq<nat>)
    ensures |r| == |l|
  {
    seq(|l|, k requires 0 <= k < |l| => l[k].index)
  }

  const UNKNOWN := FieldInfo("unknown", 0, 0, [])

  function DirectInfo(t: DIType, needle: seq<string>): InfoResult
    requires t.Composite()
  {
    match Descend(Some(t), needle)
    case Raised => Thrown
    case Unresolved => Info(UNKNOWN)
    case Resolved(indices) =>
      if indices == [] then Aborted else
      var last := indices[|indices| - 1].node;
      match FieldBits(last)
      case None => Aborted
      case Some(bits) => Info(FieldInfo(TypeName(BaseOf(last)), bits, bits / 8, [0] + Indices(indices)))
  }

  method GetStructFieldInfo2(t: DIType, needle: seq<string>) returns (r: InfoResult)
    requires t.Composite()
    ensures r == DirectInfo(t, needle)
  {
    var gep := Gep(t, needle);
    if gep.Raised? { return Thrown; }
    if gep.Unresolved? { return Info(UNKNOWN); }
    var last := gep.indices[|gep.indices| - 1].node;
    assert gep.indices[1..] == Descend(Some(t), needle).indices;
    var bits := FieldBits(last);
    if bits.None? { return Aborted; }
    var base := BaseOf(last);
    var name := "PTR";
    if !base.Pointer? {
      var basic := ToBasicType(base);
      name := basic.GetOr("unknown");
    }
    assert Indices(gep.indices) == [0] + Indices(gep.indices[1..]);
    return Info(FieldInfo(name, bits.value, bits.value / 8, Indices(gep.indices)));
  }
}
