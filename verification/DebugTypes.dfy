// The debug-information types irx walks (LLVM's DIType nodes), with the sizes and
// member offsets a C compiler gives them: section 6.7.2.1 of ISO C11 together with
// natural alignment. Sizes are in bytes; the bit counts of the metadata are eight
// times as large, because bit-fields are not modelled.
module DebugTypes {
  import opened Common

  /** A DW_TAG_member node. An anonymous struct or union has the empty name. */
  datatype Member = Member(name: string, ty: DIType)

  datatype DIType =
    | Basic(name: string, bytes: pos, align: pos)
    | Pointer(bytes: pos, align: pos)
    | Typedef(base: DIType)
    | Struct(members: seq<Member>)
    | Union(members: seq<Member>)
    | Array(elem: DIType, count: nat)
  {
    predicate Composite() { Struct? || Union? || Array? }

    predicate Record() { Struct? || Union? }
  }

  function Strip(t: DIType): (r: DIType)
    ensures !r.Typedef?
  {
    if t.Typedef? then Strip(t.base) else t
  }

  // ---- C sizes and offsets ----

  function Align(t: DIType): pos
    decreases t, 0
  {
    match t
    case Basic(_, _, a) => a
    case Pointer(_, a) => a
    case Typedef(b) => Align(b)
    case Struct(ms) => MaxAlign(ms, |ms|)
    case Union(ms) => MaxAlign(ms, |ms|)
    case Array(e, _) => Align(e)
  }

  /** The strictest alignment among the first `n` members. */
  function MaxAlign(ms: seq<Member>, n: nat): (a: pos)
    requires n <= |ms|
    decreases ms, n
  {
    if n == 0 then 1 else
    var a, b := MaxAlign(ms, n - 1), Align(ms[n - 1].ty);
    if a < b then b else a
  }

  function Size(t: DIType): nat
    decreases t, 0
  {
    match t
    case Basic(_, b, _) => b
    case Pointer(b, _) => b
    case Typedef(b) => Size(b)
    case Struct(ms) => AlignUp(FieldsEnd(ms, |ms|), MaxAlign(ms, |ms|))
    case Union(ms) => AlignUp(MaxSize(ms, |ms|), MaxAlign(ms, |ms|))
    case Array(e, n) => n * Size(e)
  }

  /** Where the first `n` members of a struct end. */
  function FieldsEnd(ms: seq<Member>, n: nat): nat
    requires n <= |ms|
    decreases ms, n
  {
    if n == 0 then 0
    else AlignUp(FieldsEnd(ms, n - 1), Align(ms[n - 1].ty)) + Size(ms[n - 1].ty)
  }

  function FieldOffset(ms: seq<Member>, i: nat): nat
    requires i < |ms|
  {
    AlignUp(FieldsEnd(ms, i), Align(ms[i].ty))
  }

  function MaxSize(ms: seq<Member>, n: nat): nat
    requires n <= |ms|
    decreases ms, n
  {
    if n == 0 then 0 else Max(MaxSize(ms, n - 1), Size(ms[n - 1].ty))
  }

  /** The member whose type LLVM keeps for a union: the strictest alignment, then the
      largest size, then the first. */
  function Kept(ms: seq<Member>, n: nat): (k: nat)
    requires 0 < n <= |ms|
    ensures k < n
    ensures Align(ms[k].ty) == MaxAlign(ms, n)
  {
    if n == 1 then 0 else
    var k := Kept(ms, n - 1);
    var t, u := ms[n - 1].ty, ms[k].ty;
    if Align(t) > Align(u) || (Align(t) == Align(u) && Size(t) > Size(u)) then n - 1 else k
  }

  // ---- Well-formed C types ----

  predicate IdentifierStart(c: char) {
    'a' <= c <= 'z' || 'A' <= c <= 'Z' || c == '_'
  }

  /** Every name that can be selected from `t` directly, through anonymous members. */
  function Names(t: DIType): set<string>
    decreases t, 0
  {
    if t.Record() then NamesFrom(t.members, 0) else {}
  }

  function NamesFrom(ms: seq<Member>, i: nat): set<string>
    requires i <= |ms|
    decreases ms, |ms| - i
  {
    if i == |ms| then {} else MemberNames(ms[i]) + NamesFrom(ms, i + 1)
  }

  function MemberNames(m: Member): set<string>
    decreases m, 0
  {
    if m.name == "" then Names(m.ty) else {m.name}
  }

  /** The largest index `std::stoi` can read. */
  const INT_MAX := 0x7fff_ffff

  /** What the C grammar and the constraints of section 6.7.2.1 guarantee, less what
      irx does not handle (arrays of arrays, arrays of bare pointers, element indices
      beyond an `int`). */
  predicate WellFormed(t: DIType)
    decreases t, 0
  {
    match t
    case Basic(_, b, a) => b % a == 0
    case Pointer(b, a) => b % a == 0
    case Typedef(b) => WellFormed(b)
    case Struct(ms) => WellFormedFrom(ms, 0)
    case Union(ms) => ms != [] && WellFormedFrom(ms, 0)
    case Array(e, n) => WellFormed(e) && !e.Pointer? && !Strip(e).Array? && n <= INT_MAX
  }

  predicate WellFormedFrom(ms: seq<Member>, i: nat)
    requires i <= |ms|
    decreases ms, |ms| - i
  {
    i == |ms| ||
    (&& WellFormed(ms[i].ty)
     && (if ms[i].name == "" then ms[i].ty.Record() else IdentifierStart(ms[i].name[0]))
     && MemberNames(ms[i]) !! NamesFrom(ms, i + 1)
     && WellFormedFrom(ms, i + 1))
  }

  lemma {:induction false} WellFormedMember(ms: seq<Member>, i: nat, j: nat)
    requires i <= j < |ms| && WellFormedFrom(ms, i)
    ensures WellFormed(ms[j].ty) && WellFormedFrom(ms, j)
    ensures if ms[j].name == "" then ms[j].ty.Record() else IdentifierStart(ms[j].name[0])
    decreases j - i
  {
    if i < j { WellFormedMember(ms, i + 1, j); }
  }

  lemma {:induction false} MemberNamesIncluded(ms: seq<Member>, i: nat, j: nat)
    requires i <= j < |ms|
    ensures MemberNames(ms[j]) <= NamesFrom(ms, i)
    decreases j - i
  {
    if i < j { MemberNamesIncluded(ms, i + 1, j); }
  }

  lemma {:induction false} NamesAreIdentifiers(t: DIType, name: string)
    requires WellFormed(t) && name in Names(t)
    ensures name != "" && IdentifierStart(name[0])
    decreases t, 0
  {
    NamesFromAreIdentifiers(t.members, 0, name);
  }

  lemma {:induction false} NamesFromAreIdentifiers(ms: seq<Member>, i: nat, name: string)
    requires i <= |ms| && WellFormedFrom(ms, i) && name in NamesFrom(ms, i)
    ensures name != "" && IdentifierStart(name[0])
    decreases ms, |ms| - i
  {
    if name in MemberNames(ms[i]) {
      if ms[i].name == "" { NamesAreIdentifiers(ms[i].ty, name); }
    } else {
      NamesFromAreIdentifiers(ms, i + 1, name);
    }
  }

  /** Two members with names of their own. */
  lemma NamedPair(ms: seq<Member>)
    requires |ms| == 2 && ms[0].name != ms[1].name
    requires forall m | m in ms :: m.name != "" && IdentifierStart(m.name[0]) && WellFormed(m.ty)
    ensures WellFormedFrom(ms, 0)
  {
    assert ms[0] in ms && ms[1] in ms;
    assert NamesFrom(ms, 2) == {} && NamesFrom(ms, 1) == {ms[1].name};
    assert WellFormedFrom(ms, 2) && WellFormedFrom(ms, 1);
  }

  // ---- Facts about sizes ----

  /** Sizes are multiples of alignments, so array elements stay aligned. */
  lemma {:induction false} SizeIsAligned(t: DIType)
    requires WellFormed(t)
    ensures Size(t) % Align(t) == 0
  {
    match t
    case Basic(_, _, _) =>
    case Pointer(_, _) =>
    case Typedef(b) => SizeIsAligned(b);
    case Struct(ms) => AlignedUp(FieldsEnd(ms, |ms|), MaxAlign(ms, |ms|));
    case Union(ms) => AlignedUp(MaxSize(ms, |ms|), MaxAlign(ms, |ms|));
    case Array(e, n) =>
      hide AlignUp;
      SizeIsAligned(e);
      MulKeepsModZero(n, Size(e), Align(e));
  }

  lemma {:induction false} FieldsEndMonotone(ms: seq<Member>, i: nat, j: nat)
    requires i <= j <= |ms|
    ensures FieldsEnd(ms, i) <= FieldsEnd(ms, j)
    decreases j - i
  {
    hide FieldsEnd, FieldOffset, Size;
    if i < j {
      FieldEnds(ms, j - 1);
      FieldsEndMonotone(ms, i, j - 1);
    }
  }

  /** A field starts behind the fields before it, and ends where the next ones may start. */
  lemma FieldEnds(ms: seq<Member>, i: nat)
    requires i < |ms|
    ensures FieldsEnd(ms, i) <= FieldOffset(ms, i)
    ensures FieldOffset(ms, i) + Size(ms[i].ty) == FieldsEnd(ms, i + 1)
  {
  }

  lemma FieldsOrdered(ms: seq<Member>, i: nat, j: nat)
    requires i < j < |ms|
    ensures FieldOffset(ms, i) + Size(ms[i].ty) <= FieldOffset(ms, j)
  {
    hide FieldsEnd, FieldOffset, Size;
    FieldEnds(ms, i);
    FieldsEndMonotone(ms, i + 1, j);
    FieldEnds(ms, j);
  }

  lemma FieldInBounds(ms: seq<Member>, i: nat)
    requires i < |ms|
    ensures FieldOffset(ms, i) + Size(ms[i].ty) <= Size(Struct(ms))
  {
    hide FieldsEnd, FieldOffset;
    FieldEnds(ms, i);
    FieldsEndMonotone(ms, i + 1, |ms|);
  }

  lemma MemberInBounds(ms: seq<Member>, i: nat)
    requires i < |ms|
    ensures Size(ms[i].ty) <= Size(Union(ms))
  {
    hide MaxSize;
    MaxSizeBounds(ms, i, |ms|);
  }

  lemma ElementInBounds(e: DIType, n: nat, i: nat)
    requires i < n
    ensures i * Size(e) + Size(e) <= Size(Array(e, n))
  {
    assert Size(Array(e, n)) == n * Size(e);
    hide Size;
    MulMonotone(i + 1, n, Size(e));
    assert (i + 1) * Size(e) == i * Size(e) + Size(e);
  }

  lemma {:induction false} MaxSizeBounds(ms: seq<Member>, i: nat, n: nat)
    requires i < n <= |ms|
    ensures Size(ms[i].ty) <= MaxSize(ms, n)
    decreases n
  {
    if i < n - 1 { MaxSizeBounds(ms, i, n - 1); }
  }
}
