// LLVM's view of the same types: the lowering a C compiler applies to a debug type,
// LLVM's struct layout, and irx's offset walk over an index list.
module Layout {
  import opened Common
  import opened DebugTypes

  datatype LType =
    | Scalar(bytes: pos, align: pos)
    | LStruct(fields: seq<LType>)
    | LArray(elem: LType, count: nat)

  function LAlign(t: LType): pos
    decreases t, 0
  {
    match t
    case Scalar(_, a) => a
    case LStruct(fs) => LMaxAlign(fs, |fs|)
    case LArray(e, _) => LAlign(e)
  }

  function LMaxAlign(fs: seq<LType>, n: nat): pos
    requires n <= |fs|
    decreases fs, n
  {
    if n == 0 then 1 else
    var a, b := LMaxAlign(fs, n - 1), LAlign(fs[n - 1]);
    if a < b then b else a
  }

  /** DataLayout::getTypeStoreSize. */
  function StoreSize(t: LType): nat
    decreases t, 0
  {
    match t
    case Scalar(b, _) => b
    case LStruct(fs) => AlignUp(LFieldsEnd(fs, |fs|), LMaxAlign(fs, |fs|))
    case LArray(e, n) => n * AlignUp(StoreSize(e), LAlign(e))
  }

  /** DataLayout::getTypeAllocSize: the stride of an array of `t`. */
  function AllocSize(t: LType): nat {
    AlignUp(StoreSize(t), LAlign(t))
  }

  function LFieldsEnd(fs: seq<LType>, n: nat): nat
    requires n <= |fs|
    decreases fs, n
  {
    if n == 0 then 0
    else AlignUp(LFieldsEnd(fs, n - 1), LAlign(fs[n - 1])) + AlignUp(StoreSize(fs[n - 1]), LAlign(fs[n - 1]))
  }

  /** StructLayout::getElementOffset. */
  function LFieldOffset(fs: seq<LType>, i: nat): nat
    requires i < |fs|
  {
    AlignUp(LFieldsEnd(fs, i), LAlign(fs[i]))
  }

  // ---- Lowering ----

  /** A union becomes a struct holding its kept member, padded to the union's size, so
      index 0 is the only one its members can use. */
  function Lower(t: DIType): LType
    decreases t, 0
  {
    match t
    case Basic(_, b, a) => Scalar(b, a)
    case Pointer(b, a) => Scalar(b, a)
    case Typedef(b) => Lower(b)
    case Struct(ms) => LStruct(LowerMembers(ms, |ms|))
    case Union(ms) => if ms == [] then LStruct([]) else LStruct(LowerUnion(ms))
    case Array(e, n) => LArray(Lower(e), n)
  }

  function LowerMembers(ms: seq<Member>, n: nat): (fs: seq<LType>)
    requires n <= |ms|
    ensures |fs| == n
    decreases ms, n
  {
    if n == 0 then [] else LowerMembers(ms, n - 1) + [Lower(ms[n - 1].ty)]
  }

  function LowerUnion(ms: seq<Member>): (fs: seq<LType>)
    requires ms != []
    ensures fs != []
    decreases ms, |ms|
  {
    var kept := ms[Kept(ms, |ms|)].ty;
    var size := AlignUp(MaxSize(ms, |ms|), MaxAlign(ms, |ms|));
    if size <= Size(kept) then [Lower(kept)]
    else [Lower(kept), LArray(Scalar(1, 1), size - Size(kept))]
  }

  lemma {:induction false} LowerMembersAt(ms: seq<Member>, n: nat, i: nat)
    requires i < n <= |ms|
    ensures LowerMembers(ms, n)[i] == Lower(ms[i].ty)
    ensures LowerMembers(ms, n)[..i] == LowerMembers(ms, i)
    decreases n
  {
    if i < n - 1 { LowerMembersAt(ms, n - 1, i); }
    assert LowerMembers(ms, n)[..i] == LowerMembers(ms, n - 1)[..i];
  }

  /** Lowering keeps sizes and alignments, hence strides. */
  lemma {:induction false} LowerKeepsSize(t: DIType)
    requires WellFormed(t)
    ensures LAlign(Lower(t)) == Align(t)
    ensures StoreSize(Lower(t)) == AllocSize(Lower(t)) == Size(t)
    decreases t, 0
  {
    SizeIsAligned(t);
    match t
    case Basic(_, _, _) =>
    case Pointer(_, _) =>
    case Typedef(b) => LowerKeepsSize(b);
    case Struct(ms) => LowerKeepsFields(ms, |ms|);
    case Union(ms) => LowerKeepsUnion(ms);
    case Array(e, n) => LowerKeepsSize(e);
  }

  lemma {:induction false} LowerKeepsFields(ms: seq<Member>, n: nat)
    requires n <= |ms| && WellFormedFrom(ms, 0)
    ensures LMaxAlign(LowerMembers(ms, n), n) == MaxAlign(ms, n)
    ensures LFieldsEnd(LowerMembers(ms, n), n) == FieldsEnd(ms, n)
    decreases ms, n
  {
    hide AlignUp, LAlign, StoreSize, Size, Align, Lower;
    if n > 0 {
      LowerKeepsFields(ms, n - 1);
      WellFormedMember(ms, 0, n - 1);
      LowerKeepsSize(ms[n - 1].ty);
      var fs := LowerMembers(ms, n);
      assert fs[..n - 1] == LowerMembers(ms, n - 1);
      PrefixLayout(fs, n - 1);
    }
  }

  /** Layout of the first `n` fields does not depend on the rest. */
  lemma {:induction false} PrefixLayout(fs: seq<LType>, n: nat)
    requires n <= |fs|
    ensures LMaxAlign(fs, n) == LMaxAlign(fs[..n], n)
    ensures LFieldsEnd(fs, n) == LFieldsEnd(fs[..n], n)
    decreases n
  {
    hide AlignUp, LAlign, StoreSize, AllocSize;
    if n > 0 {
      PrefixLayout(fs, n - 1);
      PrefixLayout(fs[..n], n - 1);
      assert fs[..n][..n - 1] == fs[..n - 1];
    }
  }

  lemma LowerKeepsUnion(ms: seq<Member>)
    requires ms != [] && WellFormedFrom(ms, 0)
    ensures LAlign(LStruct(LowerUnion(ms))) == MaxAlign(ms, |ms|)
    ensures StoreSize(LStruct(LowerUnion(ms))) == AlignUp(MaxSize(ms, |ms|), MaxAlign(ms, |ms|))
    decreases ms, |ms|
  {
    hide AlignUp, Kept, MaxSize, MaxAlign, WellFormedFrom, StoreSize, LAlign, AllocSize, Size, Align, Lower;
    var k := Kept(ms, |ms|);
    var kept := ms[k].ty;
    WellFormedMember(ms, 0, k);
    LowerKeepsSize(kept);
    MaxSizeBounds(ms, k, |ms|);
    var size := AlignUp(MaxSize(ms, |ms|), MaxAlign(ms, |ms|));
    AlignedUp(MaxSize(ms, |ms|), MaxAlign(ms, |ms|));
    AlignedUp(size, MaxAlign(ms, |ms|));
    if size <= Size(kept) { OneField(Lower(kept)); } else { PaddedField(Lower(kept), size - Size(kept)); }
  }

  lemma OneField(t: LType)
    ensures LAlign(LStruct([t])) == LAlign(t) && StoreSize(LStruct([t])) == AlignUp(AllocSize(t), LAlign(t))
  {
    hide AlignUp;
    var fs := [t];
    AlignedUp(0, LAlign(t));
    assert LMaxAlign(fs, 0) == 1 && LFieldsEnd(fs, 0) == 0;
    assert LMaxAlign(fs, 1) == LAlign(t) && LFieldsEnd(fs, 1) == AllocSize(t);
  }

  lemma PaddedField(t: LType, n: nat)
    ensures var s := LStruct([t, LArray(Scalar(1, 1), n)]);
            LAlign(s) == LAlign(t) && StoreSize(s) == AlignUp(AllocSize(t) + n, LAlign(t))
  {
    hide AlignUp;
    var pad := LArray(Scalar(1, 1), n);
    var fs := [t, pad];
    AlignedUp(1, 1);
    AlignedUp(n, 1);
    AlignedUp(AllocSize(t), 1);
    AlignedUp(0, LAlign(t));
    assert LAlign(pad) == 1 && StoreSize(pad) == n by { assert n * AlignUp(1, 1) == n; }
    assert LMaxAlign(fs, 0) == 1 && LFieldsEnd(fs, 0) == 0;
    assert LMaxAlign(fs, 1) == LAlign(t) && LFieldsEnd(fs, 1) == AllocSize(t);
    assert LMaxAlign(fs, 2) == LAlign(t) && LFieldsEnd(fs, 2) == AllocSize(t) + n;
  }

  lemma LowerKeepsOffset(ms: seq<Member>, i: nat)
    requires i < |ms| && WellFormedFrom(ms, 0)
    ensures LowerMembers(ms, |ms|)[i] == Lower(ms[i].ty)
    ensures LFieldOffset(LowerMembers(ms, |ms|), i) == FieldOffset(ms, i)
  {
    var fs := LowerMembers(ms, |ms|);
    LowerMembersAt(ms, |ms|, i);
    LowerKeepsFields(ms, i);
    PrefixLayout(fs, i);
    WellFormedMember(ms, 0, i);
    LowerKeepsSize(ms[i].ty);
  }

  // ---- The offset walk ----

  datatype Place = Place(offset: nat, ty: LType)

  /** How many indices `t` takes. */
  function Arity(t: LType): nat {
    match t
    case Scalar(_, _) => 0
    case LStruct(fs) => |fs|
    case LArray(_, n) => n
  }

  /** One index applied to an aggregate; `None` is LLVM's out-of-range assertion or
      irx's "type not supported" abort. */
  function Step(t: LType, i: nat): (r: Option<Place>)
    ensures i < Arity(t) ==> r.Some?
  {
    match t
    case Scalar(_, _) => None
    case LStruct(fs) => if i < |fs| then Some(Place(LFieldOffset(fs, i), fs[i])) else None
    case LArray(e, _) => Some(Place(i * AllocSize(e), e))
  }

  function Walk(t: LType, indices: seq<nat>): Option<Place> {
    if indices == [] then Some(Place(0, t)) else
    match Step(t, indices[0])
    case None => None
    case Some(s) =>
      match Walk(s.ty, indices[1..])
      case None => None
      case Some(r) => Some(Place(s.offset + r.offset, r.ty))
  }

  /** The loop of GEP2Offset. The first index counts whole objects, as in any
      getelementptr. The answer is in bits. */
  method Gep2Offset(ty: LType, indices: seq<nat>) returns (bits: Option<nat>)
    requires indices != []
    ensures bits == match Walk(LArray(ty, indices[0] + 1), indices)
                    case None => None
                    case Some(r) => Some(r.offset * 8)
  {
    var total: nat, cur := 0, LArray(ty, indices[0] + 1);
    for k := 0 to |indices|
      invariant Walk(LArray(ty, indices[0] + 1), indices) ==
                match Walk(cur, indices[k..])
                case None => None
                case Some(r) => Some(Place(total + r.offset, r.ty))
    {
      assert indices[k..][1..] == indices[k + 1..];
      match cur
      case LStruct(fs) =>
        if indices[k] >= |fs| { return None; }
        total, cur := total + LFieldOffset(fs, indices[k]), fs[indices[k]];
      case LArray(e, _) =>
        total, cur := total + indices[k] * AllocSize(e), e;
      case Scalar(_, _) =>
        return None;
    }
    return Some(total * 8);
  }

  lemma {:induction false} WalksCompose(t: LType, a: seq<nat>, b: seq<nat>)
    ensures Walk(t, a + b) ==
            match Walk(t, a)
            case None => None
            case Some(r) =>
              (match Walk(r.ty, b)
               case None => None
               case Some(s) => Some(Place(r.offset + s.offset, s.ty)))
    decreases a
  {
    if a == [] {
      assert a + b == b;
    } else {
      assert (a + b)[1..] == a[1..] + b;
      match Step(t, a[0])
      case None =>
      case Some(s) => WalksCompose(s.ty, a[1..], b);
    }
  }

  lemma WalkCons(t: LType, i: nat, rest: seq<nat>)
    ensures Walk(t, [i] + rest) ==
            match Step(t, i)
            case None => None
            case Some(s) =>
              (match Walk(s.ty, rest)
               case None => None
               case Some(r) => Some(Place(s.offset + r.offset, r.ty)))
  {
    assert ([i] + rest)[1..] == rest;
  }
}
