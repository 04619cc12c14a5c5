// Writing a global's initialiser into memory: a recursion over the constant tree.
module InitMemory {
  import opened Common
  import opened Layout
  import opened ByteMemory

  /** An LLVM constant. A scalar carries the bytes its value is stored as. */
  datatype Constant =
    | Undef(ty: LType)
    | AggregateZero(ty: LType)
    | VectorConst(elemTy: LType, elems: seq<Constant>)
    | ArrayConst(elemTy: LType, elems: seq<Constant>)
    | StructConst(fields: seq<LType>, elems: seq<Constant>)
    | DataSequential(elemTy: LType, count: nat, raw: Bytes)
    | ScalarConst(ty: LType, raw: Bytes)

  function TypeOf(c: Constant): LType {
    match c
    case Undef(t) => t
    case AggregateZero(t) => t
    case VectorConst(e, es) => LArray(e, |es|)
    case ArrayConst(e, es) => LArray(e, |es|)
    case StructConst(fs, _) => LStruct(fs)
    case DataSequential(e, n, _) => LArray(e, n)
    case ScalarConst(t, _) => t
  }

  predicate Aggregate(c: Constant) {
    c.VectorConst? || c.ArrayConst? || c.StructConst?
  }

  predicate WellTyped(c: Constant)
    decreases c, 0
  {
    match c
    case Undef(_) => true
    case AggregateZero(_) => true
    case DataSequential(e, n, raw) => |raw| == n * AllocSize(e)
    case ScalarConst(t, raw) => t.Scalar? && |raw| == t.bytes
    case _ => Operands(TypeOf(c), c.elems)
  }

  /** The operands of an aggregate have the types of its elements. */
  predicate Operands(t: LType, es: seq<Constant>)
    decreases es, 1
  {
    |es| == Arity(t) &&
    forall i | 0 <= i < |es| :: TypeOf(es[i]) == Step(t, i).value.ty && WellTyped(es[i])
  }

  /** What an initialiser determines: a byte where it writes one, nothing at padding and
      undef. */
  type Image = seq<Option<byte>>

  function Blank(n: nat): (r: Image)
    ensures |r| == n && forall k | 0 <= k < n :: r[k] == None
  {
    seq(n, _ => None)
  }

  function Known(raw: Bytes, n: nat): (r: Image)
    requires |raw| <= n
    ensures |r| == n && forall k | 0 <= k < n :: r[k] == if k < |raw| then Some(raw[k]) else None
  {
    seq(n, k requires 0 <= k < n => if k < |raw| then Some(raw[k]) else None)
  }

  function Placed(img: Image, at: nat, sub: Image): (r: Image)
    requires at + |sub| <= |img|
    ensures |r| == |img|
  {
    seq(|img|, k requires 0 <= k < |img| =>
      if at <= k < at + |sub| && sub[k - at].Some? then sub[k - at] else img[k])
  }

  function Zeros(n: nat): (r: Bytes)
    ensures |r| == n && forall k | 0 <= k < n :: r[k] == 0
  {
    seq(n, _ => 0)
  }

  function ImageOf(c: Constant): (r: Image)
    requires WellTyped(c)
    ensures |r| == AllocSize(TypeOf(c))
    decreases c, 0
  {
    match c
    case Undef(t) => Blank(AllocSize(t))
    case AggregateZero(t) => Known(Zeros(AllocSize(t)), AllocSize(t))
    case DataSequential(e, n, raw) => Known(raw, AllocSize(LArray(e, n)))
    case ScalarConst(t, raw) => Known(raw, AllocSize(t))
    case _ => OperandsImage(TypeOf(c), c.elems, |c.elems|)
  }

  /** The first `n` operands, each at its element offset. */
  function OperandsImage(t: LType, es: seq<Constant>, n: nat): (r: Image)
    requires Operands(t, es) && n <= |es|
    ensures |r| == AllocSize(t)
    decreases es, n
  {
    if n == 0 then Blank(AllocSize(t)) else
    SlotInBounds(t, n - 1);
    Placed(OperandsImage(t, es, n - 1), ElementOffset(t, n - 1), ImageOf(es[n - 1]))
  }

  /** `i * ElementSize` in an array or vector, the struct layout's offset in a struct. */
  function ElementOffset(t: LType, i: nat): nat
    requires i < Arity(t)
  {
    Step(t, i).value.offset
  }

  lemma {:induction false} LFieldsEndMonotone(fs: seq<LType>, i: nat, j: nat)
    requires i <= j <= |fs|
    ensures LFieldsEnd(fs, i) <= LFieldsEnd(fs, j)
    decreases j - i
  {
    hide LFieldsEnd, LFieldOffset, AllocSize;
    if i < j {
      LFieldEnds(fs, j - 1);
      LFieldsEndMonotone(fs, i, j - 1);
    }
  }

  /** A field starts behind the fields before it, and ends where the next ones may start. */
  lemma LFieldEnds(fs: seq<LType>, i: nat)
    requires i < |fs|
    ensures LFieldsEnd(fs, i) <= LFieldOffset(fs, i)
    ensures LFieldOffset(fs, i) + AllocSize(fs[i]) == LFieldsEnd(fs, i + 1)
  {
  }

  lemma SlotInBounds(t: LType, i: nat)
    requires i < Arity(t)
    ensures ElementOffset(t, i) + AllocSize(Step(t, i).value.ty) <= AllocSize(t)
  {
    match t
    case LStruct(fs) => LastFieldInBounds(fs, i);
    case LArray(e, n) => ElementInBounds(AllocSize(e), i, n, t);
  }

  lemma LastFieldInBounds(fs: seq<LType>, i: nat)
    requires i < |fs|
    ensures LFieldOffset(fs, i) + AllocSize(fs[i]) <= AllocSize(LStruct(fs))
  {
    hide LFieldsEnd, LFieldOffset;
    LFieldEnds(fs, i);
    LFieldsEndMonotone(fs, i + 1, |fs|);
  }

  lemma ElementInBounds(stride: nat, i: nat, n: nat, t: LType)
    requires i < n && t.LArray? && t.count == n && stride == AllocSize(t.elem)
    ensures i * stride + stride <= AllocSize(t)
  {
    MulMonotone(i + 1, n, stride);
    assert StoreSize(t) == n * stride;
  }

  lemma SlotsOrdered(t: LType, i: nat, j: nat)
    requires i < j < Arity(t)
    ensures ElementOffset(t, i) + AllocSize(Step(t, i).value.ty) <= ElementOffset(t, j)
  {
    hide AllocSize, LFieldOffset;
    match t
    case LStruct(fs) => FieldsOrdered(fs, i, j);
    case LArray(e, n) => MulMonotone(i + 1, j, AllocSize(e));
  }

  lemma FieldsOrdered(fs: seq<LType>, i: nat, j: nat)
    requires i < j < |fs|
    ensures LFieldOffset(fs, i) + AllocSize(fs[i]) <= LFieldOffset(fs, j)
  {
    hide AllocSize, LFieldsEnd, LFieldOffset;
    LFieldEnds(fs, i);
    LFieldsEndMonotone(fs, i + 1, j);
    LFieldEnds(fs, j);
  }

  // ---- The writer ----

  /** Memory after an image has been written at `a`. */
  function Overlay(m: Bytes, a: nat, img: Image): (r: Bytes)
    requires a + |img| <= |m|
    ensures |r| == |m|
  {
    seq(|m|, k requires 0 <= k < |m| =>
      if a <= k < a + |img| && img[k - a].Some? then img[k - a].value else m[k])
  }

  lemma OverlayAt(m: Bytes, a: nat, img: Image, k: nat)
    requires a + |img| <= |m| && k < |m|
    ensures Overlay(m, a, img)[k] == if a <= k < a + |img| && img[k - a].Some? then img[k - a].value else m[k]
  {
  }

  lemma OverlayBlank(m: Bytes, a: nat, n: nat)
    requires a + n <= |m|
    ensures Overlay(m, a, Blank(n)) == m
  {
  }

  lemma OverlayKnown(m: Bytes, a: nat, raw: Bytes, n: nat)
    requires a + n <= |m| && |raw| <= n
    ensures Overlay(m, a, Known(raw, n)) == Overwrite(m, a, raw)
  {
  }

  lemma OverlayPlaced(m: Bytes, a: nat, img: Image, at: nat, sub: Image)
    requires a + |img| <= |m| && at + |sub| <= |img|
    ensures Overlay(m, a, Placed(img, at, sub)) == Overlay(Overlay(m, a, img), a + at, sub)
  {
  }

  /** InitializeMemory writes exactly the image of the constant, so nothing outside the
      allocation size of its type. */
  method InitializeMemory(c: Constant, mem: array<byte>, addr: nat)
    requires WellTyped(c) && addr + AllocSize(TypeOf(c)) <= mem.Length
    modifies mem
    ensures mem[..] == Overlay(old(mem[..]), addr, ImageOf(c))
    decreases c, 1
  {
    ghost var m := mem[..];
    match c
    case Undef(t) =>
      OverlayBlank(m, addr, AllocSize(t));
    case AggregateZero(t) =>
      OverlayKnown(m, addr, Zeros(AllocSize(t)), AllocSize(t));
      Memcpy(mem, addr, Zeros(AllocSize(t)));
    case DataSequential(e, n, raw) =>
      OverlayKnown(m, addr, raw, AllocSize(TypeOf(c)));
      Memcpy(mem, addr, raw);
    case ScalarConst(t, raw) =>
      OverlayKnown(m, addr, raw, AllocSize(t));
      Memcpy(mem, addr, raw);
    case _ =>
      InitializeOperands(TypeOf(c), c.elems, mem, addr);
  }

  method InitializeOperands(t: LType, es: seq<Constant>, mem: array<byte>, addr: nat)
    requires Operands(t, es) && addr + AllocSize(t) <= mem.Length
    modifies mem
    ensures mem[..] == Overlay(old(mem[..]), addr, OperandsImage(t, es, |es|))
    decreases es, 2
  {
    hide Overlay, OperandsImage, ElementOffset, AllocSize;
    ghost var m := mem[..];
    NoOperandYet(m, addr, t, es);
    for i := 0 to |es|
      invariant mem[..] == Overlay(m, addr, OperandsImage(t, es, i))
    {
      OneMoreOperand(m, addr, t, es, i);
      InitializeMemory(es[i], mem, addr + ElementOffset(t, i));
    }
  }

  lemma NoOperandYet(m: Bytes, addr: nat, t: LType, es: seq<Constant>)
    requires Operands(t, es) && addr + AllocSize(t) <= |m|
    ensures Overlay(m, addr, OperandsImage(t, es, 0)) == m
  {
    OverlayBlank(m, addr, AllocSize(t));
  }

  lemma OneMoreOperand(m: Bytes, addr: nat, t: LType, es: seq<Constant>, i: nat)
    requires Operands(t, es) && i < |es| && addr + AllocSize(t) <= |m|
    ensures WellTyped(es[i]) && addr + ElementOffset(t, i) + AllocSize(TypeOf(es[i])) <= |m|
    ensures Overlay(m, addr, OperandsImage(t, es, i + 1)) ==
            Overlay(Overlay(m, addr, OperandsImage(t, es, i)), addr + ElementOffset(t, i), ImageOf(es[i]))
  {
    hide Overlay, Placed, AllocSize, ElementOffset, WellTyped, OperandsImage;
    OperandPlaced(t, es, i);
    OverlayPlaced(m, addr, OperandsImage(t, es, i), ElementOffset(t, i), ImageOf(es[i]));
  }

  lemma OperandPlaced(t: LType, es: seq<Constant>, i: nat)
    requires Operands(t, es) && i < |es|
    ensures WellTyped(es[i]) && ElementOffset(t, i) + AllocSize(TypeOf(es[i])) <= AllocSize(t)
    ensures OperandsImage(t, es, i + 1) == Placed(OperandsImage(t, es, i), ElementOffset(t, i), ImageOf(es[i]))
  {
    hide AllocSize, ElementOffset, Placed;
    SlotInBounds(t, i);
  }

  // ---- What a reader finds ----

  ghost predicate Holds(m: Bytes, a: nat, img: Image)
    requires a + |img| <= |m|
  {
    forall k | 0 <= k < |img| && img[k].Some? :: m[a + k] == img[k].value
  }

  /** Writing the image again, whatever has been stored meanwhile, restores every byte
      the initialiser determines, and changes nothing if none was disturbed. */
  lemma InitialisingRestores(m: Bytes, a: nat, img: Image)
    requires a + |img| <= |m|
    ensures Holds(Overlay(m, a, img), a, img)
    ensures Holds(m, a, img) <==> Overlay(m, a, img) == m
  {
    if Overlay(m, a, img) == m {
      forall k | 0 <= k < |img| && img[k].Some?
        ensures m[a + k] == img[k].value
      {
        assert Overlay(m, a, img)[a + k] == img[k].value;
      }
    }
  }

  predicate ConstPath(c: Constant, p: seq<nat>) {
    p == [] || (Aggregate(c) && p[0] < |c.elems| && ConstPath(c.elems[p[0]], p[1..]))
  }

  function ConstAt(c: Constant, p: seq<nat>): Constant
    requires ConstPath(c, p)
  {
    if p == [] then c else ConstAt(c.elems[p[0]], p[1..])
  }

  /** `sub` is found in `img` at `at`, wherever `sub` determines a byte. */
  ghost predicate Shows(img: Image, at: nat, sub: Image) {
    at + |sub| <= |img| && forall k | 0 <= k < |sub| && sub[k].Some? :: img[at + k] == sub[k]
  }

  lemma ShowsItself(img: Image)
    ensures Shows(img, 0, img)
  {
  }

  lemma ShowsTransitive(img: Image, a: nat, mid: Image, b: nat, sub: Image)
    requires Shows(img, a, mid) && Shows(mid, b, sub)
    ensures Shows(img, a + b, sub)
  {
    forall k | 0 <= k < |sub| && sub[k].Some?
      ensures img[a + b + k] == sub[k]
    {
      assert mid[b + k] == sub[k];
      assert img[a + (b + k)] == mid[b + k];
    }
  }

  lemma ShowsAfterPlacing(img: Image, a: nat, sub: Image, b: nat, other: Image)
    requires Shows(img, a, sub) && a + |sub| <= b && b + |other| <= |img|
    ensures Shows(Placed(img, b, other), a, sub)
  {
    forall k | 0 <= k < |sub| && sub[k].Some?
      ensures Placed(img, b, other)[a + k] == sub[k]
    {
      assert img[a + k] == sub[k];
    }
  }

  lemma ShowsPlaced(img: Image, a: nat, sub: Image)
    requires a + |sub| <= |img|
    ensures Shows(Placed(img, a, sub), a, sub)
  {
  }

  /** Each operand keeps its own image: later operands start behind it. */
  lemma {:induction false} OperandKept(t: LType, es: seq<Constant>, i: nat, n: nat)
    requires Operands(t, es) && i < n <= |es|
    ensures Shows(OperandsImage(t, es, n), ElementOffset(t, i), ImageOf(es[i]))
    decreases n
  {
    hide ElementOffset, ImageOf, Shows, AllocSize, Placed;
    if i < n - 1 {
      OperandKept(t, es, i, n - 1);
      LastKeepsEarlier(t, es, i, n);
    } else {
      OperandPlaced(t, es, i);
      ShowsPlaced(OperandsImage(t, es, i), ElementOffset(t, i), ImageOf(es[i]));
    }
  }

  lemma OperandsOrdered(t: LType, es: seq<Constant>, i: nat, j: nat)
    requires Operands(t, es) && i < j < |es|
    ensures ElementOffset(t, i) + AllocSize(TypeOf(es[i])) <= ElementOffset(t, j)
  {
    hide ElementOffset, AllocSize, WellTyped;
    SlotsOrdered(t, i, j);
  }

  lemma LastKeepsEarlier(t: LType, es: seq<Constant>, i: nat, n: nat)
    requires Operands(t, es) && i < n - 1 < |es|
    requires Shows(OperandsImage(t, es, n - 1), ElementOffset(t, i), ImageOf(es[i]))
    ensures Shows(OperandsImage(t, es, n), ElementOffset(t, i), ImageOf(es[i]))
  {
    hide ElementOffset, ImageOf, Shows, AllocSize, Placed, OperandsImage, WellTyped, TypeOf;
    OperandPlaced(t, es, n - 1);
    OperandsOrdered(t, es, i, n - 1);
    ShowsAfterPlacing(OperandsImage(t, es, n - 1), ElementOffset(t, i), ImageOf(es[i]),
                      ElementOffset(t, n - 1), ImageOf(es[n - 1]));
  }

  /** The layout walk takes the step to the operand first. */
  lemma WalkInto(c: Constant, p: seq<nat>)
    requires WellTyped(c) && ConstPath(c, p)
    ensures if p == [] then Walk(TypeOf(c), p) == Some(Place(0, TypeOf(c)))
            else
              && Operands(TypeOf(c), c.elems) && p[0] < Arity(TypeOf(c))
              && (Walk(TypeOf(c.elems[p[0]]), p[1..]).Some? ==>
                    && Walk(TypeOf(c), p).Some?
                    && Walk(TypeOf(c), p).value.offset ==
                       ElementOffset(TypeOf(c), p[0]) + Walk(TypeOf(c.elems[p[0]]), p[1..]).value.offset)
  {
  }

  /** A leaf's image is found at the offset the struct layout gives its path. */
  lemma {:induction false} LeafStored(c: Constant, p: seq<nat>)
    requires WellTyped(c) && ConstPath(c, p)
    ensures WellTyped(ConstAt(c, p)) && Walk(TypeOf(c), p).Some?
    ensures Shows(ImageOf(c), Walk(TypeOf(c), p).value.offset, ImageOf(ConstAt(c, p)))
    decreases p
  {
    hide Shows, ElementOffset, AllocSize, Walk;
    WalkInto(c, p);
    ShowsItself(ImageOf(c));
    if p != [] {
      var i := p[0];
      var sub := c.elems[i];
      LeafStored(sub, p[1..]);
      OperandKept(TypeOf(c), c.elems, i, |c.elems|);
      ShowsTransitive(ImageOf(c), ElementOffset(TypeOf(c), i), ImageOf(sub),
                      Walk(TypeOf(sub), p[1..]).value.offset, ImageOf(ConstAt(c, p)));
    }
  }

  /** After initialisation, reading a scalar leaf at its layout offset returns the bytes
      of its value. */
  lemma ScalarReadBack(c: Constant, p: seq<nat>, m: Bytes, a: nat)
    requires WellTyped(c) && ConstPath(c, p) && ConstAt(c, p).ScalarConst?
    requires a + AllocSize(TypeOf(c)) <= |m|
    ensures Walk(TypeOf(c), p).Some?
    ensures var at, raw := a + Walk(TypeOf(c), p).value.offset, ConstAt(c, p).raw;
            at + |raw| <= |m| && Overlay(m, a, ImageOf(c))[at..at + |raw|] == raw
  {
    hide ImageOf, Walk, Overlay, Shows, Begins, WellTyped, ConstAt, ConstPath, AllocSize, TypeOf;
    LeafStored(c, p);
    var leaf := ConstAt(c, p);
    ScalarImage(leaf);
    ShownBytes(m, a, ImageOf(c), Walk(TypeOf(c), p).value.offset, ImageOf(leaf), leaf.raw);
  }

  /** The image determines these bytes first. */
  ghost predicate Begins(img: Image, raw: Bytes) {
    |raw| <= |img| && forall k | 0 <= k < |raw| :: img[k] == Some(raw[k])
  }

  lemma ScalarImage(c: Constant)
    requires WellTyped(c) && c.ScalarConst?
    ensures Begins(ImageOf(c), c.raw)
  {
  }

  lemma ShownBytes(m: Bytes, a: nat, img: Image, off: nat, sub: Image, raw: Bytes)
    requires a + |img| <= |m| && Shows(img, off, sub)
    requires Begins(sub, raw)
    ensures a + off + |raw| <= |m| && Overlay(m, a, img)[a + off..a + off + |raw|] == raw
  {
    forall k | 0 <= k < |raw|
      ensures Overlay(m, a, img)[a + off + k] == raw[k]
    {
      assert img[off + k] == sub[k];
      OverlayAt(m, a, img, a + (off + k));
    }
  }
}
