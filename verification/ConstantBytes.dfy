// What initialising from a constant leaves at every byte, said by the constant's leaves
// and the layout walk alone.
module ConstantBytes {
  import opened Common
  import opened ByteMemory
  import opened Layout
  import opened FlatView
  import opened InitMemory
  import opened Globals

  /** What a constant that is no aggregate of operands says of its `j`-th byte: a zero
      aggregate is zero over its whole allocation size, undef says nothing. */
  function LeafValue(c: Constant, j: nat): Option<byte> {
    match c
    case AggregateZero(t) => if j < AllocSize(t) then Some(0) else None
    case DataSequential(_, _, raw) => if j < |raw| then Some(raw[j]) else None
    case ScalarConst(_, raw) => if j < |raw| then Some(raw[j]) else None
    case _ => None
  }

  /** The constant at path `p`, where the layout walk puts it, says that byte `k` is `x`. */
  ghost predicate Says(c: Constant, p: seq<nat>, k: nat, x: byte) {
    && ConstPath(c, p) && Walk(TypeOf(c), p).Some? && Walk(TypeOf(c), p).value.offset <= k
    && LeafValue(ConstAt(c, p), k - Walk(TypeOf(c), p).value.offset) == Some(x)
  }

  ghost predicate SaysNothing(c: Constant, k: nat) {
    forall p, x :: !Says(c, p, k, x)
  }

  lemma LeafImage(c: Constant, j: nat)
    requires WellTyped(c) && !Aggregate(c) && j < AllocSize(TypeOf(c))
    ensures ImageOf(c)[j] == LeafValue(c, j)
  {
  }

  lemma LeafFits(c: Constant, j: nat)
    requires WellTyped(c) && LeafValue(c, j).Some?
    ensures j < AllocSize(TypeOf(c)) && ImageOf(c)[j] == LeafValue(c, j)
  {
    RoomForRaw(c);
    LeafImage(c, j);
  }

  lemma RoomForRaw(c: Constant)
    requires WellTyped(c)
    ensures c.DataSequential? || c.ScalarConst? ==> |c.raw| <= AllocSize(TypeOf(c))
  {
  }

  /** Whatever a leaf says is in the image. */
  lemma SaidIsStored(c: Constant, p: seq<nat>, k: nat, x: byte)
    requires WellTyped(c) && Says(c, p, k, x)
    ensures k < |ImageOf(c)| && ImageOf(c)[k] == Some(x)
  {
    hide ImageOf, Walk, ConstAt, ConstPath, AllocSize, LeafValue, TypeOf, WellTyped;
    LeafStored(c, p);
    var off, leaf := Walk(TypeOf(c), p).value.offset, ConstAt(c, p);
    LeafFits(leaf, k - off);
    assert ImageOf(leaf)[k - off] == Some(x);
    assert ImageOf(c)[off + (k - off)] == ImageOf(leaf)[k - off];
  }

  /** Whatever is in the image some leaf says. */
  lemma {:induction false} StoredIsSaid(c: Constant, k: nat) returns (p: seq<nat>)
    requires WellTyped(c) && k < |ImageOf(c)| && ImageOf(c)[k].Some?
    ensures Says(c, p, k, ImageOf(c)[k].value)
    decreases c
  {
    if Aggregate(c) {
      var i := SomeOperandSays(c, k);
      hide ElementOffset, Walk, ImageOf, WellTyped, TypeOf;
      var q := StoredIsSaid(c.elems[i], k - ElementOffset(TypeOf(c), i));
      p := [i] + q;
      BelowOperand(c, i, q);
    } else {
      p := [];
      LeafImage(c, k);
    }
  }

  lemma SomeOperandSays(c: Constant, k: nat) returns (i: nat)
    requires WellTyped(c) && Aggregate(c) && k < |ImageOf(c)| && ImageOf(c)[k].Some?
    ensures i < |c.elems| && i < Arity(TypeOf(c)) && WellTyped(c.elems[i])
    ensures var off := ElementOffset(TypeOf(c), i);
            off <= k < off + |ImageOf(c.elems[i])| && ImageOf(c.elems[i])[k - off] == ImageOf(c)[k]
  {
    hide AllocSize, ElementOffset;
    i := OperandSays(TypeOf(c), c.elems, |c.elems|, k);
  }

  lemma BelowOperand(c: Constant, i: nat, q: seq<nat>)
    requires WellTyped(c) && Aggregate(c) && i < |c.elems| && ConstPath(c.elems[i], q)
    requires Walk(TypeOf(c.elems[i]), q).Some?
    ensures i < Arity(TypeOf(c)) && ConstPath(c, [i] + q) && ConstAt(c, [i] + q) == ConstAt(c.elems[i], q)
    ensures Walk(TypeOf(c), [i] + q).Some?
    ensures Walk(TypeOf(c), [i] + q).value.offset ==
            ElementOffset(TypeOf(c), i) + Walk(TypeOf(c.elems[i]), q).value.offset
  {
    assert ([i] + q)[1..] == q;
    WalkInto(c, [i] + q);
  }

  lemma {:induction false} OperandSays(t: LType, es: seq<Constant>, n: nat, k: nat) returns (i: nat)
    requires Operands(t, es) && n <= |es| && k < AllocSize(t) && OperandsImage(t, es, n)[k].Some?
    ensures i < n && ElementOffset(t, i) <= k < ElementOffset(t, i) + |ImageOf(es[i])|
    ensures ImageOf(es[i])[k - ElementOffset(t, i)] == OperandsImage(t, es, n)[k]
    decreases n
  {
    hide *;
    NothingWithout(t, es, n, k);
    i := n - 1;
    OperandFits(t, es, i);
    LastOrEarlier(t, es, i, k);
    if !(ElementOffset(t, i) <= k < ElementOffset(t, i) + |ImageOf(es[i])| &&
         ImageOf(es[i])[k - ElementOffset(t, i)].Some?) {
      i := OperandSays(t, es, n - 1, k);
    }
  }

  lemma LastOrEarlier(t: LType, es: seq<Constant>, i: nat, k: nat)
    requires Operands(t, es) && i < |es| && k < AllocSize(t)
    ensures var off, img := ElementOffset(t, i), ImageOf(es[i]);
            OperandsImage(t, es, i + 1)[k] ==
              if off <= k < off + |img| && img[k - off].Some? then img[k - off] else OperandsImage(t, es, i)[k]
  {
    hide *;
    OperandFits(t, es, i);
    OperandPlaced(t, es, i);
    PlacedByte(OperandsImage(t, es, i), ElementOffset(t, i), ImageOf(es[i]), k);
  }

  lemma OperandFits(t: LType, es: seq<Constant>, i: nat)
    requires Operands(t, es) && i < |es|
    ensures i < Arity(t) && WellTyped(es[i])
  {
  }

  lemma PlacedByte(img: Image, at: nat, sub: Image, k: nat)
    requires at + |sub| <= |img| && k < |img|
    ensures Placed(img, at, sub)[k] == if at <= k < at + |sub| && sub[k - at].Some? then sub[k - at] else img[k]
  {
  }

  lemma NothingWithout(t: LType, es: seq<Constant>, n: nat, k: nat)
    requires Operands(t, es) && n <= |es| && k < AllocSize(t) && OperandsImage(t, es, n)[k].Some?
    ensures n > 0
  {
  }

  /** After InitializeMemory, where a leaf of the constant says what the byte is, it is
      that. */
  lemma SaidByte(c: Constant, p: seq<nat>, k: nat, x: byte, m: Bytes, a: nat)
    requires WellTyped(c) && a + AllocSize(TypeOf(c)) <= |m| && Says(c, p, k, x)
    ensures a + k < |m| && Overlay(m, a, ImageOf(c))[a + k] == x
  {
    hide ImageOf, Says, Overlay;
    SaidIsStored(c, p, k, x);
    OverlayAt(m, a, ImageOf(c), a + k);
  }

  /** Every other byte, padding and undef included, is what it was. */
  lemma UnsaidByte(c: Constant, m: Bytes, a: nat, k: nat)
    requires WellTyped(c) && a + AllocSize(TypeOf(c)) <= |m| && k < |m|
    requires k < a || SaysNothing(c, k - a)
    ensures Overlay(m, a, ImageOf(c))[k] == m[k]
  {
    hide ImageOf, Says, Overlay;
    OverlayAt(m, a, ImageOf(c), k);
    if a <= k < a + |ImageOf(c)| && ImageOf(c)[k - a].Some? {
      var p := StoredIsSaid(c, k - a);
    }
  }

  /** A zero aggregate anywhere in the constant says 0 of each of its bytes, padding
      included. */
  lemma ZeroSays(c: Constant, p: seq<nat>, j: nat)
    requires WellTyped(c) && ConstPath(c, p) && ConstAt(c, p).AggregateZero? && j < AllocSize(ConstAt(c, p).ty)
    ensures Walk(TypeOf(c), p).Some? && Says(c, p, Walk(TypeOf(c), p).value.offset + j, 0)
  {
    LeafStored(c, p);
  }

  // ---- In the flat memory ----

  /** An initialised global shows at its interpreter address whatever its leaves say. */
  lemma GlobalByte(v: View, g: GlobalVariable, p: seq<nat>, k: nat, x: byte)
    requires Initialised(v, g) && Says(g.init, p, k, x)
    ensures g.vvptr + k in v && v[g.vvptr + k] == x
  {
    hide Says, ImageOf, WellTyped;
    SaidIsStored(g.init, p, k, x);
  }

  /** The bytes an initialiser determines, the only ones that initialising and resetting
      change, are those some leaf of it says. */
  lemma DeterminesExactly(g: GlobalVariable, k: nat)
    requires WellTyped(g.init) && g.vvptr <= k
    ensures Determines(g, k) <==> !SaysNothing(g.init, k - g.vvptr)
  {
    hide Says, ImageOf, WellTyped, AllocSize;
    var off := k - g.vvptr;
    if Determines(g, k) {
      var p := StoredIsSaid(g.init, off);
    }
    forall p, x | Says(g.init, p, off, x) ensures Determines(g, k) {
      SaidIsStored(g.init, p, off, x);
    }
  }

  /** Every byte of a zero aggregate in an initialised global reads 0. */
  lemma GlobalZeroReads(v: View, g: GlobalVariable, p: seq<nat>, j: nat)
    requires Initialised(v, g) && ConstPath(g.init, p) && ConstAt(g.init, p).AggregateZero?
    requires j < AllocSize(ConstAt(g.init, p).ty)
    ensures Walk(TypeOf(g.init), p).Some?
    ensures var k := g.vvptr + Walk(TypeOf(g.init), p).value.offset + j; k in v && v[k] == 0
  {
    hide Says, ImageOf, Walk;
    ZeroSays(g.init, p, j);
    GlobalByte(v, g, p, Walk(TypeOf(g.init), p).value.offset + j, 0);
  }

  /** A data-sequential or scalar leaf reads as its bytes. */
  lemma GlobalRawReads(v: View, g: GlobalVariable, p: seq<nat>)
    requires Initialised(v, g) && ConstPath(g.init, p)
    requires ConstAt(g.init, p).DataSequential? || ConstAt(g.init, p).ScalarConst?
    ensures Walk(TypeOf(g.init), p).Some?
    ensures var a, raw := g.vvptr + Walk(TypeOf(g.init), p).value.offset, ConstAt(g.init, p).raw;
            Covers(v, a, |raw|) && ViewRead(v, a, |raw|) == raw
  {
    hide ImageOf, ImageAt, Walk, Shows, Begins, AllocSize, TypeOf, Covers, ConstAt, ConstPath, WellTyped;
    LeafStored(g.init, p);
    RawBegins(ConstAt(g.init, p));
    ShownInView(v, g.vvptr, ImageOf(g.init), Walk(TypeOf(g.init), p).value.offset,
                ImageOf(ConstAt(g.init, p)), ConstAt(g.init, p).raw);
  }

  lemma RawBegins(c: Constant)
    requires WellTyped(c) && (c.DataSequential? || c.ScalarConst?)
    ensures Begins(ImageOf(c), c.raw)
  {
    RoomForRaw(c);
  }

  /** Element `i` of a data-sequential constant, where the walk puts it, reads as the
      `i`-th piece of its bytes; `s` is the size of an element. */
  lemma GlobalElementReads(v: View, g: GlobalVariable, p: seq<nat>, i: nat, s: nat, at: nat)
    requires Initialised(v, g) && ConstPath(g.init, p) && ConstAt(g.init, p).DataSequential?
    requires i < ConstAt(g.init, p).count && s == AllocSize(ConstAt(g.init, p).elemTy) && at == i * s
    ensures Walk(TypeOf(g.init), p + [i]).Some?
    ensures at + s <= |ConstAt(g.init, p).raw|
    ensures var a := g.vvptr + Walk(TypeOf(g.init), p + [i]).value.offset;
            Covers(v, a, s) && ViewRead(v, a, s) == ConstAt(g.init, p).raw[at..at + s]
  {
    hide ImageOf, Walk, ConstAt, ConstPath, AllocSize, TypeOf, Covers;
    var c := ConstAt(g.init, p);
    PlaceOfElement(g.init, p, i);
    hide Initialised, WellTyped;
    PieceFits(|c.raw|, s, i, c.count, at);
    GlobalRawReads(v, g, p);
    ReadPiece(v, g.vvptr + Walk(TypeOf(g.init), p).value.offset, |c.raw|, at, s);
  }

  lemma PlaceOfElement(c: Constant, p: seq<nat>, i: nat)
    requires WellTyped(c) && ConstPath(c, p) && ConstAt(c, p).DataSequential?
    ensures var d := ConstAt(c, p);
            && |d.raw| == d.count * AllocSize(d.elemTy)
            && Walk(TypeOf(c), p).Some? && Walk(TypeOf(c), p + [i]).Some?
            && Walk(TypeOf(c), p + [i]).value.offset == Walk(TypeOf(c), p).value.offset + i * AllocSize(d.elemTy)
  {
    hide Walk, AllocSize;
    var d := ConstAt(c, p);
    LeafStored(c, p);
    PlaceOfLeaf(c, p);
    WalkToElement(TypeOf(c), p, d.elemTy, d.count, i);
  }

  lemma ReadPiece(v: View, a: nat, n: nat, at: nat, s: nat)
    requires Covers(v, a, n) && at + s <= n
    ensures Covers(v, a + at, s) && ViewRead(v, a + at, s) == ViewRead(v, a, n)[at..at + s]
  {
    CoversInner(v, a, n, at, s);
  }

  lemma CoversInner(v: View, a: nat, n: nat, at: nat, s: nat)
    requires Covers(v, a, n) && at + s <= n
    ensures Covers(v, a + at, s)
  {
  }

  lemma PieceFits(len: nat, s: nat, i: nat, n: nat, at: nat)
    requires len == n * s && i < n && at == i * s
    ensures at + s <= len
  {
    MulMonotone(i + 1, n, s);
    assert (i + 1) * s == i * s + s;
  }

  lemma {:induction false} PlaceOfLeaf(c: Constant, p: seq<nat>)
    requires WellTyped(c) && ConstPath(c, p)
    ensures Walk(TypeOf(c), p).Some? && Walk(TypeOf(c), p).value.ty == TypeOf(ConstAt(c, p))
    decreases p
  {
    if p != [] {
      PlaceOfLeaf(c.elems[p[0]], p[1..]);
    }
  }

  lemma WalkToElement(t: LType, p: seq<nat>, e: LType, n: nat, i: nat)
    requires Walk(t, p).Some? && Walk(t, p).value.ty == LArray(e, n)
    ensures Walk(t, p + [i]).Some?
    ensures Walk(t, p + [i]).value.offset == Walk(t, p).value.offset + i * AllocSize(e)
  {
    WalksCompose(t, p, [i]);
    WalkCons(LArray(e, n), i, []);
    assert [i] + [] == [i];
  }
}
