// What sizes and offsets are, said without the functions that compute them: the least
// ones that leave room and keep alignments. First for C types, then for LLVM's.
module LeastLayout {
  import opened Common
  import opened DebugTypes
  import opened TypePaths
  import opened Layout

  predicate Multiple(n: nat, a: pos) {
    n % a == 0
  }

  /** `r` is the least multiple of `a` that is not below `n`. */
  ghost predicate LeastFrom(n: nat, a: pos, r: nat) {
    Multiple(r, a) && n <= r && forall m: nat | Multiple(m, a) && n <= m :: r <= m
  }

  lemma AlignUpLeast(n: nat, a: pos)
    ensures LeastFrom(n, a, AlignUp(n, a))
  {
    AlignedUp(n, a);
    forall m: nat | Multiple(m, a) && n <= m ensures AlignUp(n, a) <= m {
      if n % a != 0 { NoMultipleBetween(n, a, m); }
    }
  }

  lemma NoMultipleBetween(n: nat, a: pos, m: nat)
    requires n % a != 0 && m % a == 0 && n <= m
    ensures n + (a - n % a) <= m
  {
    Quotients(n, a, n % a, m, n / a, m / a);
  }

  lemma Quotients(n: nat, a: pos, r: nat, m: nat, q: nat, k: nat)
    requires n == q * a + r && m == k * a && 0 < r < a && n <= m
    ensures n + (a - r) <= m
  {
    if k <= q { MulMonotone(k, q, a); } else { MulMonotone(q + 1, k, a); }
    assert (q + 1) * a == q * a + a;
  }

  // ---- C ----

  /** A record is aligned as its strictest member, for any number of members. */
  lemma RecordAlignment(ms: seq<Member>)
    ensures Align(Struct(ms)) == Align(Union(ms))
    ensures forall i | 0 <= i < |ms| :: Align(ms[i].ty) <= Align(Struct(ms))
    ensures if ms == [] then Align(Struct(ms)) == 1
            else exists i | 0 <= i < |ms| :: Align(ms[i].ty) == Align(Struct(ms))
  {
    StrictestMember(ms, |ms|);
  }

  lemma {:induction false} StrictestMember(ms: seq<Member>, n: nat)
    requires n <= |ms|
    ensures forall i | 0 <= i < n :: Align(ms[i].ty) <= MaxAlign(ms, n)
    ensures if n == 0 then MaxAlign(ms, n) == 1 else exists i | 0 <= i < n :: Align(ms[i].ty) == MaxAlign(ms, n)
  {
    hide Align;
    if n > 0 {
      StrictestMember(ms, n - 1);
      if MaxAlign(ms, n) == Align(ms[n - 1].ty) { assert 0 <= n - 1 < n; }
    }
  }

  /** Room for one member: all that a union needs. */
  ghost predicate HoldsEach(ms: seq<Member>, n: nat) {
    forall i | 0 <= i < |ms| :: Size(ms[i].ty) <= n
  }

  /** A union is as large as its largest member, rounded up to its alignment: no smaller
      size that is a multiple of the alignment holds every member. */
  lemma UnionSizeLeast(ms: seq<Member>, n: nat)
    ensures Multiple(Size(Union(ms)), Align(Union(ms))) && HoldsEach(ms, Size(Union(ms)))
    ensures Multiple(n, Align(Union(ms))) && HoldsEach(ms, n) ==> Size(Union(ms)) <= n
  {
    AlignUpLeast(MaxSize(ms, |ms|), MaxAlign(ms, |ms|));
    hide AlignUp, MaxAlign, MaxSize;
    forall i | 0 <= i < |ms| ensures Size(ms[i].ty) <= Size(Union(ms)) { MaxSizeBounds(ms, i, |ms|); }
    if HoldsEach(ms, n) { LargestBelow(ms, |ms|, n); }
  }

  lemma {:induction false} LargestBelow(ms: seq<Member>, k: nat, n: nat)
    requires k <= |ms| && HoldsEach(ms, n)
    ensures MaxSize(ms, k) <= n
  {
    if k > 0 { LargestBelow(ms, k - 1, n); }
  }

  /** Where the field before the `i`-th ends. */
  function EndBefore(ms: seq<Member>, i: nat): nat
    requires i <= |ms|
  {
    if i == 0 then 0 else FieldOffset(ms, i - 1) + Size(ms[i - 1].ty)
  }

  /** Each field starts at the least place behind the one before it that suits its
      alignment; the first one at the start. */
  lemma FieldOffsetLeast(ms: seq<Member>, i: nat)
    requires i < |ms|
    ensures LeastFrom(EndBefore(ms, i), Align(ms[i].ty), FieldOffset(ms, i))
    ensures i == 0 ==> FieldOffset(ms, i) == 0
  {
    AlignUpLeast(FieldsEnd(ms, i), Align(ms[i].ty));
    if i > 0 { FieldEnds(ms, i - 1); } else { AlignedUp(0, Align(ms[i].ty)); }
  }

  /** A struct ends at the least multiple of its alignment behind its last field. */
  lemma StructSizeLeast(ms: seq<Member>)
    ensures LeastFrom(EndBefore(ms, |ms|), Align(Struct(ms)), Size(Struct(ms)))
  {
    AlignUpLeast(FieldsEnd(ms, |ms|), MaxAlign(ms, |ms|));
    if ms != [] { FieldEnds(ms, |ms| - 1); }
  }

  /** The elements of an array lie one behind the other from its start, and fill it; the
      members of a union all start where it does. */
  lemma ElementsAdjacent(t: DIType, i: nat)
    requires HasChild(t, i)
    ensures i == 0 ==> ChildOffset(t, i) == 0
    ensures Strip(t).Union? ==> ChildOffset(t, i) == 0
    ensures Strip(t).Struct? ==> ChildOffset(t, i) == FieldOffset(Strip(t).members, i)
    ensures Strip(t).Array? && HasChild(t, i + 1) ==> ChildOffset(t, i + 1) == ChildOffset(t, i) + Size(Child(t, i))
    ensures Strip(t).Array? && !HasChild(t, i + 1) ==> Size(t) == ChildOffset(t, i) + Size(Child(t, i))
  {
    StripFacts(t);
    match Strip(t)
    case Struct(ms) => FieldOffsetLeast(ms, i);
    case Array(e, n) =>
      assert Size(Strip(t)) == n * Size(e);
      assert (i + 1) * Size(e) == i * Size(e) + Size(e);
    case _ =>
  }

  /** Of the members of a union the one LLVM keeps is aligned most strictly; among those
      it is the largest; among those the first. */
  lemma {:induction false} KeptChoice(ms: seq<Member>, n: nat, j: nat)
    requires j < n <= |ms|
    ensures var k := Kept(ms, n);
            || Align(ms[j].ty) < Align(ms[k].ty)
            || (Align(ms[j].ty) == Align(ms[k].ty) &&
                (Size(ms[j].ty) < Size(ms[k].ty) || (Size(ms[j].ty) == Size(ms[k].ty) && k <= j)))
    decreases n
  {
    hide Align, Size, MaxAlign;
    if j < n - 1 {
      KeptChoice(ms, n - 1, j);
    }
  }

  // ---- LLVM ----

  function LEndBefore(fs: seq<LType>, i: nat): nat
    requires i <= |fs|
  {
    if i == 0 then 0 else LFieldOffset(fs, i - 1) + AllocSize(fs[i - 1])
  }

  lemma {:induction false} StrictestField(fs: seq<LType>, n: nat)
    requires n <= |fs|
    ensures forall i | 0 <= i < n :: LAlign(fs[i]) <= LMaxAlign(fs, n)
    ensures if n == 0 then LMaxAlign(fs, n) == 1 else exists i | 0 <= i < n :: LAlign(fs[i]) == LMaxAlign(fs, n)
  {
    hide LAlign;
    if n > 0 {
      StrictestField(fs, n - 1);
      if LMaxAlign(fs, n) == LAlign(fs[n - 1]) { assert 0 <= n - 1 < n; }
    }
  }

  /** The same for LLVM's structs: each element starts at the least place that suits its
      alignment, and the struct ends at the least multiple of the strictest one. */
  lemma ElementOffsetLeast(fs: seq<LType>, i: nat)
    requires i < |fs|
    ensures LeastFrom(LEndBefore(fs, i), LAlign(fs[i]), LFieldOffset(fs, i))
  {
    AlignUpLeast(LFieldsEnd(fs, i), LAlign(fs[i]));
    if i > 0 { FieldEndsAt(fs, i - 1); }
  }

  lemma FieldEndsAt(fs: seq<LType>, i: nat)
    requires i < |fs|
    ensures LFieldOffset(fs, i) + AllocSize(fs[i]) == LFieldsEnd(fs, i + 1)
  {
  }

  lemma StoreSizeLeast(fs: seq<LType>)
    ensures LeastFrom(LEndBefore(fs, |fs|), LAlign(LStruct(fs)), StoreSize(LStruct(fs)))
    ensures forall i | 0 <= i < |fs| :: LAlign(fs[i]) <= LAlign(LStruct(fs))
    ensures if fs == [] then LAlign(LStruct(fs)) == 1
            else exists i | 0 <= i < |fs| :: LAlign(fs[i]) == LAlign(LStruct(fs))
  {
    AlignUpLeast(LFieldsEnd(fs, |fs|), LMaxAlign(fs, |fs|));
    StrictestField(fs, |fs|);
    if fs != [] { FieldEndsAt(fs, |fs| - 1); }
  }

  /** The stride of an array is the least multiple of the element's alignment that holds
      an element; `n` strides are the array. */
  lemma StrideLeast(e: LType, n: nat)
    ensures LeastFrom(StoreSize(e), LAlign(e), AllocSize(e))
    ensures StoreSize(LArray(e, n)) == n * AllocSize(e) && LAlign(LArray(e, n)) == LAlign(e)
  {
    AlignUpLeast(StoreSize(e), LAlign(e));
  }
}
