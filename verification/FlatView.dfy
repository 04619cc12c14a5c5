// Guarded address translation, and the flat memory it presents: the bytes of live
// blocks, keyed by interpreter address.
module FlatView {
  import opened Common
  import opened ByteMemory
  import opened AddressSpace

  type View = map<nat, byte>

  /** Some block starts at or below the address and some block ends at or above it. */
  ghost predicate InSpan(starts: AllocationMap, k: nat) {
    && (exists s: nat :: s in starts && s <= k)
    && (exists s: nat :: s in starts && k <= s + starts[s].size)
  }

  /** Guarded translation: inside a block base plus offset, in a gap between blocks
      null, outside all blocks the address itself. */
  ghost function Translated(starts: AllocationMap, k: nat): nat {
    match BlockOf(starts, k)
    case Some(b) => starts[b].vptr + (k - b)
    case None => if InSpan(starts, k) then 0 else k
  }

  /** Translation, block by block: in the closed range of a block it is the host pointer
      plus the distance from the start; in a gap, null; outside all blocks nothing. */
  lemma TranslationCases(starts: AllocationMap, k: nat, b: nat)
    requires Ordered(starts)
    ensures b in starts && b <= k <= b + starts[b].size ==> Translated(starts, k) == starts[b].vptr + (k - b)
    ensures (forall s | s in starts :: !(s <= k <= s + starts[s].size)) ==>
              Translated(starts, k) ==
              if (exists s: nat :: s in starts && s <= k) && (exists s: nat :: s in starts && k <= s + starts[s].size)
              then 0 else k
  {
    if Contains(starts, b, k) { BlockUnique(starts, b, k); }
  }

  /** Host blocks of different interpreter blocks are apart. */
  ghost predicate HostBlocksApart(starts: AllocationMap) {
    forall s, t | s in starts && t in starts && s != t ::
      HostApart(starts[s].vptr, starts[s].size, starts[t].vptr, starts[t].size)
  }

  /** `a .. a + n` lies in the block at `b`; for `n == 0` its end is allowed. */
  ghost predicate Within(starts: AllocationMap, b: nat, a: nat, n: nat) {
    b in starts && b <= a && a + n <= b + starts[b].size
  }

  ghost predicate Live(starts: AllocationMap, k: nat) {
    exists b: nat :: Within(starts, b, k, 1)
  }

  lemma LiveTranslation(starts: AllocationMap, b: nat, a: nat, n: nat)
    requires Ordered(starts) && Within(starts, b, a, n)
    ensures Translated(starts, a) == starts[b].vptr + (a - b)
  {
    BlockUnique(starts, b, a);
  }

  /** Different live addresses are different host bytes. */
  lemma TranslationInjective(starts: AllocationMap, j: nat, k: nat)
    requires Ordered(starts) && HostBlocksApart(starts)
    requires Live(starts, j) && Live(starts, k) && Translated(starts, j) == Translated(starts, k)
    ensures j == k
  {
    var b: nat :| Within(starts, b, j, 1);
    var c: nat :| Within(starts, c, k, 1);
    LiveTranslation(starts, b, j, 1);
    LiveTranslation(starts, c, k, 1);
  }

  /** Every block lies in host memory of `limit` bytes. */
  ghost predicate InHost(starts: AllocationMap, limit: nat) {
    forall s | s in starts :: 0 < starts[s].vptr && starts[s].vptr + starts[s].size <= limit
  }

  ghost function LiveSet(starts: AllocationMap): set<nat> {
    set k: nat | k < END_ADDR && Live(starts, k)
  }

  ghost function ByteAt(m: Bytes, a: nat): byte {
    if a < |m| then m[a] else 0
  }

  /** The live bytes of memory `m`, by interpreter address. */
  ghost function ViewOf(starts: AllocationMap, m: Bytes): View {
    map k | k in LiveSet(starts) :: ByteAt(m, Translated(starts, k))
  }

  ghost function ViewWrite(v: View, a: nat, bytes: Bytes): View {
    map k | k in v :: if a <= k < a + |bytes| then bytes[k - a] else v[k]
  }

  ghost predicate Covers(v: View, a: nat, n: nat) {
    forall k: nat | a <= k < a + n :: k in v
  }

  ghost function ViewRead(v: View, a: nat, n: nat): Bytes
    requires Covers(v, a, n)
  {
    seq(n, i requires 0 <= i < n => assert a <= a + i < a + n; v[a + i])
  }

  ghost predicate BelowEnd(starts: AllocationMap) {
    forall s | s in starts :: s + starts[s].size < END_ADDR
  }

  /** What both translations and the flat memory need of the start map. */
  ghost predicate WellPlaced(starts: AllocationMap, limit: nat) {
    Ordered(starts) && HostBlocksApart(starts) && InHost(starts, limit) && BelowEnd(starts)
  }

  lemma BlockCovered(starts: AllocationMap, m: Bytes, b: nat, a: nat, n: nat)
    requires WellPlaced(starts, |m|) && Within(starts, b, a, n)
    ensures Covers(ViewOf(starts, m), a, n)
    ensures starts[b].vptr + (a - b) + n <= |m|
    ensures ViewRead(ViewOf(starts, m), a, n) == m[starts[b].vptr + (a - b)..][..n]
  {
    BlockInHost(starts, |m|, b, a, n);
    forall k: nat | a <= k < a + n
      ensures k in LiveSet(starts) && Translated(starts, k) == starts[b].vptr + (k - b)
    {
      assert Within(starts, b, k, 1);
      LiveTranslation(starts, b, k, 1);
    }
    assert ViewRead(ViewOf(starts, m), a, n) == m[starts[b].vptr + (a - b)..][..n];
  }

  /** A copy through one translated block is a write to the flat memory. */
  lemma WriteThroughBlock(starts: AllocationMap, m: Bytes, b: nat, a: nat, host: nat, v: Bytes)
    requires WellPlaced(starts, |m|) && Within(starts, b, a, |v|) && host == starts[b].vptr + (a - b)
    ensures host + |v| <= |m|
    ensures ViewOf(starts, Overwrite(m, host, v)) == ViewWrite(ViewOf(starts, m), a, v)
  {
    BlockInHost(starts, |m|, b, a, |v|);
    var m' := Overwrite(m, host, v);
    forall k | k in LiveSet(starts)
      ensures ByteAt(m', Translated(starts, k)) ==
              if a <= k < a + |v| then v[k - a] else ByteAt(m, Translated(starts, k))
    {
      WrittenByteAt(starts, m, b, a, v, k);
    }
    SameView(starts, m, m', a, v);
  }

  lemma BlockInHost(starts: AllocationMap, limit: nat, b: nat, a: nat, n: nat)
    requires InHost(starts, limit) && Within(starts, b, a, n)
    ensures starts[b].vptr + (a - b) + n <= limit
  {
  }

  lemma WrittenByteAt(starts: AllocationMap, m: Bytes, b: nat, a: nat, v: Bytes, k: nat)
    requires Ordered(starts) && HostBlocksApart(starts) && Within(starts, b, a, |v|) && Live(starts, k)
    requires starts[b].vptr + (a - b) + |v| <= |m|
    ensures ByteAt(Overwrite(m, starts[b].vptr + (a - b), v), Translated(starts, k)) ==
            if a <= k < a + |v| then v[k - a] else ByteAt(m, Translated(starts, k))
  {
    WrittenByte(starts, b, a, |v|, k);
  }

  lemma SameView(starts: AllocationMap, m: Bytes, m': Bytes, a: nat, v: Bytes)
    requires forall k | k in LiveSet(starts) ::
               ByteAt(m', Translated(starts, k)) ==
               if a <= k < a + |v| then v[k - a] else ByteAt(m, Translated(starts, k))
    ensures ViewOf(starts, m') == ViewWrite(ViewOf(starts, m), a, v)
  {
  }

  lemma WrittenByte(starts: AllocationMap, b: nat, a: nat, n: nat, k: nat)
    requires Ordered(starts) && HostBlocksApart(starts) && Within(starts, b, a, n) && Live(starts, k)
    ensures var h := starts[b].vptr + (a - b);
            h <= Translated(starts, k) < h + n <==> a <= k < a + n
    ensures a <= k < a + n ==> Translated(starts, k) == starts[b].vptr + (k - b)
  {
    var c: nat :| Within(starts, c, k, 1);
    LiveTranslation(starts, c, k, 1);
    if c == b {
    } else {
      assert HostApart(starts[b].vptr, starts[b].size, starts[c].vptr, starts[c].size);
      if a <= k < a + n { BlocksDiffer(starts, b, c, k); }
    }
  }

  lemma OldByteKept(starts: AllocationMap, b: nat, d: AllocationData, k: nat)
    requires Ordered(starts) && Ordered(starts[b := d]) && b !in starts && Live(starts, k)
    ensures Live(starts[b := d], k) && Translated(starts[b := d], k) == Translated(starts, k)
    ensures !(b <= k < b + d.size)
  {
    var c: nat :| Within(starts, c, k, 1);
    var starts' := starts[b := d];
    assert Within(starts', c, k, 1);
    LiveTranslation(starts, c, k, 1);
    LiveTranslation(starts', c, k, 1);
    if b <= k < b + d.size { BlocksDiffer(starts', b, c, k); }
  }

  /** `w` has the bytes of `v` and possibly more. */
  ghost predicate Extends(w: View, v: View) {
    forall k | k in v :: k in w && w[k] == v[k]
  }

  /** Registering a block adds its bytes and keeps the others. */
  lemma ViewGrows(starts: AllocationMap, m: Bytes, b: nat, d: AllocationData)
    requires WellPlaced(starts, |m|) && WellPlaced(starts[b := d], |m|) && b !in starts
    ensures Extends(ViewOf(starts[b := d], m), ViewOf(starts, m))
    ensures Covers(ViewOf(starts[b := d], m), b, d.size)
    ensures forall k: nat | b <= k < b + d.size :: k !in ViewOf(starts, m)
  {
    forall k | k in LiveSet(starts)
      ensures k in LiveSet(starts[b := d]) && Translated(starts[b := d], k) == Translated(starts, k)
      ensures !(b <= k < b + d.size)
    {
      OldByteKept(starts, b, d, k);
    }
    BlockCovered(starts[b := d], m, b, b, d.size);
  }

  /** Taking blocks away takes their bytes away and keeps the others. */
  lemma ViewShrinks(starts: AllocationMap, fewer: AllocationMap, m: Bytes)
    requires Ordered(starts) && Ordered(fewer)
    requires forall s | s in fewer :: s in starts && starts[s] == fewer[s]
    ensures Extends(ViewOf(starts, m), ViewOf(fewer, m))
  {
    forall k | k in LiveSet(fewer)
      ensures k in LiveSet(starts) && Translated(fewer, k) == Translated(starts, k)
    {
      var b: nat :| Within(fewer, b, k, 1);
      assert Within(starts, b, k, 1);
      LiveTranslation(fewer, b, k, 1);
      LiveTranslation(starts, b, k, 1);
    }
  }
}
