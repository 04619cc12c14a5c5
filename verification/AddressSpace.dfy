// The interpreter's "virtual virtual" address space: the linear address generator, and
// the two ordered maps from interpreter addresses to host blocks, one keyed by block
// starts and one by block ends.
module AddressSpace {
  import opened Common

  const START_ADDR := 0x5000_0000
  const VV_SIZE := 0x0800_0000
  const END_ADDR := START_ADDR + VV_SIZE
  /** Range of `size_t` and `uintptr_t`. */
  const WORD := 0x1_0000_0000_0000_0000
  /** No host object reaches past this address. */
  const HOST_LIMIT := 0x8000_0000_0000_0000

  /** `(size + 4) & ~3` in `size_t`. */
  function Advance(size: nat): nat {
    (size + 4) % WORD / 4 * 4
  }

  /** Where the cursor goes, in `size_t`. */
  function Moved(cursor: nat, size: nat): nat {
    (cursor + Advance(size)) % WORD
  }

  /** Every block, an empty one included, moves the cursor past its closed end by at
      most four bytes; the arithmetic is right exactly while `size + 4` does not wrap. */
  lemma AdvanceExact(size: nat)
    requires size < WORD
    ensures size + 1 <= Advance(size) <= size + 4 <==> size + 4 < WORD
    ensures Advance(size) % 4 == 0
  {
  }

  class LinearVirtualMemoryAddressGenerator {
    var lastAllocAddr: nat
    var freezeStack: seq<nat>

    constructor ()
      ensures lastAllocAddr == START_ADDR && freezeStack == []
    {
      lastAllocAddr, freezeStack := START_ADDR, [];
    }

    ghost predicate Valid()
      reads this
    {
      START_ADDR <= lastAllocAddr <= END_ADDR && lastAllocAddr % 4 == 0
    }

    /** `None` is the exit for an exhausted address window. */
    method Next(size: nat) returns (r: Option<nat>)
      requires size < WORD
      modifies this`lastAllocAddr
      ensures lastAllocAddr == Moved(old(lastAllocAddr), size)
      ensures r == if lastAllocAddr > END_ADDR then None else Some(old(lastAllocAddr))
    {
      var vvmem := lastAllocAddr;
      lastAllocAddr := (lastAllocAddr + Advance(size)) % WORD;
      if lastAllocAddr > END_ADDR { return None; }
      return Some(vvmem);
    }

    method Freeze()
      modifies this`freezeStack
      ensures freezeStack == old(freezeStack) + [lastAllocAddr]
    {
      freezeStack := freezeStack + [lastAllocAddr];
    }

    method Reset()
      requires freezeStack != []
      modifies this
      ensures lastAllocAddr == old(freezeStack)[|old(freezeStack)| - 1]
      ensures freezeStack == old(freezeStack)[..|old(freezeStack)| - 1]
    {
      lastAllocAddr := freezeStack[|freezeStack| - 1];
      freezeStack := freezeStack[..|freezeStack| - 1];
    }
  }

  /** One entry of the allocation list. Both maps point at entries and compare those
      pointers; host pointers tell entries apart, so comparing entries does the same. */
  datatype AllocationData = AllocationData(vptr: nat, size: nat)

  type AllocationMap = map<nat, AllocationData>

  // ---- Interval lookup ----

  ghost predicate GreatestAtMost(keys: set<nat>, k: nat, e: Option<nat>) {
    match e
    case None => forall x | x in keys :: k < x
    case Some(s) => s in keys && s <= k && forall x | x in keys && x <= k :: x <= s
  }

  ghost predicate LeastAtLeast(keys: set<nat>, k: nat, e: Option<nat>) {
    match e
    case None => forall x | x in keys :: x < k
    case Some(s) => s in keys && k <= s && forall x | x in keys && k <= x :: s <= x
  }

  method FindStart(m: AllocationMap, k: nat) returns (e: Option<nat>)
    ensures GreatestAtMost(m.Keys, k, e)
  {
    e := None;
    var seen := {};
    while seen != m.Keys
      invariant seen <= m.Keys
      invariant GreatestAtMost(seen, k, e)
      decreases m.Keys - seen
    {
      assert exists x :: x in m.Keys && x !in seen;
      var it :| it in m.Keys && it !in seen;
      seen := seen + {it};
      if it <= k {
        if e == None || e.value < it { e := Some(it); }
      }
    }
  }

  method FindEnd(m: AllocationMap, k: nat) returns (e: Option<nat>)
    ensures LeastAtLeast(m.Keys, k, e)
  {
    e := None;
    var seen := {};
    while seen != m.Keys
      invariant seen <= m.Keys
      invariant LeastAtLeast(seen, k, e)
      decreases m.Keys - seen
    {
      assert exists x :: x in m.Keys && x !in seen;
      var it :| it in m.Keys && it !in seen;
      seen := seen + {it};
      if it >= k {
        if e == None || e.value > it { e := Some(it); }
      }
    }
  }

  /** The closed range of the block at `s` contains `k`. */
  ghost predicate Contains(starts: AllocationMap, s: nat, k: nat) {
    s in starts && s <= k <= s + starts[s].size
  }

  ghost function EndAt(starts: AllocationMap, s: nat): nat
    requires s in starts
  {
    s + starts[s].size
  }

  ghost function StartAt(ends: AllocationMap, e: nat): int
    requires e in ends
  {
    e - ends[e].size
  }

  /** Closed block ranges do not meet. */
  ghost predicate Ordered(starts: AllocationMap) {
    forall s, t | s in starts && t in starts && s < t :: s + starts[s].size < t
  }

  ghost predicate OwnEntries(starts: AllocationMap) {
    forall s, t | s in starts && t in starts && starts[s] == starts[t] :: s == t
  }

  /** The two maps describe the same blocks, and closed block ranges are disjoint. */
  ghost predicate Consistent(starts: AllocationMap, ends: AllocationMap) {
    && (forall s {:trigger EndAt(starts, s)} | s in starts ::
          EndAt(starts, s) in ends && ends[EndAt(starts, s)] == starts[s])
    && (forall e {:trigger StartAt(ends, e)} | e in ends ::
          StartAt(ends, e) in starts && starts[StartAt(ends, e)] == ends[e])
    && Ordered(starts)
    && OwnEntries(starts)
  }

  lemma BlocksDiffer(starts: AllocationMap, a: nat, b: nat, k: nat)
    requires Ordered(starts) && Contains(starts, a, k) && Contains(starts, b, k)
    ensures a == b
  {
  }

  ghost function BlockOf(starts: AllocationMap, k: nat): (r: Option<nat>)
    ensures r.Some? ==> Contains(starts, r.value, k)
    ensures r.None? ==> forall b: nat :: !Contains(starts, b, k)
  {
    if b: nat :| Contains(starts, b, k) then Some(b) else None
  }

  predicate OneBlock(starts: AllocationMap, ends: AllocationMap, s: Option<nat>, e: Option<nat>)
    requires s.Some? ==> s.value in starts
    requires e.Some? ==> e.value in ends
  {
    s.Some? && e.Some? && starts[s.value] == ends[e.value]
  }

  /** Greatest start below and least end above belong to one block exactly when a block
      contains the address, and then they are that block's. */
  lemma LookupExact(starts: AllocationMap, ends: AllocationMap, k: nat, s: Option<nat>, e: Option<nat>)
    requires Consistent(starts, ends)
    requires GreatestAtMost(starts.Keys, k, s) && LeastAtLeast(ends.Keys, k, e)
    ensures OneBlock(starts, ends, s, e) <==> BlockOf(starts, k).Some?
    ensures BlockOf(starts, k).Some? ==>
              var b := BlockOf(starts, k).value; s == Some(b) && e == Some(b + starts[b].size)
  {
    if BlockOf(starts, k).Some? {
      ContainedIsFound(starts, ends, k, s, e, BlockOf(starts, k).value);
    }
    if OneBlock(starts, ends, s, e) {
      FoundContains(starts, ends, k, s.value, e.value);
    }
  }

  lemma FoundContains(starts: AllocationMap, ends: AllocationMap, k: nat, s: nat, e: nat)
    requires Consistent(starts, ends) && s in starts && e in ends && s <= k <= e
    requires starts[s] == ends[e]
    ensures Contains(starts, s, k)
  {
    assert StartAt(ends, e) == s;
  }

  lemma ContainedIsFound(starts: AllocationMap, ends: AllocationMap, k: nat, s: Option<nat>, e: Option<nat>, b: nat)
    requires Consistent(starts, ends) && Contains(starts, b, k)
    requires GreatestAtMost(starts.Keys, k, s) && LeastAtLeast(ends.Keys, k, e)
    ensures s == Some(b) && e == Some(b + starts[b].size)
    ensures starts[b] == ends[b + starts[b].size]
  {
    assert EndAt(starts, b) in ends;
    assert s.value == b;
    var t := StartAt(ends, e.value);
    assert !(t < b) && !(b < t);
  }

  lemma BlockUnique(starts: AllocationMap, b: nat, k: nat)
    requires Ordered(starts) && Contains(starts, b, k)
    ensures BlockOf(starts, k) == Some(b)
  {
    BlocksDiffer(starts, b, BlockOf(starts, k).value, k);
  }

  // ---- Host blocks ----

  /** Entries kept by `remove_if` on a host pointer. */
  function Without(l: seq<AllocationData>, vptr: nat): seq<AllocationData> {
    if l == [] then []
    else (if l[0].vptr == vptr then [] else [l[0]]) + Without(l[1..], vptr)
  }

  function Remove(l: seq<nat>, vptr: nat): seq<nat> {
    if l == [] then [] else (if l[0] == vptr then [] else [l[0]]) + Remove(l[1..], vptr)
  }

  /** Host blocks do not overlap, and even empty ones have their own pointer. */
  predicate HostApart(p: nat, m: nat, q: nat, n: nat) {
    p != q && Disjoint(p, m, q, n)
  }

  ghost predicate HostDisjoint(l: seq<AllocationData>) {
    forall i, j | 0 <= i < j < |l| :: HostApart(l[i].vptr, l[i].size, l[j].vptr, l[j].size)
  }

  lemma {:induction false} WithoutMembers(l: seq<AllocationData>, vptr: nat)
    requires HostDisjoint(l)
    ensures forall d :: d in Without(l, vptr) <==> d in l && d.vptr != vptr
    ensures HostDisjoint(Without(l, vptr))
  {
    forall d ensures d in Without(l, vptr) <==> d in l && d.vptr != vptr { WithoutMembersOf(l, vptr, d); }
    WithoutDisjoint(l, vptr);
  }

  lemma {:induction false} WithoutDisjoint(l: seq<AllocationData>, vptr: nat)
    requires HostDisjoint(l)
    ensures HostDisjoint(Without(l, vptr))
  {
    if l != [] {
      var rest := Without(l[1..], vptr);
      TailDisjoint(l);
      hide HostDisjoint, HostApart;
      WithoutDisjoint(l[1..], vptr);
      if l[0].vptr == vptr {
        assert Without(l, vptr) == rest;
      } else {
        forall e | e in rest ensures HostApart(l[0].vptr, l[0].size, e.vptr, e.size) {
          WithoutMembersOf(l[1..], vptr, e);
        }
        ConsDisjoint(l[0], rest);
      }
    }
  }

  lemma TailDisjoint(l: seq<AllocationData>)
    requires HostDisjoint(l) && l != []
    ensures HostDisjoint(l[1..])
    ensures forall e | e in l[1..] :: HostApart(l[0].vptr, l[0].size, e.vptr, e.size)
  {
    hide HostApart;
    forall e | e in l[1..] ensures HostApart(l[0].vptr, l[0].size, e.vptr, e.size) {
      var k :| 0 <= k < |l[1..]| && l[1..][k] == e;
      assert l[k + 1] == e;
    }
  }

  lemma ConsDisjoint(d: AllocationData, l: seq<AllocationData>)
    requires HostDisjoint(l) && forall e | e in l :: HostApart(d.vptr, d.size, e.vptr, e.size)
    ensures HostDisjoint([d] + l)
  {
    hide HostApart;
  }

  lemma {:induction false} WithoutMembersOf(l: seq<AllocationData>, vptr: nat, d: AllocationData)
    ensures d in Without(l, vptr) <==> d in l && d.vptr != vptr
  {
    if l != [] { WithoutMembersOf(l[1..], vptr, d); }
  }

  lemma {:induction false} RemoveAbsent(l: seq<nat>, vptr: nat)
    requires vptr !in l
    ensures Remove(l, vptr) == l
  {
    if l != [] { RemoveAbsent(l[1..], vptr); }
  }

  lemma {:induction false} RemoveElements(l: seq<nat>, vptr: nat, d: nat)
    ensures d in Remove(l, vptr) <==> d in l && d != vptr
  {
    if l != [] {
      RemoveElements(l[1..], vptr, d);
      assert d in l <==> d == l[0] || d in l[1..];
    }
  }

  lemma {:induction false} RemoveDistinct(l: seq<nat>, vptr: nat)
    requires Distinct(l)
    ensures Distinct(Remove(l, vptr))
  {
    if l != [] {
      RemoveDistinct(l[1..], vptr);
      RemoveElements(l[1..], vptr, l[0]);
    }
  }

  lemma {:induction false} RemoveOnce(l: seq<nat>, vptr: nat)
    requires Distinct(l) && vptr in l
    ensures multiset(l) == multiset(Remove(l, vptr)) + multiset{vptr}
  {
    hide Distinct;
    SplitFirst(l);
    if l[0] == vptr {
      RemoveAbsent(l[1..], vptr);
    } else {
      RemoveOnce(l[1..], vptr);
    }
  }

  lemma SplitFirst(l: seq<nat>)
    requires l != []
    ensures l == [l[0]] + l[1..]
    ensures Distinct(l) ==> l[0] !in l[1..] && Distinct(l[1..])
  {
  }

  lemma RemoveMembers(l: seq<nat>, vptr: nat)
    requires Distinct(l)
    ensures forall d :: d in Remove(l, vptr) <==> d in l && d != vptr
    ensures Distinct(Remove(l, vptr))
    ensures vptr in l ==> multiset(l) == multiset(Remove(l, vptr)) + multiset{vptr}
  {
    forall d ensures d in Remove(l, vptr) <==> d in l && d != vptr { RemoveElements(l, vptr, d); }
    RemoveDistinct(l, vptr);
    if vptr in l { RemoveOnce(l, vptr); }
  }
}
