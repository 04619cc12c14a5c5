// Global variables in the flat memory: what initialising them writes, and what a reader
// finds at their interpreter addresses.
module Globals {
  import opened ByteMemory
  import opened AddressSpace
  import opened FlatView
  import opened Layout
  import opened InitMemory

  /** A global variable with an initialiser, at its interpreter address. */
  datatype GlobalVariable = GlobalVariable(vvptr: nat, init: Constant)

  /** The global has a block of its own, of its allocation size. */
  ghost predicate HasBlock(starts: AllocationMap, g: GlobalVariable) {
    WellTyped(g.init) && g.vvptr in starts && starts[g.vvptr].size == AllocSize(TypeOf(g.init))
  }

  ghost predicate HaveBlocks(starts: AllocationMap, gs: seq<GlobalVariable>) {
    && (forall i | 0 <= i < |gs| :: HasBlock(starts, gs[i]))
    && forall i, j | 0 <= i < j < |gs| :: gs[i].vvptr != gs[j].vvptr
  }

  /** Memory at `a` has every byte the image determines. */
  ghost predicate ImageAt(v: View, a: nat, img: Image) {
    Covers(v, a, |img|) && forall k | 0 <= k < |img| && img[k].Some? :: v[a + k] == img[k].value
  }

  ghost predicate Initialised(v: View, g: GlobalVariable) {
    WellTyped(g.init) && ImageAt(v, g.vvptr, ImageOf(g.init))
  }

  ghost predicate AllInitialised(v: View, gs: seq<GlobalVariable>, n: nat)
    requires n <= |gs|
  {
    forall i | 0 <= i < n :: Initialised(v, gs[i])
  }

  /** The initialiser of the global determines the byte at `k`. */
  ghost predicate Determines(g: GlobalVariable, k: nat) {
    && WellTyped(g.init) && g.vvptr <= k < g.vvptr + AllocSize(TypeOf(g.init))
    && ImageOf(g.init)[k - g.vvptr].Some?
  }

  /** Only bytes that some initialiser determines have changed. */
  ghost predicate OnlyGlobalsChange(gs: seq<GlobalVariable>, v: View, w: View) {
    w.Keys == v.Keys && forall k | k in v && w[k] != v[k] :: exists i :: 0 <= i < |gs| && Determines(gs[i], k)
  }

  /** Laying an image over a host block shows in the flat memory, byte for byte. */
  lemma ImageThroughBlock(starts: AllocationMap, m: Bytes, b: nat, img: Image)
    requires WellPlaced(starts, |m|) && Within(starts, b, b, |img|)
    ensures starts[b].vptr + |img| <= |m|
    ensures var v, w := ViewOf(starts, m), ViewOf(starts, Overlay(m, starts[b].vptr, img));
            && w.Keys == v.Keys && ImageAt(w, b, img)
            && forall k | k in v && w[k] != v[k] :: b <= k < b + |img| && img[k - b].Some?
  {
    hide Overlay, Overwrite, ViewOf, ViewWrite, WellPlaced, ImageAt;
    var host, n := starts[b].vptr, |img|;
    HostRoom(starts, |m|, b, n);
    var bytes := Overlay(m, host, img)[host..host + n];
    OverlayIsOverwrite(m, host, img);
    WriteThroughBlock(starts, m, b, b, host, bytes);
    SameWhereOpen(starts, m, b, img, bytes);
    WrittenImage(ViewOf(starts, m), b, img, bytes);
  }

  lemma HostRoom(starts: AllocationMap, limit: nat, b: nat, n: nat)
    requires WellPlaced(starts, limit) && Within(starts, b, b, n)
    ensures starts[b].vptr + n <= limit
  {
    BlockInHost(starts, limit, b, b, n);
  }

  lemma OverlayIsOverwrite(m: Bytes, a: nat, img: Image)
    requires a + |img| <= |m|
    ensures Overlay(m, a, img) == Overwrite(m, a, Overlay(m, a, img)[a..a + |img|])
  {
  }

  lemma WrittenImage(v: View, b: nat, img: Image, bytes: Bytes)
    requires Covers(v, b, |img|) && |bytes| == |img|
    requires forall k | 0 <= k < |img| :: bytes[k] == if img[k].Some? then img[k].value else v[b + k]
    ensures var w := ViewWrite(v, b, bytes);
            && w.Keys == v.Keys && ImageAt(w, b, img)
            && forall k | k in v && w[k] != v[k] :: b <= k < b + |img| && img[k - b].Some?
  {
  }

  lemma SameWhereOpen(starts: AllocationMap, m: Bytes, b: nat, img: Image, bytes: Bytes)
    requires WellPlaced(starts, |m|) && Within(starts, b, b, |img|) && |bytes| == |img|
    requires starts[b].vptr + |img| <= |m|
    requires bytes == Overlay(m, starts[b].vptr, img)[starts[b].vptr..starts[b].vptr + |img|]
    ensures Covers(ViewOf(starts, m), b, |img|)
    ensures forall k | 0 <= k < |img| :: bytes[k] == if img[k].Some? then img[k].value else ViewOf(starts, m)[b + k]
  {
    hide ViewOf, WellPlaced, Overlay;
    var v, host, n := ViewOf(starts, m), starts[b].vptr, |img|;
    BlockCovered(starts, m, b, b, n);
    forall k | 0 <= k < n
      ensures bytes[k] == if img[k].Some? then img[k].value else v[b + k]
    {
      OverlayAt(m, host, img, host + k);
      assert ViewRead(v, b, n)[k] == v[b + k] && m[host..][..n][k] == m[host + k];
    }
  }

  /** Blocks of different globals do not meet. */
  lemma OthersStay(starts: AllocationMap, v: View, w: View, g: GlobalVariable, h: GlobalVariable)
    requires Ordered(starts) && HasBlock(starts, g) && HasBlock(starts, h) && g.vvptr != h.vvptr
    requires Initialised(v, g) && w.Keys == v.Keys && forall k | k in v && w[k] != v[k] :: Determines(h, k)
    ensures Initialised(w, g)
  {
    var img := ImageOf(g.init);
    forall k | 0 <= k < |img| && img[k].Some?
      ensures w[g.vvptr + k] == img[k].value
    {
      OwnBytes(starts, g, h, g.vvptr + k);
    }
  }

  lemma OwnBytes(starts: AllocationMap, g: GlobalVariable, h: GlobalVariable, k: nat)
    requires Ordered(starts) && HasBlock(starts, g) && HasBlock(starts, h)
    requires g.vvptr <= k < g.vvptr + AllocSize(TypeOf(g.init))
    ensures Determines(h, k) ==> g.vvptr == h.vvptr
  {
    if Determines(h, k) { BlocksDiffer(starts, g.vvptr, h.vvptr, k); }
  }

  lemma OneMoreGlobal(starts: AllocationMap, gs: seq<GlobalVariable>, n: nat, start: View, m: Bytes)
    requires n < |gs| && WellPlaced(starts, |m|) && HaveBlocks(starts, gs)
    requires AllInitialised(ViewOf(starts, m), gs, n) && OnlyGlobalsChange(gs, start, ViewOf(starts, m))
    ensures starts[gs[n].vvptr].vptr + AllocSize(TypeOf(gs[n].init)) <= |m|
    ensures var w := ViewOf(starts, Overlay(m, starts[gs[n].vvptr].vptr, ImageOf(gs[n].init)));
            AllInitialised(w, gs, n + 1) && OnlyGlobalsChange(gs, start, w)
  {
    hide ImageOf, ViewOf, WellTyped, ImageAt;
    var g := gs[n];
    assert HasBlock(starts, g);
    ImageThroughBlock(starts, m, g.vvptr, ImageOf(g.init));
    var v, w := ViewOf(starts, m), ViewOf(starts, Overlay(m, starts[g.vvptr].vptr, ImageOf(g.init)));
    forall i | 0 <= i < n ensures Initialised(w, gs[i]) {
      assert Initialised(v, gs[i]) && HasBlock(starts, gs[i]);
      OthersStay(starts, v, w, gs[i], g);
    }
    forall k | k in start && w[k] != start[k]
      ensures exists i :: 0 <= i < |gs| && Determines(gs[i], k)
    {
      if w[k] != v[k] { assert Determines(gs[n], k); }
    }
  }

  /** Reading a scalar leaf of an initialised global, at the offset the struct layout
      gives it, returns the bytes of its value. */
  lemma GlobalLeafReads(v: View, g: GlobalVariable, p: seq<nat>)
    requires Initialised(v, g) && ConstPath(g.init, p) && ConstAt(g.init, p).ScalarConst?
    ensures Walk(TypeOf(g.init), p).Some?
    ensures var a, raw := g.vvptr + Walk(TypeOf(g.init), p).value.offset, ConstAt(g.init, p).raw;
            Covers(v, a, |raw|) && ViewRead(v, a, |raw|) == raw
  {
    hide ImageOf, ImageAt, Walk, Shows, Begins, AllocSize, TypeOf, Covers, ConstAt, ConstPath, WellTyped;
    LeafStored(g.init, p);
    ScalarImage(ConstAt(g.init, p));
    ShownInView(v, g.vvptr, ImageOf(g.init), Walk(TypeOf(g.init), p).value.offset,
                ImageOf(ConstAt(g.init, p)), ConstAt(g.init, p).raw);
  }

  lemma ShownInView(v: View, a: nat, img: Image, off: nat, sub: Image, raw: Bytes)
    requires ImageAt(v, a, img) && Shows(img, off, sub)
    requires Begins(sub, raw)
    ensures Covers(v, a + off, |raw|) && ViewRead(v, a + off, |raw|) == raw
  {
    forall k: nat | a + off <= k < a + off + |raw| ensures k in v {
      assert a <= k < a + |img|;
    }
    forall k | 0 <= k < |raw| ensures v[a + off + k] == raw[k] {
      assert img[off + k] == sub[k];
      assert v[a + (off + k)] == img[off + k].value;
    }
  }
}
