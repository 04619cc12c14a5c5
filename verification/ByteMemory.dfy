// Bytes in memory: little-endian numbers, `memcpy` and `memset`.
module ByteMemory {
  import opened Common

  type Bytes = seq<byte>

  function Pow256(n: nat): (r: nat)
    ensures r > 0
  {
    if n == 0 then 1 else 256 * Pow256(n - 1)
  }

  /** The low `n` bytes of `v`, least significant first. */
  function Le(v: nat, n: nat): (b: Bytes)
    ensures |b| == n
  {
    if n == 0 then [] else [v % 256] + Le(v / 256, n - 1)
  }

  function FromLe(b: Bytes): nat {
    if b == [] then 0 else b[0] + 256 * FromLe(b[1..])
  }

  /** Storing a number in `n` bytes and reading it back keeps it modulo 256^n, and so
      is the identity exactly below 256^n. */
  lemma {:induction false} LeRoundTrip(v: nat, n: nat)
    ensures FromLe(Le(v, n)) == v % Pow256(n)
    ensures FromLe(Le(v, n)) == v <==> v < Pow256(n)
    decreases n
  {
    if n > 0 {
      LeRoundTrip(v / 256, n - 1);
      assert Le(v, n)[1..] == Le(v / 256, n - 1);
      OneByteLess(v, Pow256(n - 1));
    }
    RemainderIsAll(v, Pow256(n));
  }

  lemma OneByteLess(v: nat, p: pos)
    ensures v % (256 * p) == v % 256 + 256 * (v / 256 % p)
  {
    var w, b := v / 256, v % 256;
    var q, r := w / p, w % p;
    assert v == 256 * w + b && w == q * p + r;
    assert 256 * (q * p) == q * (256 * p);
    DivModUnique(v, 256 * p, q, 256 * r + b);
  }

  lemma RemainderIsAll(v: nat, p: pos)
    ensures v % p == v <==> v < p
  {
    if v < p { DivModUnique(v, p, 0, v); }
  }

  lemma {:induction false} FromLeBound(b: Bytes)
    ensures FromLe(b) < Pow256(|b|)
  {
    if b != [] { FromLeBound(b[1..]); }
  }

  /** Byte order: the byte at `k` is the digit of weight 256^k, so the least significant
      byte comes first. */
  lemma {:induction false} LeDigit(v: nat, n: nat, k: nat)
    requires k < n
    ensures Le(v, n)[k] == v / Pow256(k) % 256
    decreases n
  {
    if k > 0 {
      LeDigit(v / 256, n - 1, k - 1);
      DivideTwice(v, Pow256(k - 1));
    }
  }

  lemma DivideTwice(v: nat, p: pos)
    ensures v / 256 / p == v / (256 * p)
  {
    var w := v / 256;
    var q, r := w / p, w % p;
    assert v == 256 * w + v % 256 && w == q * p + r;
    assert 256 * (q * p) == q * (256 * p);
    DivModUnique(v, 256 * p, q, 256 * r + v % 256);
  }

  /** Reading splits anywhere: bytes behind the first `k` weigh 256^k. */
  lemma {:induction false} FromLeSplit(b: Bytes, k: nat)
    requires k <= |b|
    ensures FromLe(b) == FromLe(b[..k]) + Pow256(k) * FromLe(b[k..])
    decreases k
  {
    if k == 0 {
      assert b[0..] == b;
    } else {
      FromLeSplit(b[1..], k - 1);
      assert b[..k][1..] == b[1..][..k - 1] && b[1..][k - 1..] == b[k..];
      MoreWeight(FromLe(b[..k][1..]), Pow256(k - 1), FromLe(b[k..]));
    }
  }

  lemma MoreWeight(x: nat, p: nat, y: nat)
    ensures 256 * (x + p * y) == 256 * x + 256 * p * y
  {
    assert 256 * (p * y) == 256 * p * y;
  }

  lemma OneByteNumber(x: byte)
    ensures FromLe([x]) == x
  {
    assert [x][1..] == [];
  }

  lemma {:induction false} LeOfFromLe(b: Bytes)
    ensures Le(FromLe(b), |b|) == b
  {
    if b != [] {
      LeOfFromLe(b[1..]);
      DivModUnique(FromLe(b), 256, FromLe(b[1..]), b[0]);
    }
  }

  /** The bytes of `m` with `v` copied over them from `a` on. */
  function Overwrite(m: Bytes, a: nat, v: Bytes): (r: Bytes)
    requires a + |v| <= |m|
    ensures |r| == |m|
    ensures forall k :: 0 <= k < |m| ==> r[k] == if a <= k < a + |v| then v[k - a] else m[k]
  {
    m[..a] + v + m[a + |v|..]
  }

  method Memcpy(mem: array<byte>, a: nat, v: Bytes)
    requires a + |v| <= mem.Length
    modifies mem
    ensures mem[..] == Overwrite(old(mem[..]), a, v)
  {
    for i := 0 to |v|
      invariant forall k :: 0 <= k < mem.Length ==>
                  mem[k] == if a <= k < a + i then v[k - a] else old(mem[k])
    {
      mem[a + i] := v[i];
    }
  }
}
