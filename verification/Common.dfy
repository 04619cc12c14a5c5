// Shared vocabulary: optional values, bytes, and the alignment arithmetic used
// by both the C view and the LLVM view of a struct.
module Common {
  datatype Option<+T> = None | Some(value: T) {
    function GetOr(default: T): T {
      if Some? then value else default
    }
  }

  type byte = x: int | 0 <= x < 256

  /** No element occurs twice. */
  ghost predicate Distinct<T>(l: seq<T>) {
    forall i, j | 0 <= i < j < |l| :: l[i] != l[j]
  }

  /** The `m` places from `a` and the `n` places from `b` have none in common. */
  predicate Disjoint(a: nat, m: nat, b: nat, n: nat) {
    a + m <= b || b + n <= a
  }

  type pos = x: int | 0 < x witness 1

  function Max(a: nat, b: nat): nat {
    if a < b then b else a
  }

  /** The least multiple of `a` that is not below `n`. */
  function AlignUp(n: nat, a: pos): (r: nat)
    ensures n <= r < n + a
  {
    if n % a == 0 then n else n + (a - n % a)
  }

  lemma AlignedUp(n: nat, a: pos)
    ensures AlignUp(n, a) % a == 0
    ensures n % a == 0 ==> AlignUp(n, a) == n
  {
    if n % a != 0 {
      ModOfMultiple(n / a + 1, a);
      assert n + (a - n % a) == (n / a + 1) * a;
    }
  }

  lemma ModOfMultiple(k: nat, a: pos)
    ensures (k * a) % a == 0
    decreases k
  {
    if k > 0 {
      ModOfMultiple(k - 1, a);
      assert k * a == (k - 1) * a + a;
      ModAddSelf((k - 1) * a, a);
    }
  }

  lemma ModAddSelf(x: nat, a: pos)
    ensures (x + a) % a == x % a
  {
    assert x + a == (x / a + 1) * a + x % a;
    DivModUnique(x + a, a, x / a + 1, x % a);
  }

  lemma DivModUnique(x: nat, a: pos, q: nat, r: nat)
    requires x == q * a + r && r < a
    ensures x % a == r && x / a == q
  {
    var q', r' := x / a, x % a;
    assert x == q' * a + r';
    if q' < q {
      MulMonotone(q' + 1, q, a);
    } else if q < q' {
      MulMonotone(q + 1, q', a);
    }
  }

  lemma MulMonotone(i: nat, j: nat, s: nat)
    requires i <= j
    ensures i * s <= j * s
  {
    assert j * s == i * s + (j - i) * s;
  }

  /** Multiples of a multiple are multiples. */
  lemma MulKeepsModZero(k: nat, s: nat, a: pos)
    requires s % a == 0
    ensures (k * s) % a == 0
  {
    var q := s / a;
    assert s == q * a;
    assert k * s == (k * q) * a;
    ModOfMultiple(k * q, a);
  }
}
