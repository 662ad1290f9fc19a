/** Bit masks on unbounded indices: why `index & (capacity - 1)` is `index % capacity`. */
module Bits {
  function And(x: nat, y: nat): (r: nat)
    ensures r <= y
  {
    if x == 0 || y == 0 then 0 else (x % 2) * (y % 2) + 2 * And(x / 2, y / 2)
  }

  function Pow2(k: nat): (p: nat)
    ensures p > 0
  {
    if k == 0 then 1 else 2 * Pow2(k - 1)
  }

  ghost predicate IsPow2(n: nat) {
    exists k: nat :: n == Pow2(k)
  }

  lemma MulAtLeast(d: int, m: int)
    requires d >= 1 && m > 0
    ensures d * m >= m
  {
  }

  lemma ModUnique(n: int, m: int, q: int, r: int)
    requires m > 0 && n == q * m + r && 0 <= r < m
    ensures n % m == r
  {
    var k := n / m;
    assert n == k * m + n % m;
    assert (q - k) * m == q * m - k * m;
    assert (k - q) * m == k * m - q * m;
    if q - k >= 1 {
      MulAtLeast(q - k, m);
    }
    if k - q >= 1 {
      MulAtLeast(k - q, m);
    }
  }

  /** Equal remainders are a whole number of moduli apart. */
  lemma SameRemainder(i: nat, j: nat, m: nat)
    requires m > 0 && i < j < i + m
    ensures i % m != j % m
  {
    var a, b := i / m, j / m;
    assert i == a * m + i % m && j == b * m + j % m;
    if i % m == j % m {
      assert j - i == (b - a) * m;
      ModUnique(j - i, m, b - a, 0);
      ModUnique(j - i, m, 0, j - i);
    }
  }

  lemma HalfRemainder(x: nat, p: nat)
    requires p > 0
    ensures x % (2 * p) == 2 * (x / 2 % p) + x % 2
  {
    var h := x / 2;
    var q, r := h / p, h % p;
    assert h == q * p + r;
    assert q * (2 * p) == 2 * (q * p);
    ModUnique(x, 2 * p, q, 2 * r + x % 2);
  }

  lemma MaskHalves(x: nat, p: nat)
    requires p > 0
    ensures And(x, 2 * p - 1) == 2 * And(x / 2, p - 1) + x % 2
  {
    assert (2 * p - 1) % 2 == 1 && (2 * p - 1) / 2 == p - 1;
  }

  lemma MaskDoubles(x: nat, p: nat)
    requires p > 0 && And(x / 2, p - 1) == x / 2 % p
    ensures And(x, 2 * p - 1) == x % (2 * p)
  {
    MaskHalves(x, p);
    HalfRemainder(x, p);
    hide And;
  }

  /** Masking with a power of two less one is the remainder. */
  lemma {:induction false} MaskIsModulo(x: nat, k: nat)
    ensures And(x, Pow2(k) - 1) == x % Pow2(k)
  {
    hide And;
    if k > 0 {
      MaskIsModulo(x / 2, k - 1);
      MaskDoubles(x, Pow2(k - 1));
    } else {
      assert x % 1 == 0;
      MaskWithZero(x);
    }
  }

  lemma MaskWithZero(x: nat)
    ensures And(x, 0) == 0
  {
  }

  lemma {:induction false} AndSelf(m: nat)
    ensures And(m, m) == m
  {
    if m > 0 {
      AndSelf(m / 2);
    }
  }

  /** The constructor's test: `n & (n - 1)` is zero exactly for the powers of two. */
  lemma {:induction false} PowerTest(n: nat)
    requires n > 0
    ensures And(n, n - 1) == 0 <==> IsPow2(n)
  {
    if n == 1 {
      assert n == Pow2(0);
    } else if n % 2 == 1 {
      AndSelf(n / 2);
      assert And(n, n - 1) == 2 * And(n / 2, n / 2);
      forall k: nat
        ensures n != Pow2(k)
      {
        assert k > 0 ==> Pow2(k) == 2 * Pow2(k - 1);
      }
    } else {
      var m := n / 2;
      PowerTest(m);
      assert And(n, n - 1) == 2 * And(m, m - 1);
      if IsPow2(m) {
        var k: nat :| m == Pow2(k);
        assert n == Pow2(k + 1);
      }
      if IsPow2(n) {
        var k: nat :| n == Pow2(k);
        assert m == Pow2(k - 1);
      }
    }
  }

  lemma {:induction false} Pow2Monotone(j: nat, k: nat)
    requires j <= k
    ensures Pow2(j) <= Pow2(k)
    decreases k - j
  {
    if j < k {
      Pow2Monotone(j, k - 1);
    }
  }

  /** The capacity a queue really gets: the least power of two that is at least the one asked for.
      An asked-for capacity of 0 passes the test as it is. */
  method RoundUp(requested: nat) returns (capacity: nat)
    ensures requested == 0 ==> capacity == 0
    ensures requested > 0 ==> IsPow2(capacity) && requested <= capacity
    ensures forall k: nat :: Pow2(k) >= requested ==> Pow2(k) >= capacity
  {
    capacity := requested;
    if requested > 0 {
      PowerTest(requested);
      if And(requested, requested - 1) != 0 {
        capacity := 1;
        ghost var e: nat := 0;
        while capacity < requested
          invariant capacity == Pow2(e)
          invariant e > 0 ==> Pow2(e - 1) < requested
          decreases 2 * requested - capacity
        {
          capacity := 2 * capacity;
          e := e + 1;
        }
        forall k: nat | Pow2(k) >= requested
          ensures Pow2(k) >= capacity
        {
          if k < e {
            Pow2Monotone(k, e - 1);
          } else {
            Pow2Monotone(e, k);
          }
        }
      }
    }
  }
}
