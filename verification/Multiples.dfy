/** Multiples of a page or packet size, by repeated addition; `Remainder` says that this is
    the remainder operator. The lemmas then need only linear arithmetic. */
module Multiples {

  /** n is a multiple of p. */
  predicate Aligned(n: int, p: int)
    requires 0 < p
    decreases if n < 0 then p - n else n
  {
    if n < 0 then Aligned(n + p, p) else if n < p then n == 0 else Aligned(n - p, p)
  }

  /** The largest multiple of p up to n. */
  function Whole(n: nat, p: nat): (w: nat)
    requires 0 < p
    ensures n - p < w <= n
  {
    if n < p then 0 else p + Whole(n - p, p)
  }

  lemma {:induction false} Remainder(n: nat, p: nat)
    requires 0 < p
    ensures Whole(n, p) == n - n % p == n / p * p
    ensures Aligned(n, p) <==> n % p == 0
  {
    if n >= p {
      Remainder(n - p, p);
      Division(n, p);
    } else {
      Small(n, p);
    }
  }

  lemma Small(n: nat, p: nat)
    requires n < p
    ensures n % p == n && n / p == 0
  {
  }

  lemma Division(n: nat, p: nat)
    requires 0 < p <= n
    ensures n / p * p == (n - p) / p * p + p
    ensures n % p == (n - p) % p
  {
    var k := n / p - (n - p) / p;
    assert n == p * (n / p) + n % p && n - p == p * ((n - p) / p) + (n - p) % p;
    assert p * k == p + (n - p) % p - n % p by { assert p * k == p * (n / p) - p * ((n - p) / p); }
    assert k <= 0 ==> p * k <= 0;
    assert k >= 2 ==> p * k >= 2 * p;
    assert k == 1;
  }

  lemma {:induction false} Add(a: int, b: int, p: int)
    requires 0 < p && Aligned(a, p) && Aligned(b, p)
    ensures Aligned(a + b, p) && Aligned(a - b, p)
    decreases if b < 0 then p - b else b
  {
    if b < 0 {
      Add(a, b + p, p);
      assert Aligned(a + b + p, p) && Aligned(a - b - p, p);
    } else if b >= p {
      Add(a, b - p, p);
      assert Aligned(a + b - p, p) && Aligned(a - b + p, p);
    }
  }

  lemma Itself(p: int)
    requires 0 < p
    ensures Aligned(p, p) && Aligned(0, p)
  {
  }

  lemma {:induction false} SixtyFours(k: nat)
    ensures Aligned(64 * k, 64)
  {
    if k > 0 { SixtyFours(k - 1); }
  }

  /** Distinct multiples lie at least p apart. */
  lemma Gap(a: int, b: int, p: int)
    requires 0 < p && Aligned(a, p) && Aligned(b, p) && a < b
    ensures a + p <= b
  {
    Add(b, a, p);
  }

  lemma {:induction false} WholeIsMultiple(n: nat, p: nat)
    requires 0 < p
    ensures Aligned(Whole(n, p), p)
    ensures Aligned(n, p) <==> Whole(n, p) == n
  {
    if n >= p {
      WholeIsMultiple(n - p, p);
    }
  }

  /** How the largest multiple of p grows when n grows by a divisor d of p. */
  lemma {:induction false} WholeGrows(n: nat, d: nat, p: nat)
    requires 0 < d <= p && Aligned(n, d) && Aligned(p, d)
    ensures n - Whole(n, p) + d <= p
    ensures n - Whole(n, p) + d < p ==> Whole(n + d, p) == Whole(n, p)
    ensures n - Whole(n, p) + d == p ==> Whole(n + d, p) == Whole(n, p) + p == n + d
  {
    if n < p {
      Gap(n, p, d);
    } else {
      Add(n, p, d);
      WholeGrows(n - p, d, p);
    }
  }

  /** A multiple of a multiple of d is a multiple of d. */
  lemma {:induction false} Transitive(a: nat, p: nat, d: nat)
    requires 0 < d && 0 < p && Aligned(a, p) && Aligned(p, d)
    ensures Aligned(a, d)
  {
    if a >= p {
      Transitive(a - p, p, d);
      Add(a - p, p, d);
    }
  }
}
