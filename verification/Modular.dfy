/**
 Quotients and remainders by any divisor: what wrapped counters and digits share.
 */
module Modular {
  lemma Times(a: nat, b: nat, m: nat)
    requires a <= b
    ensures a * m <= b * m
  {
  }

  lemma RemainderUnique(q: nat, r: nat, q': nat, r': nat, m: nat)
    requires r < m && r' < m && q * m + r == q' * m + r'
    ensures r == r'
  {
    if q < q' {
      Times(q + 1, q', m);
    }
    if q' < q {
      Times(q' + 1, q, m);
    }
  }

  /** Whole turns do not change a remainder. */
  lemma ModShift(k: nat, n: nat, m: nat)
    requires m > 0
    ensures (k * m + n) % m == n % m
  {
    var s := k * m + n;
    assert s / m * m + s % m == (k + n / m) * m + n % m;
    RemainderUnique(s / m, s % m, k + n / m, n % m, m);
  }

  lemma QuotientUnique(n: nat, d: nat, q: nat, r: nat)
    requires d > 0 && n == q * d + r && r < d
    ensures n / d == q
  {
    var k := n / d;
    assert n == k * d + n % d;
    if k < q {
      Times(k + 1, q, d);
    }
    if k > q {
      Times(q + 1, k, d);
    }
  }

  /** Dividing twice is dividing by the product. */
  lemma DivDiv(n: nat, p: nat, d: nat)
    requires p > 0 && d > 0
    ensures n / p / d == n / (d * p)
  {
    var q := n / p;
    Twice(n, p, d, q, n % p, q / d, q % d);
  }

  lemma Twice(n: nat, p: nat, d: nat, q: nat, r: nat, q': nat, r': nat)
    requires p > 0 && d > 0 && r < p && r' < d
    requires n == q * p + r && q == q' * d + r'
    ensures n / (d * p) == q'
  {
    Below(r', r, d, p);
    Distribute(q', d, r', p);
    var m := d * p;
    QuotientUnique(n, m, q', r' * p + r);
  }

  lemma Below(q: nat, r: nat, d: nat, p: nat)
    requires q < d && r < p
    ensures q * p + r < d * p
  {
    Times(q + 1, d, p);
    assert (q + 1) * p == q * p + p;
  }

  lemma Distribute(q: nat, d: nat, r: nat, p: nat)
    ensures (q * d + r) * p == q * (d * p) + r * p
  {
  }
}
