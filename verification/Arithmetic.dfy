/** Products and quotients of natural numbers. */
module Arithmetic {

  lemma DividesTwice(n: nat, a: nat, b: nat)
    requires a > 0 && b > 0
    ensures a * b > 0 && n / (a * b) == n / a / b
  {
    Division(n, a);
    Division(n / a, b);
    var q, r := n / a, n % a;
    var s, t := q / b, q % b;
    Products(a, b, s, t, r);
    QuotientIs(n, a * b, s, a * t + r);
  }

  lemma Division(n: nat, m: nat)
    requires m > 0
    ensures n == m * (n / m) + n % m && n % m < m
  {
  }

  lemma Products(a: nat, b: nat, s: nat, t: nat, r: nat)
    requires t < b && r < a
    ensures a * (b * s + t) + r == (a * b) * s + (a * t + r) && a * t + r < a * b
  {
    assert a * (b * s + t) == a * (b * s) + a * t;
    assert a * (t + 1) <= a * b;
  }

  lemma QuotientIs(n: nat, m: nat, q: nat, r: nat)
    requires m > 0 && n == m * q + r && r < m
    ensures n / m == q
  {
    Division(n, m);
    var p, u := n / m, n % m;
    SameQuotient(m, q, r, p, u);
  }

  lemma SameQuotient(m: nat, q: nat, r: nat, p: nat, u: nat)
    requires m * q + r == m * p + u && r < m && u < m
    ensures q == p
  {
    if q < p {
      Mono(m, q + 1, p);
    } else if p < q {
      Mono(m, p + 1, q);
    }
  }

  lemma RemainderPlus(m: nat, q: nat, p: nat)
    requires m > 0
    ensures (m * q + p) % m == p % m
  {
    Division(p, m);
    Division(m * q + p, m);
    assert m * (q + p / m) == m * q + m * (p / m);
    SameQuotient(m, q + p / m, p % m, (m * q + p) / m, (m * q + p) % m);
  }

  lemma Mono(m: nat, x: nat, y: nat)
    requires x <= y
    ensures m * x <= m * y && x * m <= y * m
  {
  }
}
