/** Products, quotients and remainders of natural numbers. */
module Arithmetic {

  function Min(a: nat, b: nat): nat {
    if a < b then a else b
  }

  function Max(a: nat, b: nat): nat {
    if a < b then b else a
  }

  function SaturatingSub(a: nat, b: nat): nat {
    if a < b then 0 else a - b
  }

  lemma Monotone(a: nat, b: nat, n: nat)
    requires a <= b
    ensures a * n <= b * n
  {
  }

  lemma Distribute(a: nat, b: nat, c: nat, n: nat)
    ensures (a + b + c) * n == a * n + b * n + c * n
  {
  }

  lemma Regroup(a: nat, b: nat, c: nat)
    ensures a * (b * c) == a * b * c
  {
  }

  lemma Euclid(a: nat, b: nat)
    requires b >= 1
    ensures 0 <= a - b * (a / b) < b && b * (a / b) == a / b * b && 0 <= a / b && a % b == a - a / b * b
  {
  }

  /** Quotient and remainder are the only ones of their kind. */
  lemma Quotient(n: nat, q: nat, r: nat, d: nat)
    requires r < d && n == q * d + r
    ensures n / d == q && n % d == r
  {
    var p := n / d;
    Euclid(n, d);
    assert (p - q) * d == r - (n - d * p) && (q - p) * d == (n - d * p) - r;
    if p > q {
      Monotone(1, p - q, d);
    } else if q > p {
      Monotone(1, q - p, d);
    }
  }

  lemma MultipleOf(m: nat, n: nat)
    requires n >= 1
    ensures m * n % n == 0
  {
    Quotient(m * n, m, 0, n);
  }

  lemma DivBelow(c: nat, n: nat, m: nat)
    requires n >= 1 && c < m * n
    ensures c / n < m
  {
    Euclid(c, n);
    if m <= c / n {
      Monotone(m, c / n, n);
    }
  }

  lemma FewerThan(a: nat, b: nat, c: nat)
    requires a * c < b * c
    ensures a < b
  {
    assert a * c == b * c + (a - b) * c;
  }

  lemma TwoDigits(p: nat, b: nat, t: nat, a: nat, s: nat)
    requires t < b && s < a
    ensures (p * b + t) * a + s == p * (a * b) + (t * a + s) && t * a + s < a * b
  {
    Distribute(p * b, t, 0, a);
    Regroup(p, b, a);
    Monotone(t + 1, b, a);
    Distribute(t, 1, 0, a);
  }

  /** Dividing twice is dividing once. */
  lemma DivDiv(n: nat, a: nat, b: nat)
    requires a >= 1 && b >= 1
    ensures a * b >= 1 && n / a / b == n / (a * b)
  {
    Monotone(1, b, a);
    var q, s := n / a, n % a;
    var p, t := q / b, q % b;
    Euclid(n, a);
    Euclid(q, b);
    TwoDigits(p, b, t, a, s);
    Quotient(n, p, t * a + s, a * b);
  }

  /** A digit in base `b` is the same whether higher digits are cut off or not. */
  lemma DigitKept(n: nat, b: nat, m: nat)
    requires b >= 1 && m >= 1
    ensures m * b >= 1 && n % (m * b) % b == n % b
  {
    Monotone(1, m, b);
    var q, r := n / (m * b), n % (m * b);
    Euclid(n, m * b);
    Euclid(r, b);
    Regroup(q, m, b);
    assert n == (q * m + r / b) * b + r % b;
    Quotient(n, q * m + r / b, r % b, b);
  }

  /** Cutting off high digits and dropping low ones can be exchanged. */
  lemma ModDiv(n: nat, d: nat, m: nat)
    requires d >= 1 && m >= 1
    ensures m * d >= 1 && n % (m * d) / d == n / d % m
  {
    Monotone(1, m, d);
    var q, r := n / (m * d), n % (m * d);
    Euclid(n, m * d);
    Euclid(r, d);
    Regroup(q, m, d);
    DivBelow(r, d, m);
    assert n == (q * m + r / d) * d + r % d;
    Quotient(n, q * m + r / d, r % d, d);
    Quotient(n / d, q, r / d, m);
  }
}
