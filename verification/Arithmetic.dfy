/** Quotients and remainders. */
module Arithmetic {
  lemma SmallMultiple(m: int, d: int)
    requires m > 0 && -m < m * d < m
    ensures d == 0
  {
  }

  lemma ModUnique(x: nat, q: nat, r: nat, m: nat)
    requires m > 0 && x == m * q + r && r < m
    ensures x % m == r && x / m == q
  {
    var d := q - x / m;
    assert m * d == m * q - m * (x / m);
    SmallMultiple(m, d);
  }

  lemma Distribute(s: nat, k: nat, c: nat, b: nat)
    ensures s * (k * c + b) == (s * k) * c + s * b
  {
  }

  lemma TwoDigitsBelow(s: nat, k: nat, b: nat, a: nat)
    requires a < s && b < k
    ensures s * b + a < s * k
  {
    assert s * (b + 1) <= s * k;
  }

  /** Dividing twice is dividing by the product, and a remainder by the product keeps the
      lower quotient. */
  lemma DivDiv(x: nat, s: nat, k: nat, v: nat)
    requires s > 0 && k > 0 && v == s * k
    ensures v > 0 && (x / s) / k == x / v && (x % v) / s == (x / s) % k
  {
    var q, a := x / s, x % s;
    Digits(x, s, k, v, q, a, q / k, q % k);
  }

  lemma Digits(x: nat, s: nat, k: nat, v: nat, q: nat, a: nat, c: nat, b: nat)
    requires s > 0 && v == s * k && x == s * q + a && a < s && q == k * c + b && b < k
    ensures v > 0 && x / v == c && (x % v) / s == b
  {
    Distribute(s, k, c, b);
    TwoDigitsBelow(s, k, b, a);
    ModUnique(x, c, s * b + a, v);
    ModUnique(s * b + a, b, a, s);
  }
}
