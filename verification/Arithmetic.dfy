/** Small facts about products and quotients. */
module Arithmetic {

  lemma MulMono(x: int, y: int, k: int)
    requires x <= y && k >= 0
    ensures x * k <= y * k
  {
  }

  lemma QuotientBounds(a: int, b: int)
    requires a >= 0 && b > 0
    ensures a / b >= 0 && (a / b) * b <= a < (a / b) * b + b
  {
    assert a == (a / b) * b + a % b;
  }

  lemma QuotientUnique(a: int, b: int, q: int)
    requires b > 0 && q * b <= a < q * b + b
    ensures a / b == q
  {
    var r := a / b;
    if r < q { MulMono(r + 1, q, b); }
    if r > q { MulMono(q + 1, r, b); }
  }

  lemma QuotientAtLeast(a: int, b: int, q: int)
    requires a >= 0 && b > 0 && q * b <= a
    ensures a / b >= q
  {
    QuotientBounds(a, b);
    if a / b < q { MulMono(a / b + 1, q, b); }
  }

  lemma NegatedProduct(q: int, b: int)
    ensures (-q) * b == -(q * b) && q * (-b) == -(q * b) && (-q) * (-b) == q * b
  {
  }

  /** Dividing by `d` and then by ten is dividing by `10 * d`. */
  lemma QuotientTwice(n: int, d: int)
    requires n >= 0 && d >= 1
    ensures (n / d) / 10 == n / (10 * d)
  {
    var q := n / d;
    var q' := q / 10;
    QuotientBounds(n, d);
    assert 10 * q' <= q <= 10 * q' + 9;
    MulMono(10 * q', q, d);
    MulMono(q + 1, 10 * q' + 10, d);
    TensOut(q', d);
    QuotientUnique(n, 10 * d, q');
  }

  lemma TensOut(q: int, d: int)
    ensures (10 * q) * d == q * (10 * d) == 10 * (q * d)
    ensures (10 * q + 10) * d == q * (10 * d) + 10 * d
  {
  }

  lemma TimesTen(x: real, y: real)
    ensures x * (10.0 * y) == 10.0 * (x * y)
  {
  }

  lemma Regroup(x: real, y: real, z: real)
    ensures (x * y) * z == x * (y * z)
  {
  }
}
