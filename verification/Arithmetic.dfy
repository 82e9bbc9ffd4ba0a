/** Product and division facts shared by the rank-arithmetic modules. */
module Arithmetic {

  lemma ProductSign(e: int, d: int)
    requires d > 0
    ensures e >= 1 ==> e * d >= d
    ensures e >= 0 ==> e * d >= 0
    ensures e <= -1 ==> e * d <= -d
  {
  }

  lemma Distribute(a: int, b: int, d: int)
    ensures (a - b) * d == a * d - b * d
    ensures (a + b) * d == a * d + b * d
  {
  }

  /** Quotient and remainder are unique. */
  lemma DivModUnique(a: int, d: int, q: int, r: int)
    requires d > 0 && 0 <= r < d && a == q * d + r
    ensures a / d == q && a % d == r
  {
    var e := a / d - q;
    Distribute(a / d, q, d);
    ProductSign(e, d);
  }

  /** Entry (q, r) of an n-by-d table lies inside the table. */
  lemma IndexBound(q: int, n: int, d: int, r: int)
    requires 0 <= q < n && 0 <= r < d
    ensures 0 <= q * d <= q * d + r < (q + 1) * d <= n * d
  {
    ProductSign(n - q - 1, d);
    ProductSign(q, d);
    Distribute(n, q + 1, d);
    Distribute(q, 1, d);
  }

  /** A position below n*d is entry (a/d, a%d) of an n-by-d table. */
  lemma QuotientBound(a: int, n: int, d: int)
    requires d > 0 && 0 <= a < n * d
    ensures 0 <= a / d < n && 0 <= a % d < d && a == (a / d) * d + a % d
  {
    Distribute(a / d, n, d);
    ProductSign(a / d - n, d);
  }

  lemma MulAssoc(a: int, b: int, c: int)
    ensures (a * b) * c == a * (b * c)
  {
  }

  lemma MulCommute(a: int, b: int)
    ensures a * b == b * a
  {
  }
}
