/** Products and quotients of natural numbers. */
module Arithmetic {

  lemma Scale(a: nat, b: nat, m: nat)
    ensures a <= b ==> a * m <= b * m
  {
  }

  lemma Apart(a: nat, b: nat, m: nat)
    requires a < b
    ensures a * m + m == (a + 1) * m <= b * m
  {
  }

  lemma ScaleUp(a: nat, b: nat, m: nat)
    requires m >= 1
    ensures a <= b <==> a * m <= b * m
    ensures a < b <==> a * m < b * m
  {
    if a < b {
      Apart(a, b, m);
    } else {
      Scale(b, a, m);
    }
  }

  lemma DivMod(n: nat, m: nat)
    requires m >= 1
    ensures n == n / m * m + n % m && n % m < m && n / m <= n
    ensures m >= 2 && n >= m ==> n / m < n
  {
    var d := n / m;
    assert n == d * m + n % m;
    if d >= n && n > 0 && m >= 2 {
      ScaleUp(n, d, m);
    }
  }

  /** The quotient and remainder are determined. */
  lemma Quotient(n: nat, m: nat, q: nat, r: nat)
    requires m >= 1 && r < m && n == q * m + r
    ensures n / m == q && n % m == r
  {
    var d := n / m;
    assert n == d * m + n % m;
    if d < q {
      Apart(d, q, m);
    } else if d > q {
      Apart(q, d, m);
    }
  }
}
