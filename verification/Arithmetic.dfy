/** Division facts shared by the calendar and the codecs. */
module Arithmetic {

  lemma MulMono(a: int, b: int, c: int)
    requires a <= b && 0 <= c
    ensures a * c <= b * c
  {
  }

  lemma DivModIs(n: int, d: int, q: int, r: int)
    requires d > 0 && n == q * d + r && 0 <= r < d
    ensures n / d == q && n % d == r
  {
    var p := n / d;
    if p < q {
      MulMono(p + 1, q, d);
    } else if q < p {
      MulMono(q + 1, p, d);
    }
  }

  lemma DivIs(n: int, d: int, q: int)
    requires d > 0 && q * d <= n < q * d + d
    ensures n / d == q
  {
    DivModIs(n, d, q, n - q * d);
  }

  lemma ModShift(n: int, d: int, k: int)
    requires d > 0
    ensures (n + k * d) % d == n % d
  {
    assert n == n / d * d + n % d;
    DivModIs(n + k * d, d, n / d + k, n % d);
  }

  lemma DivDiv(n: int, a: int, b: int)
    requires a > 0 && b > 0 && a * b > 0
    ensures n / a / b == n / (a * b)
  {
    var q, r := n / a, n % a;
    var p, t := q / b, q % b;
    assert n == p * (a * b) + (t * a + r) by {
      assert n == q * a + r && q == p * b + t;
      assert (p * b + t) * a == p * (a * b) + t * a;
    }
    MulMono(t, b - 1, a);
    DivModIs(n, a * b, p, t * a + r);
  }
}
