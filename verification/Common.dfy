/** What several models share: optional values and facts about division. */
module Common {

  datatype Option<T> = None | Some(value: T)

  lemma MulCancel(a: int, b: int, n: nat)
    requires a * n < b * n
    ensures a < b
  {
  }

  /** Quotient and remainder are unique. */
  lemma {:induction false} Quotient(x: int, q: int, r: int, d: nat)
    requires d > 0 && x == q * d + r && 0 <= r < d
    ensures x / d == q && x % d == r
  {
    var k := x / d;
    assert x == k * d + x % d;
    assert (q + 1) * d == q * d + d && (k + 1) * d == k * d + d;
    MulCancel(k, q + 1, d);
    MulCancel(q, k + 1, d);
  }

  /** Comparing a quotient is comparing with a multiple. */
  lemma {:induction false} QuotientBelow(g: real, b: real, x: real)
    requires b > 0.0
    ensures g / b < x <==> g < x * b
  {
    var y := g / b;
    assert y * b == g;
    if y < x {
      assert (x - y) * b > 0.0;
    } else {
      assert (y - x) * b >= 0.0;
    }
  }
}
