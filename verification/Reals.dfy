/** Order and division of real numbers, one fact at a time. */
module Reals {

  lemma PositiveQuotient(a: real, b: real)
    requires a > 0.0 && b > 0.0
    ensures a / b > 0.0 && (a / b) * b == a
  {
  }

  lemma QuotientOfProduct(a: real, b: real)
    requires b > 0.0
    ensures a * b / b == a && a / b * b == a
  {
  }

  lemma QuotientOrder(a: real, b: real, d: real)
    requires d > 0.0
    ensures a <= b <==> a / d <= b / d
  {
    QuotientOfProduct(a, d);
    QuotientOfProduct(b, d);
    ProductOrder(a / d, b / d, d);
  }

  lemma ProductOrder(a: real, b: real, d: real)
    requires d > 0.0
    ensures a <= b <==> a * d <= b * d
  {
    if a <= b {
      assert (b - a) * d >= 0.0;
    } else {
      assert (a - b) * d > 0.0;
    }
  }

  /** Comparing with a quotient is comparing with a product. */
  lemma QuotientBounds(a: real, b: real, x: real)
    requires b > 0.0
    ensures x * b <= a <==> x <= a / b
    ensures a <= x * b <==> a / b <= x
  {
    QuotientOfProduct(a, b);
    ProductOrder(x, a / b, b);
    ProductOrder(a / b, x, b);
  }

  lemma ProductMonotone(a: real, b: real, d: real)
    requires a <= b && d >= 0.0
    ensures a * d <= b * d
  {
    if d > 0.0 {
      ProductOrder(a, b, d);
    }
  }

  /** The same with the products named, which keeps other multiplications out of the way. */
  lemma ProductsOrdered(a: real, b: real, d: real, ad: real, bd: real)
    requires a <= b && d >= 0.0 && ad == a * d && bd == b * d
    ensures ad <= bd
  {
    ProductMonotone(a, b, d);
  }

  /** Integer division is the floor of the quotient. */
  lemma FloorOfQuotient(n: nat, d: nat)
    requires d > 0
    ensures (n as real / d as real).Floor == n / d
  {
    var q, r := n / d, n % d;
    RealDivision(n, d);
    QuotientBounds(n as real, d as real, q as real);
    QuotientBounds(n as real, d as real, q as real + 1.0);
  }

  lemma RealDivision(n: nat, d: nat)
    requires d > 0
    ensures (n / d) as real * d as real <= n as real < ((n / d) as real + 1.0) * d as real
  {
    var q, r := n / d, n % d;
    assert n == q * d + r;
    assert (q * d) as real == q as real * d as real;
  }
}
