/** Division of reals, one fact at a time. */
module Reals {
  lemma Distribute(x: real, w: real)
    ensures (x + 1.0) * w == x * w + w
  {
  }

  lemma Over(x: real, y: real)
    requires y > 0.0
    ensures x / y == x * (1.0 / y) && (x / y) * y == x
  {
  }

  lemma Cancel(r: real, a: real, b: real)
    requires a > 0.0 && b > 0.0
    ensures r * (1.0 / b) == (r / a) * (a / b)
  {
    Over(a, b);
    Over(r, a);
    var x, q := 1.0 / b, r / a;
    assert q * (a * x) == (q * a) * x;
  }

  lemma Positive(x: real, y: real)
    requires x > 0.0 && y > 0.0
    ensures x / y > 0.0
  {
  }

  lemma Quotient(x: real, y: real)
    requires y > 0.0
    ensures x <= y <==> x / y <= 1.0
    ensures x == y <==> x / y == 1.0
  {
    assert x == (x / y) * y;
  }

  lemma QuotientAtLeast(x: real, y: real, q: real)
    requires y > 0.0
    ensures x >= y * q ==> x / y >= q
    ensures x == y * q ==> x / y == q
  {
    assert x == (x / y) * y;
  }

  lemma Below(x: real, y: real, q: real)
    requires y > 0.0
    ensures x < y * q ==> x / y < q
  {
    assert x == (x / y) * y;
  }

  lemma QuotientGrows(x: real, x': real, y: real)
    requires y > 0.0 && x > x'
    ensures x / y > x' / y
  {
    assert x == (x / y) * y && x' == (x' / y) * y;
  }

  /** A product under a name, for terms that must be recognised as equal. */
  function Product(x: real, y: real): real { x * y }

  lemma QuotientAtMost(x: real, y: real, q: real)
    requires y > 0.0
    ensures x <= y * q ==> x / y <= q
  {
    assert x == (x / y) * y;
  }

  lemma SquareIsNonNegative(x: real)
    ensures Product(x, x) >= 0.0
    ensures x != 0.0 ==> Product(x, x) > 0.0
  {
    if x > 0.0 {
      PositiveProduct(x, x);
    } else if x < 0.0 {
      PositiveProduct(-x, -x);
      assert Product(-x, -x) == Product(x, x);
    }
  }

  lemma PositiveProduct(x: real, y: real)
    requires x > 0.0 && y > 0.0
    ensures Product(x, y) > 0.0
  {
  }

  lemma SquareGrows(x: real, y: real)
    requires x > y >= 0.0
    ensures x * x > y * y
  {
    PositiveProduct(x - y, x + y);
    assert x * x - y * y == (x - y) * (x + y);
  }

  lemma SquareOrder(x: real, y: real)
    requires y >= 0.0 && x * x <= y * y
    ensures -y <= x <= y
  {
    if x > y { SquareGrows(x, y); }
    if -x > y { SquareGrows(-x, y); }
  }
}
