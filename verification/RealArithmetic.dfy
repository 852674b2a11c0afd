/** The few facts about products and quotients of reals that the measurement code needs. */
module RealArithmetic {

  function Product(x: real, y: real): real {
    x * y
  }

  lemma ProductCommutes(x: real, y: real)
    ensures Product(x, y) == Product(y, x)
  {
  }

  function Square(x: real): real {
    Product(x, x)
  }

  function Raised(k: real, n: nat): real {
    if n == 0 then 1.0 else Product(Raised(k, n - 1), k)
  }

  lemma {:induction false} RaisedBelowOne(k: real, n: nat)
    requires 0.0 <= k <= 1.0
    ensures 0.0 <= Raised(k, n) <= 1.0
  {
    hide Product;
    if n > 0 {
      RaisedBelowOne(k, n - 1);
      NoMore(Raised(k, n - 1), k);
    }
  }

  lemma NoMore(x: real, k: real)
    requires 0.0 <= x <= 1.0 && 0.0 <= k <= 1.0
    ensures 0.0 <= Product(x, k) <= 1.0
  {
    NonNegative(x, k);
    NonNegative(1.0 - x, k);
    assert Product(1.0 - x, k) == k - Product(x, k);
  }

  lemma ProductOrder(s: real, x: real, y: real)
    requires s > 0.0
    ensures x <= y <==> Product(s, x) <= Product(s, y)
    ensures x == y <==> Product(s, x) == Product(s, y)
  {
    if x < y {
      Grows(s, x, y);
    } else if y < x {
      Grows(s, y, x);
    }
  }

  lemma Grows(s: real, x: real, y: real)
    requires s > 0.0 && x < y
    ensures Product(s, x) < Product(s, y)
  {
    Positive(s, y - x);
    assert s * (y - x) == s * y - s * x;
  }

  lemma ByOneOrZero(x: real)
    ensures Product(x, 1.0) == x && Product(0.0, x) == 0.0
  {
  }

  lemma NonNegative(x: real, y: real)
    requires x >= 0.0 && y >= 0.0
    ensures Product(x, y) >= 0.0
  {
  }

  lemma ProductAssociates(x: real, y: real, z: real)
    ensures Product(Product(x, y), z) == Product(x, Product(y, z))
  {
  }

  lemma Positive(x: real, y: real)
    requires x > 0.0 && y > 0.0
    ensures Product(x, y) > 0.0
  {
  }

  lemma BothNegated(x: real, y: real)
    ensures Product(-x, -y) == Product(x, y)
  {
  }

  lemma SquareSign(x: real)
    ensures Square(x) >= 0.0
    ensures Square(x) == 0.0 <==> x == 0.0
  {
    if x > 0.0 {
      Positive(x, x);
    } else if x < 0.0 {
      Positive(-x, -x);
      BothNegated(x, x);
    }
  }

  lemma Spread(k: real, x: real, y: real)
    ensures k * (x + y) == k * x + k * y
  {
  }

  lemma Weigh(k: real, s: real)
    requires k > 0.0 && s >= 0.0
    ensures k * s >= 0.0
    ensures k * s == 0.0 <==> s == 0.0
  {
  }

  lemma NonNegativeFactor(d: real, k: real)
    requires k > 0.0 && k * d >= 0.0
    ensures d >= 0.0
  {
  }

  lemma QuotientTimes(a: real, b: real)
    requires b != 0.0
    ensures (a / b) * b == a
  {
  }
}
