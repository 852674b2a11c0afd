/**
 Inner products of sample windows: the Cauchy-Schwarz inequality with its case of equality, which is
 what src/audio/correlator.cpp relies on when it calls a normalised correlation a match.
 */
module Vectors {
  import opened RealArithmetic

  // ----- sums of products ----------------------------------------------------------------------------

  function Dot(x: seq<real>, y: seq<real>): real
    requires |x| == |y|
  {
    if x == [] then 0.0
    else
      var n := |x| - 1;
      Dot(x[..n], y[..n]) + Product(x[n], y[n])
  }

  lemma DotSnoc(x: seq<real>, y: seq<real>, i: nat)
    requires i < |x| && i < |y|
    ensures Dot(x[..i + 1], y[..i + 1]) == Dot(x[..i], y[..i]) + Product(x[i], y[i])
  {
    hide Product;
    assert x[..i + 1][..i] == x[..i] && y[..i + 1][..i] == y[..i];
  }

  lemma {:induction false} DotSymmetric(x: seq<real>, y: seq<real>)
    requires |x| == |y|
    ensures Dot(x, y) == Dot(y, x)
    decreases |x|
  {
    if x != [] { DotSymmetric(x[..|x| - 1], y[..|y| - 1]); }
  }

  ghost predicate AllZero(x: seq<real>) {
    forall i :: 0 <= i < |x| ==> x[i] == 0.0
  }

  lemma AllZeroSplits(x: seq<real>)
    requires x != []
    ensures AllZero(x) <==> AllZero(x[..|x| - 1]) && x[|x| - 1] == 0.0
  {
    var n := |x| - 1;
    if AllZero(x[..n]) && x[n] == 0.0 {
      forall i | 0 <= i < |x| ensures x[i] == 0.0 {
        if i < n { assert x[i] == x[..n][i]; }
      }
    }
  }

  // An energy is never negative, and zero only for silence.
  lemma {:induction false} EnergySign(x: seq<real>)
    ensures Dot(x, x) >= 0.0
    ensures Dot(x, x) == 0.0 <==> AllZero(x)
    decreases |x|
  {
    if x != [] {
      hide Product, AllZero;
      var n := |x| - 1;
      EnergySign(x[..n]);
      SquareSign(x[n]);
      AllZeroSplits(x);
    }
  }

  // ----- the Cauchy-Schwarz inequality, with its case of equality ----------------------------------------

  function Mix(a: real, x: seq<real>, b: real, y: seq<real>): (m: seq<real>)
    requires |x| == |y|
    ensures |m| == |x|
  {
    seq(|x|, i requires 0 <= i < |x| => Combine(a, x[i], b, y[i]))
  }

  function Combine(a: real, s: real, b: real, t: real): real {
    a * s + b * t
  }

  function Quadratic(a: real, b: real, xx: real, xy: real, yy: real): real {
    a * (a * xx) + 2.0 * (a * (b * xy)) + b * (b * yy)
  }

  lemma QuadraticOne(a: real, b: real, s: real, t: real)
    ensures Square(Combine(a, s, b, t)) == Quadratic(a, b, Product(s, s), Product(s, t), Product(t, t))
  {
    var p, q := a * s, b * t;
    assert (p + q) * (p + q) == p * p + 2.0 * (p * q) + q * q;
    assert p * p == a * (a * (s * s));
    assert p * q == a * (b * (s * t));
    assert q * q == b * (b * (t * t));
  }

  lemma QuadraticAdds(a: real, b: real, xx: real, xy: real, yy: real, pp: real, pq: real, qq: real)
    ensures Quadratic(a, b, xx + pp, xy + pq, yy + qq) == Quadratic(a, b, xx, xy, yy) + Quadratic(a, b, pp, pq, qq)
  {
    Spread(a, xx, pp);
    Spread(a, a * xx, a * pp);
    Spread(b, xy, pq);
    Spread(a, b * xy, b * pq);
    Spread(b, yy, qq);
    Spread(b, b * yy, b * qq);
  }

  lemma QuadraticNothing(a: real, b: real)
    ensures Quadratic(a, b, 0.0, 0.0, 0.0) == 0.0
  {
  }

  lemma UnfoldDot(x: seq<real>, y: seq<real>)
    requires |x| == |y| && x != []
    ensures var n := |x| - 1; Dot(x, y) == Dot(x[..n], y[..n]) + Product(x[n], y[n])
  {
    hide Product;
  }

  lemma DotNothing(x: seq<real>, y: seq<real>)
    requires |x| == |y| == 0
    ensures Dot(x, y) == 0.0
  {
  }

  lemma MixSplits(a: real, x: seq<real>, b: real, y: seq<real>)
    requires |x| == |y| && x != []
    ensures var n := |x| - 1;
            && Mix(a, x, b, y)[..n] == Mix(a, x[..n], b, y[..n])
            && Product(Mix(a, x, b, y)[n], Mix(a, x, b, y)[n]) == Square(Combine(a, x[n], b, y[n]))
  {
    hide Product, Combine;
    var n := |x| - 1;
    forall i | 0 <= i < n ensures Mix(a, x, b, y)[..n][i] == Mix(a, x[..n], b, y[..n])[i] {
      assert x[..n][i] == x[i] && y[..n][i] == y[i];
    }
  }

  lemma {:induction false} EnergyOfMix(a: real, x: seq<real>, b: real, y: seq<real>)
    requires |x| == |y|
    ensures Dot(Mix(a, x, b, y), Mix(a, x, b, y)) == Quadratic(a, b, Dot(x, x), Dot(x, y), Dot(y, y))
    decreases |x|
  {
    hide *;
    var m := Mix(a, x, b, y);
    if |x| == 0 {
      DotNothing(m, m);
      DotNothing(x, x);
      DotNothing(x, y);
      DotNothing(y, y);
      QuadraticNothing(a, b);
    } else {
      var n := |x| - 1;
      EnergyOfMix(a, x[..n], b, y[..n]);
      MixSplits(a, x, b, y);
      UnfoldDot(m, m);
      UnfoldDot(x, x);
      UnfoldDot(x, y);
      UnfoldDot(y, y);
      QuadraticOne(a, b, x[n], y[n]);
      QuadraticAdds(a, b, Dot(x[..n], x[..n]), Dot(x[..n], y[..n]), Dot(y[..n], y[..n]),
                    Product(x[n], x[n]), Product(x[n], y[n]), Product(y[n], y[n]));
    }
  }

  lemma QuadraticAt(xx: real, xy: real, yy: real)
    ensures Quadratic(yy, -xy, xx, xy, yy) == yy * (xx * yy - xy * xy)
  {
    assert yy * (yy * xx) == yy * (xx * yy);
    assert (-xy) * ((-xy) * yy) == yy * (xy * xy);
    assert yy * ((-xy) * xy) == -(yy * (xy * xy));
  }

  // The vector whose energy decides the matter.
  function Rest(x: seq<real>, y: seq<real>): seq<real>
    requires |x| == |y|
  {
    Mix(Dot(y, y), x, -Dot(x, y), y)
  }

  lemma EnergyOfRest(x: seq<real>, y: seq<real>)
    requires |x| == |y|
    ensures |Rest(x, y)| == |x|
    ensures Dot(Rest(x, y), Rest(x, y)) == Dot(y, y) * (Dot(x, x) * Dot(y, y) - Dot(x, y) * Dot(x, y))
  {
    hide Dot, Quadratic, Mix;
    EnergyOfMix(Dot(y, y), x, -Dot(x, y), y);
    QuadraticAt(Dot(x, x), Dot(x, y), Dot(y, y));
  }

  /** A correlation is never larger than the energies allow, and reaches them only without a rest. */
  lemma CauchySchwarz(x: seq<real>, y: seq<real>)
    requires |x| == |y| && Dot(y, y) > 0.0
    ensures Square(Dot(x, y)) <= Product(Dot(x, x), Dot(y, y))
    ensures Square(Dot(x, y)) == Product(Dot(x, x), Dot(y, y)) <==> AllZero(Rest(x, y))
  {
    hide Dot, Rest;
    EnergyOfRest(x, y);
    EnergySign(Rest(x, y));
    var gap := Dot(x, x) * Dot(y, y) - Dot(x, y) * Dot(x, y);
    NonNegativeFactor(gap, Dot(y, y));
    Weigh(Dot(y, y), gap);
  }

  // ----- multiples -----------------------------------------------------------------------------------

  ghost predicate ScaledBy(x: seq<real>, k: real, y: seq<real>) {
    |x| == |y| && forall i :: 0 <= i < |x| ==> x[i] == k * y[i]
  }

  ghost predicate IsMultiple(x: seq<real>, y: seq<real>) {
    exists k :: k != 0.0 && ScaledBy(x, k, y)
  }

  lemma {:induction false} DotScaled(x: seq<real>, k: real, y: seq<real>, z: seq<real>)
    requires ScaledBy(x, k, y) && |z| == |x|
    ensures Dot(x, z) == k * Dot(y, z)
    decreases |x|
  {
    if |x| == 0 {
    } else {
      hide Dot;
      var n := |x| - 1;
      DotScaled(x[..n], k, y[..n], z[..n]);
      UnfoldDot(x, z);
      UnfoldDot(y, z);
      assert k * y[n] * z[n] == k * (y[n] * z[n]);
      Spread(k, Dot(y[..n], z[..n]), Product(y[n], z[n]));
    }
  }

  lemma EnergyScaled(x: seq<real>, k: real, y: seq<real>)
    requires ScaledBy(x, k, y)
    ensures Dot(x, x) == k * (k * Dot(y, y))
  {
    hide Dot, ScaledBy;
    assert |x| == |y| by { ScaledLength(x, k, y); }
    DotScaled(x, k, y, x);
    DotSymmetric(y, x);
    DotScaled(x, k, y, y);
  }

  lemma ScaledLength(x: seq<real>, k: real, y: seq<real>)
    requires ScaledBy(x, k, y)
    ensures |x| == |y|
  {
  }

  lemma MultipleAttains(x: seq<real>, k: real, y: seq<real>)
    requires ScaledBy(x, k, y) && k != 0.0 && Dot(y, y) > 0.0
    ensures |x| == |y| && Dot(x, x) > 0.0
    ensures Square(Dot(x, y)) == Product(Dot(x, x), Dot(y, y))
  {
    hide Dot, ScaledBy;
    ScaledLength(x, k, y);
    DotScaled(x, k, y, y);
    EnergyScaled(x, k, y);
    var e := Dot(y, y);
    SquareSign(k);
    Positive(Square(k), e);
    assert k * (k * e) == (k * k) * e;
    assert (k * e) * (k * e) == (k * (k * e)) * e;
  }

  lemma RestVanishes(x: seq<real>, y: seq<real>)
    requires |x| == |y| && Dot(y, y) > 0.0 && AllZero(Rest(x, y))
    ensures ScaledBy(x, Dot(x, y) / Dot(y, y), y)
  {
    hide Dot, Rest, AllZero, Combine;
    forall i | 0 <= i < |x| ensures x[i] == Dot(x, y) / Dot(y, y) * y[i] {
      RestAt(x, y, i);
      Divide(Dot(y, y), Dot(x, y), x[i], y[i]);
    }
  }

  lemma RestAt(x: seq<real>, y: seq<real>, i: nat)
    requires i < |x| == |y| && AllZero(Rest(x, y))
    ensures Combine(Dot(y, y), x[i], -Dot(x, y), y[i]) == 0.0
  {
    hide Dot, Combine;
    assert Rest(x, y)[i] == 0.0;
  }

  lemma Divide(e: real, d: real, s: real, t: real)
    requires e > 0.0 && Combine(e, s, -d, t) == 0.0
    ensures s == d / e * t
  {
    var q := d / e;
    QuotientTimes(d, e);
    assert e * s == d * t;
    assert e * (s - q * t) == 0.0 by { assert e * (q * t) == (q * e) * t; }
    Cancels(e, s - q * t);
  }

  lemma Cancels(e: real, s: real)
    requires e > 0.0 && e * s == 0.0
    ensures s == 0.0
  {
  }

  /** Full correlation with a live window means the window is a nonzero multiple, and only that. */
  lemma FullMeansMultiple(x: seq<real>, y: seq<real>)
    requires |x| == |y| && Dot(y, y) > 0.0
    ensures Dot(x, x) > 0.0 && Square(Dot(x, y)) == Product(Dot(x, x), Dot(y, y)) <==> IsMultiple(x, y)
  {
    hide Dot, Rest, ScaledBy;
    if IsMultiple(x, y) {
      var k :| k != 0.0 && ScaledBy(x, k, y);
      MultipleAttains(x, k, y);
    }
    if Dot(x, x) > 0.0 && Square(Dot(x, y)) == Product(Dot(x, x), Dot(y, y)) {
      CauchySchwarz(x, y);
      RestVanishes(x, y);
      Positive(Dot(x, x), Dot(y, y));
      SquareSign(Dot(x, y));
      NonZeroQuotient(Dot(x, y), Dot(y, y));
    }
  }

  lemma NonZeroQuotient(d: real, e: real)
    requires d != 0.0 && e > 0.0
    ensures d / e != 0.0
  {
    QuotientTimes(d, e);
  }
}
