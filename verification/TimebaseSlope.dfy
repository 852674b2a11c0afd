/**
 When the capture timebase can map time back to samples: spikes/a-tx-latency/src/timebase.cpp:41-63. The
 anchors of a capture stream advance by at least one sample each, and the host clock never runs back.
 */
module TimebaseSlope {
  import opened Options
  import opened RealArithmetic
  import opened Timebase

  ghost predicate Advances(anchors: seq<Anchor>) {
    forall i, j :: 0 <= i < j < |anchors| ==>
      anchors[i].frame < anchors[j].frame && anchors[i].host <= anchors[j].host
  }

  // The host clock moved between the first and the last anchor.
  predicate ClockMoved(anchors: seq<Anchor>) {
    anchors != [] && anchors[0].host < anchors[|anchors| - 1].host
  }

  // n times the sum of products about the means, from the raw sums.
  function Covariance(m: Moments): real {
    Product(m.n as real, m.sxy) - Product(m.sx, m.sy)
  }

  // The sum of products about (f, h), from the raw sums.
  function ProductsAbout(m: Moments, f: real, h: real): real {
    m.sxy - Product(h, m.sx) - Product(f, m.sy) + Product(m.n as real, Product(f, h))
  }

  function Raw(anchors: seq<Anchor>): Moments {
    MomentsOf(anchors, 0.0, 0.0)
  }

  // ----- moving the origin ------------------------------------------------------------------------

  lemma ShiftOne(m: Moments, a: Anchor, f: real, h: real)
    ensures ProductsAbout(Join(m, Single(a.frame - 0.0, a.host - 0.0)), f, h)
         == ProductsAbout(m, f, h) + Single(a.frame - f, a.host - h).sxy
  {
    var x, y := a.frame, a.host;
    Spreads(h, m.sx, x);
    Spreads(f, m.sy, y);
    Spreads(Product(f, h), m.n as real, 1.0);
    CrossTerms(x, y, f, h);
    hide Product;
    ProductCommutes((m.n + 1) as real, Product(f, h));
    ProductCommutes(m.n as real, Product(f, h));
  }

  lemma Spreads(k: real, x: real, y: real)
    ensures Product(k, x + y) == Product(k, x) + Product(k, y) && Product(k, 1.0) == k
  {
  }

  lemma CrossTerms(x: real, y: real, f: real, h: real)
    ensures Single(x - 0.0, y - 0.0).sxy == Product(x, y)
    ensures Single(x - f, y - h).sxy == Product(x, y) - Product(h, x) - Product(f, y) + Product(f, h)
  {
  }

  lemma ShiftNothing(f: real, h: real)
    ensures ProductsAbout(Moments(0, 0.0, 0.0, 0.0, 0.0, 0.0), f, h) == 0.0
  {
  }

  lemma {:induction false} Shift(anchors: seq<Anchor>, f: real, h: real)
    ensures MomentsOf(anchors, f, h).sxy == ProductsAbout(Raw(anchors), f, h)
    decreases |anchors|
  {
    if anchors == [] {
      hide ProductsAbout;
      ShiftNothing(f, h);
    } else {
      hide ProductsAbout, Join, Single, MomentsOf;
      var n := |anchors| - 1;
      Shift(anchors[..n], f, h);
      UnfoldMoments(anchors, f, h);
      UnfoldMoments(anchors, 0.0, 0.0);
      ShiftOne(Raw(anchors[..n]), anchors[n], f, h);
      JoinProducts(MomentsOf(anchors[..n], f, h), Single(anchors[n].frame - f, anchors[n].host - h));
    }
  }

  lemma JoinProducts(p: Moments, q: Moments)
    ensures Join(p, q).sxy == p.sxy + q.sxy
  {
  }

  // ----- one more anchor -----------------------------------------------------------------------------

  lemma CovarianceGrows(m: Moments, f: real, h: real)
    ensures Covariance(Join(m, Single(f, h))) == Covariance(m) + ProductsAbout(m, f, h)
  {
    var n := m.n as real;
    assert (n + 1.0) * (m.sxy + f * h) == n * m.sxy + n * (f * h) + m.sxy + f * h;
    assert (m.sx + f) * (m.sy + h) == m.sx * m.sy + h * m.sx + f * m.sy + f * h;
  }

  ghost predicate SomeEarlier(anchors: seq<Anchor>, host: real) {
    exists i :: 0 <= i < |anchors| && anchors[i].host < host
  }

  lemma {:induction false} Behind(anchors: seq<Anchor>, f: real, h: real)
    requires forall i :: 0 <= i < |anchors| ==> anchors[i].frame < f && anchors[i].host <= h
    ensures MomentsOf(anchors, f, h).sxy >= 0.0
    ensures MomentsOf(anchors, f, h).sxy > 0.0 <==> SomeEarlier(anchors, h)
    decreases |anchors|
  {
    if anchors != [] {
      hide Single, Join, MomentsOf;
      var n := |anchors| - 1;
      Behind(anchors[..n], f, h);
      UnfoldMoments(anchors, f, h);
      JoinProducts(MomentsOf(anchors[..n], f, h), Single(anchors[n].frame - f, anchors[n].host - h));
      ProductSign(f - anchors[n].frame, h - anchors[n].host, anchors[n].frame - f, anchors[n].host - h);
      EarlierSplits(anchors, h);
    }
  }

  lemma ProductSign(up: real, right: real, x: real, y: real)
    requires up > 0.0 && right >= 0.0 && x == -up && y == -right
    ensures Single(x, y).sxy >= 0.0
    ensures Single(x, y).sxy > 0.0 <==> right > 0.0
  {
    assert x * y == up * right;
    Weigh(up, right);
  }

  lemma EarlierSplits(anchors: seq<Anchor>, h: real)
    requires anchors != []
    ensures SomeEarlier(anchors, h) <==> SomeEarlier(anchors[..|anchors| - 1], h) || anchors[|anchors| - 1].host < h
  {
    var n := |anchors| - 1;
    if i :| 0 <= i < |anchors| && anchors[i].host < h {
      if i < n { assert anchors[..n][i].host < h; }
    }
  }

  // ----- the sign of the slope -------------------------------------------------------------------------

  lemma CovarianceOfNothing(anchors: seq<Anchor>)
    requires anchors == []
    ensures Covariance(Raw(anchors)) == 0.0
  {
  }

  lemma CovarianceSnoc(anchors: seq<Anchor>)
    requires anchors != []
    ensures var n := |anchors| - 1; var x := anchors[n];
            Covariance(Raw(anchors)) == Covariance(Raw(anchors[..n])) + MomentsOf(anchors[..n], x.frame, x.host).sxy
  {
    hide Covariance, ProductsAbout, Join, Single, MomentsOf;
    var n := |anchors| - 1;
    var x := anchors[n];
    UnfoldMoments(anchors, 0.0, 0.0);
    CovarianceGrows(Raw(anchors[..n]), x.frame, x.host);
    Shift(anchors[..n], x.frame, x.host);
    assert x.frame - 0.0 == x.frame && x.host - 0.0 == x.host;
  }

  lemma {:induction false} CovarianceSign(anchors: seq<Anchor>)
    requires Advances(anchors)
    ensures Covariance(Raw(anchors)) >= 0.0
    ensures Covariance(Raw(anchors)) > 0.0 <==> ClockMoved(anchors)
    decreases |anchors|
  {
    hide Covariance, Raw, MomentsOf;
    if anchors == [] {
      CovarianceOfNothing(anchors);
    } else {
      var n := |anchors| - 1;
      CovarianceSign(anchors[..n]);
      CovarianceSnoc(anchors);
      Behind(anchors[..n], anchors[n].frame, anchors[n].host);
      LaterThanSome(anchors);
    }
  }

  lemma LaterThanSome(anchors: seq<Anchor>)
    requires anchors != [] && Advances(anchors)
    ensures ClockMoved(anchors) <==> SomeEarlier(anchors[..|anchors| - 1], anchors[|anchors| - 1].host)
    ensures ClockMoved(anchors[..|anchors| - 1]) ==> ClockMoved(anchors)
  {
    var n := |anchors| - 1;
    if ClockMoved(anchors) { assert anchors[..n][0].host < anchors[n].host; }
  }

  lemma CovarianceAtMeans(m: Moments, fm: real, hm: real)
    requires Product(m.n as real, fm) == m.sx && Product(m.n as real, hm) == m.sy
    ensures Product(m.n as real, ProductsAbout(m, fm, hm)) == Covariance(m)
  {
    var n := m.n as real;
    assert n * (hm * m.sx) == m.sy * m.sx;
    assert n * (fm * m.sy) == m.sx * m.sy;
    assert n * (n * (fm * hm)) == m.sx * m.sy;
    assert n * ProductsAbout(m, fm, hm) == n * m.sxy - n * (hm * m.sx) - n * (fm * m.sy) + n * (n * (fm * hm));
  }

  lemma {:induction false} RawSums(anchors: seq<Anchor>)
    ensures Raw(anchors).sx == SumFrames(anchors) && Raw(anchors).sy == SumHosts(anchors)
    decreases |anchors|
  {
    if anchors != [] { RawSums(anchors[..|anchors| - 1]); }
  }

  lemma CentredCovariance(anchors: seq<Anchor>, l: Line)
    requires FitOf(anchors) == Some(l)
    ensures Product(|anchors| as real, MomentsOf(anchors, l.frameMean, l.hostMean).sxy) == Covariance(Raw(anchors))
  {
    hide FitOf, Covariance, ProductsAbout, MomentsOf, SumFrames, SumHosts;
    FitParts(anchors, l);
    RawSums(anchors);
    Shift(anchors, l.frameMean, l.hostMean);
    CovarianceAtMeans(Raw(anchors), l.frameMean, l.hostMean);
  }

  lemma SlopeSignOf(slope: real, sxx: real, sxy: real, n: real, covariance: real)
    requires sxx > 0.0 && n > 0.0 && slope * sxx == sxy && Product(n, sxy) == covariance
    ensures covariance >= 0.0 ==> slope >= 0.0
    ensures covariance > 0.0 <==> slope > 0.0
  {
    if slope > 0.0 {
      Positive(slope, sxx);
      Positive(n, sxy);
    } else if slope < 0.0 {
      Positive(-slope, sxx);
      assert (-slope) * sxx == -sxy;
      Positive(n, -sxy);
      assert n * (-sxy) == -(n * sxy);
    } else {
      assert sxy == 0.0 by { assert slope * sxx == 0.0 * sxx; }
      assert Product(n, sxy) == n * 0.0;
    }
  }

  /** On an advancing stream the fitted slope is never negative, and positive exactly when the clock moved. */
  lemma SlopeSign(anchors: seq<Anchor>, l: Line)
    requires FitOf(anchors) == Some(l) && Advances(anchors)
    ensures l.slope >= 0.0
    ensures l.slope > 0.0 <==> ClockMoved(anchors)
  {
    hide FitOf, Covariance, Product, MomentsOf, Raw, Advances;
    NormalEquations(anchors, l);
    CentredCovariance(anchors, l);
    CovarianceSign(anchors);
    var m := MomentsOf(anchors, l.frameMean, l.hostMean);
    SlopeSignOf(l.slope, m.sxx, m.sxy, |anchors| as real, Covariance(Raw(anchors)));
  }

  /**
   So on a capture stream with eight anchors the index-to-time map always answers, and the time-to-index
   map answers exactly when the host clock moved within the window.
   */
  lemma MapsAnswerIff(anchors: seq<Anchor>, frame: real, host: int)
    requires |anchors| >= MIN_ANCHORS && Advances(anchors)
    ensures HostNsForFrame(anchors, frame).Some?
    ensures FrameForHostNs(anchors, host).Some? <==> ClockMoved(anchors)
    ensures MeasuredRateHz(anchors).Some? <==> ClockMoved(anchors)
  {
    hide FitOf, HostAt, FrameAt;
    assert anchors[1].frame > anchors[0].frame;
    FitExistsIff(anchors);
    SlopeSign(anchors, FitOf(anchors).value);
  }
}
