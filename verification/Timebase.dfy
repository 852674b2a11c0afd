/**
 The capture timebase: spikes/a-tx-latency/src/timebase.cpp. A least-squares line of host time over
 sample index, fitted in centred form to a sliding window of anchors. Doubles are reals.
 */
module Timebase {
  import opened Options
  import opened RealArithmetic

  datatype Anchor = Anchor(frame: real, host: real)

  datatype Line = Line(slope: real, intercept: real, frameMean: real, hostMean: real)

  const MIN_ANCHORS := 8

  // ----- sums over the anchors -------------------------------------------------------------------

  // Sums over anchors of dx, dy and their products, dx and dy measured from fm and hm.
  datatype Moments = Moments(n: nat, sx: real, sy: real, sxx: real, sxy: real, syy: real)

  function Single(dx: real, dy: real): Moments {
    Moments(1, dx, dy, dx * dx, dx * dy, dy * dy)
  }

  function Join(p: Moments, q: Moments): Moments {
    Moments(p.n + q.n, p.sx + q.sx, p.sy + q.sy, p.sxx + q.sxx, p.sxy + q.sxy, p.syy + q.syy)
  }

  function MomentsOf(anchors: seq<Anchor>, fm: real, hm: real): (m: Moments)
    ensures m.n == |anchors|
  {
    if anchors == [] then Moments(0, 0.0, 0.0, 0.0, 0.0, 0.0)
    else
      var n := |anchors| - 1;
      Join(MomentsOf(anchors[..n], fm, hm), Single(anchors[n].frame - fm, anchors[n].host - hm))
  }

  // What the fit minimises: the squared distances of the anchors from a line, in host time.
  function SumOfSquares(anchors: seq<Anchor>, slope: real, intercept: real): real {
    if anchors == [] then 0.0
    else
      var n := |anchors| - 1;
      SumOfSquares(anchors[..n], slope, intercept) + Square(Residual(anchors[n], slope, intercept))
  }

  // How far an anchor lies from a line, in host time.
  function Residual(a: Anchor, slope: real, intercept: real): real {
    a.host - (intercept + slope * a.frame)
  }

  function SumFrames(anchors: seq<Anchor>): real {
    if anchors == [] then 0.0 else SumFrames(anchors[..|anchors| - 1]) + anchors[|anchors| - 1].frame
  }

  function SumHosts(anchors: seq<Anchor>): real {
    if anchors == [] then 0.0 else SumHosts(anchors[..|anchors| - 1]) + anchors[|anchors| - 1].host
  }

  // ----- the fit ------------------------------------------------------------------------------------

  function Mean(sum: real, n: nat): (mean: real)
    requires n > 0
    ensures n as real * mean == sum
  {
    QuotientTimes(sum, n as real);
    sum / n as real
  }

  function LineOf(fm: real, hm: real, sxx: real, sxy: real): Option<Line> {
    if sxx <= 0.0 then None
    else
      var slope := sxy / sxx;
      Some(Line(slope, hm - slope * fm, fm, hm))
  }

  function FitOf(anchors: seq<Anchor>): Option<Line> {
    if |anchors| < MIN_ANCHORS then None
    else
      var fm, hm := Mean(SumFrames(anchors), |anchors|), Mean(SumHosts(anchors), |anchors|);
      var m := MomentsOf(anchors, fm, hm);
      LineOf(fm, hm, m.sxx, m.sxy)
  }

  lemma CountUp(n: nat, x: real)
    ensures (n + 1) as real * x == n as real * x + x
  {
  }

  lemma {:induction false} CentredFrames(anchors: seq<Anchor>, fm: real, hm: real)
    ensures MomentsOf(anchors, fm, hm).sx == SumFrames(anchors) - |anchors| as real * fm
    decreases |anchors|
  {
    if anchors != [] {
      CentredFrames(anchors[..|anchors| - 1], fm, hm);
      CountUp(|anchors| - 1, fm);
    }
  }

  lemma {:induction false} CentredHosts(anchors: seq<Anchor>, fm: real, hm: real)
    ensures MomentsOf(anchors, fm, hm).sy == SumHosts(anchors) - |anchors| as real * hm
    decreases |anchors|
  {
    if anchors != [] {
      CentredHosts(anchors[..|anchors| - 1], fm, hm);
      CountUp(|anchors| - 1, hm);
    }
  }

  // What being fitted says about the centred sums, without division.
  ghost predicate Normal(l: Line, m: Moments) {
    m.n >= MIN_ANCHORS && m.sx == 0.0 && m.sy == 0.0 && m.sxx > 0.0 && l.slope * m.sxx == m.sxy
    && l.intercept + l.slope * l.frameMean - l.hostMean == 0.0
  }

  lemma FitParts(anchors: seq<Anchor>, l: Line)
    requires FitOf(anchors) == Some(l)
    ensures |anchors| >= MIN_ANCHORS
    ensures l.frameMean == Mean(SumFrames(anchors), |anchors|) && l.hostMean == Mean(SumHosts(anchors), |anchors|)
    ensures var m := MomentsOf(anchors, l.frameMean, l.hostMean);
            LineOf(l.frameMean, l.hostMean, m.sxx, m.sxy) == Some(l)
  {
    hide MomentsOf, Mean, SumFrames, SumHosts;
  }

  lemma NormalEquations(anchors: seq<Anchor>, l: Line)
    requires FitOf(anchors) == Some(l)
    ensures Normal(l, MomentsOf(anchors, l.frameMean, l.hostMean))
  {
    hide *;
    FitParts(anchors, l);
    CentredFrames(anchors, l.frameMean, l.hostMean);
    CentredHosts(anchors, l.frameMean, l.hostMean);
    LineIsNormal(l.frameMean, l.hostMean, MomentsOf(anchors, l.frameMean, l.hostMean), l);
  }

  lemma LineIsNormal(fm: real, hm: real, m: Moments, l: Line)
    requires m.n >= MIN_ANCHORS && m.sx == 0.0 && m.sy == 0.0 && LineOf(fm, hm, m.sxx, m.sxy) == Some(l)
    ensures Normal(l, m)
  {
    QuotientTimes(m.sxy, m.sxx);
  }

  // ----- expanding the residuals around the means ----------------------------------------------------

  // The sum of squares of dy - slope*dx - c, from the centred sums.
  function Expanded(m: Moments, slope: real, c: real): real {
    m.syy - 2.0 * (slope * m.sxy) + slope * (slope * m.sxx)
    - 2.0 * (c * m.sy) + 2.0 * (slope * (c * m.sx)) + m.n as real * (c * c)
  }

  lemma ExpandSingle(dx: real, dy: real, slope: real, c: real)
    ensures Square(dy - slope * dx - c) == Expanded(Single(dx, dy), slope, c)
  {
    var t := slope * dx;
    assert (dy - t - c) * (dy - t - c) == dy * dy - 2.0 * (dy * t) + t * t - 2.0 * (c * dy) + 2.0 * (t * c) + c * c;
    assert t * t == slope * (slope * (dx * dx));
    assert dy * t == slope * (dx * dy);
    assert t * c == slope * (c * dx);
  }

  lemma ExpandJoin(p: Moments, q: Moments, slope: real, c: real)
    ensures Expanded(Join(p, q), slope, c) == Expanded(p, slope, c) + Expanded(q, slope, c)
  {
    Spread(slope, p.sxy, q.sxy);
    Spread(slope, p.sxx, q.sxx);
    Spread(slope, slope * p.sxx, slope * q.sxx);
    Spread(c, p.sy, q.sy);
    Spread(c, p.sx, q.sx);
    Spread(slope, c * p.sx, c * q.sx);
    Spread(c * c, p.n as real, q.n as real);
  }

  lemma ExpandNothing(slope: real, c: real)
    ensures Expanded(Moments(0, 0.0, 0.0, 0.0, 0.0, 0.0), slope, c) == 0.0
  {
  }

  lemma ExpandStep(m: Moments, dx: real, dy: real, slope: real, c: real, r: real)
    requires r == dy - slope * dx - c
    ensures Expanded(m, slope, c) + Square(r) == Expanded(Join(m, Single(dx, dy)), slope, c)
  {
    ExpandSingle(dx, dy, slope, c);
    ExpandJoin(m, Single(dx, dy), slope, c);
  }

  lemma Recentre(frame: real, host: real, slope: real, intercept: real, fm: real, hm: real)
    ensures host - (intercept + slope * frame) == (host - hm) - slope * (frame - fm) - (intercept + slope * fm - hm)
  {
    assert slope * (frame - fm) == slope * frame - slope * fm;
  }

  lemma ExpandAnchor(m: Moments, a: Anchor, slope: real, intercept: real, fm: real, hm: real, c: real)
    requires Above(c, slope, intercept, fm, hm)
    ensures Expanded(m, slope, c) + Square(Residual(a, slope, intercept))
         == Expanded(Join(m, Single(a.frame - fm, a.host - hm)), slope, c)
  {
    hide Expanded, Square, Join, Single;
    Recentre(a.frame, a.host, slope, intercept, fm, hm);
    ExpandStep(m, a.frame - fm, a.host - hm, slope, c, Residual(a, slope, intercept));
  }

  lemma UnfoldSquares(anchors: seq<Anchor>, slope: real, intercept: real)
    requires anchors != []
    ensures var n := |anchors| - 1;
            SumOfSquares(anchors, slope, intercept)
            == SumOfSquares(anchors[..n], slope, intercept)
               + Square(Residual(anchors[n], slope, intercept))
  {
    hide Square;
  }

  lemma UnfoldMoments(anchors: seq<Anchor>, fm: real, hm: real)
    requires anchors != []
    ensures var n := |anchors| - 1;
            MomentsOf(anchors, fm, hm)
            == Join(MomentsOf(anchors[..n], fm, hm), Single(anchors[n].frame - fm, anchors[n].host - hm))
  {
    hide Join, Single;
  }

  // How far above the means the line passes.
  ghost predicate Above(c: real, slope: real, intercept: real, fm: real, hm: real) {
    c == intercept + slope * fm - hm
  }

  lemma ExpandEmpty(anchors: seq<Anchor>, slope: real, intercept: real, fm: real, hm: real, c: real)
    requires anchors == []
    ensures SumOfSquares(anchors, slope, intercept) == Expanded(MomentsOf(anchors, fm, hm), slope, c)
  {
    hide Expanded;
    ExpandNothing(slope, c);
  }

  lemma {:induction false} Expand(anchors: seq<Anchor>, slope: real, intercept: real, fm: real, hm: real, c: real)
    requires Above(c, slope, intercept, fm, hm)
    ensures SumOfSquares(anchors, slope, intercept) == Expanded(MomentsOf(anchors, fm, hm), slope, c)
    decreases |anchors|
  {
    hide *;
    if anchors == [] {
      ExpandEmpty(anchors, slope, intercept, fm, hm, c);
    } else {
      var n := |anchors| - 1;
      UnfoldSquares(anchors, slope, intercept);
      UnfoldMoments(anchors, fm, hm);
      Expand(anchors[..n], slope, intercept, fm, hm, c);
      ExpandAnchor(MomentsOf(anchors[..n], fm, hm), anchors[n], slope, intercept, fm, hm, c);
    }
  }

  // ----- the fit is the best line -----------------------------------------------------------------

  // How much worse a line is, its height at the mean off by c: a weighted sum of two squares.
  function Excess(m: Moments, l: Line, slope: real, c: real): real {
    m.sxx * Square(slope - l.slope) + m.n as real * Square(c)
  }

  lemma ExcessOf(m: Moments, l: Line, slope: real, c: real)
    requires Normal(l, m)
    ensures Expanded(m, slope, c) == Expanded(m, l.slope, 0.0) + Excess(m, l, slope, c)
  {
    var b := l.slope;
    assert slope * m.sxy == slope * (b * m.sxx);
    assert m.sxx * ((slope - b) * (slope - b)) == slope * (slope * m.sxx) - 2.0 * (slope * (b * m.sxx)) + b * (b * m.sxx);
  }

  lemma ExcessIsPositive(m: Moments, l: Line, slope: real, c: real)
    requires Normal(l, m)
    ensures Excess(m, l, slope, c) >= 0.0
    ensures Excess(m, l, slope, c) == 0.0 <==> slope == l.slope && c == 0.0
  {
    SquareSign(slope - l.slope);
    SquareSign(c);
    Weigh(m.sxx, Square(slope - l.slope));
    Weigh(m.n as real, Square(c));
  }

  lemma ExpandedExcess(m: Moments, l: Line, slope: real, c: real) returns (excess: real)
    requires Normal(l, m)
    ensures Expanded(m, slope, c) == Expanded(m, l.slope, 0.0) + excess
    ensures excess >= 0.0
    ensures excess == 0.0 <==> slope == l.slope && c == 0.0
  {
    ExcessOf(m, l, slope, c);
    ExcessIsPositive(m, l, slope, c);
    excess := Excess(m, l, slope, c);
  }

  lemma BestHeight(l: Line, m: Moments)
    requires Normal(l, m)
    ensures Above(0.0, l.slope, l.intercept, l.frameMean, l.hostMean)
  {
  }

  lemma ResidualsOfAnyLine(anchors: seq<Anchor>, l: Line, slope: real, intercept: real, c: real) returns (excess: real)
    requires FitOf(anchors) == Some(l) && Above(c, slope, intercept, l.frameMean, l.hostMean)
    ensures SumOfSquares(anchors, slope, intercept) == SumOfSquares(anchors, l.slope, l.intercept) + excess
    ensures excess >= 0.0
    ensures excess == 0.0 <==> slope == l.slope && c == 0.0
  {
    hide *;
    NormalEquations(anchors, l);
    BestHeight(l, MomentsOf(anchors, l.frameMean, l.hostMean));
    Expand(anchors, slope, intercept, l.frameMean, l.hostMean, c);
    Expand(anchors, l.slope, l.intercept, l.frameMean, l.hostMean, 0.0);
    excess := ExpandedExcess(MomentsOf(anchors, l.frameMean, l.hostMean), l, slope, c);
  }

  lemma SameHeight(l: Line, slope: real, intercept: real, c: real)
    requires Above(0.0, l.slope, l.intercept, l.frameMean, l.hostMean)
    requires Above(c, slope, intercept, l.frameMean, l.hostMean)
    ensures slope == l.slope ==> (c == 0.0 <==> intercept == l.intercept)
  {
    assert slope == l.slope ==> slope * l.frameMean == l.slope * l.frameMean;
  }

  /** Least squares: no line has a smaller sum of squared residuals, and no other line ties. */
  lemma FitIsBest(anchors: seq<Anchor>, l: Line, slope: real, intercept: real)
    requires FitOf(anchors) == Some(l)
    ensures SumOfSquares(anchors, l.slope, l.intercept) <= SumOfSquares(anchors, slope, intercept)
    ensures SumOfSquares(anchors, l.slope, l.intercept) == SumOfSquares(anchors, slope, intercept)
            <==> slope == l.slope && intercept == l.intercept
  {
    hide FitOf, SumOfSquares;
    var c := intercept + slope * l.frameMean - l.hostMean;
    var excess := ResidualsOfAnyLine(anchors, l, slope, intercept, c);
    NormalEquations(anchors, l);
    BestHeight(l, MomentsOf(anchors, l.frameMean, l.hostMean));
    SameHeight(l, slope, intercept, c);
  }

  ghost predicate OnLine(anchors: seq<Anchor>, slope: real, intercept: real) {
    forall i :: 0 <= i < |anchors| ==> anchors[i].host == intercept + slope * anchors[i].frame
  }

  lemma {:induction false} OnLineMeansNoResidual(anchors: seq<Anchor>, slope: real, intercept: real)
    ensures SumOfSquares(anchors, slope, intercept) >= 0.0
    ensures SumOfSquares(anchors, slope, intercept) == 0.0 <==> OnLine(anchors, slope, intercept)
    decreases |anchors|
  {
    hide *;
    if anchors == [] {
      NoAnchors(slope, intercept);
    } else {
      var n := |anchors| - 1;
      OnLineMeansNoResidual(anchors[..n], slope, intercept);
      UnfoldSquares(anchors, slope, intercept);
      SquareSign(Residual(anchors[n], slope, intercept));
      OnLineSplits(anchors, slope, intercept);
    }
  }

  lemma NoAnchors(slope: real, intercept: real)
    ensures SumOfSquares([], slope, intercept) == 0.0 && OnLine([], slope, intercept)
  {
  }

  lemma OnLineSplits(anchors: seq<Anchor>, slope: real, intercept: real)
    requires anchors != []
    ensures OnLine(anchors, slope, intercept) <==>
              && OnLine(anchors[..|anchors| - 1], slope, intercept)
              && Residual(anchors[|anchors| - 1], slope, intercept) == 0.0
  {
    var n := |anchors| - 1;
    if OnLine(anchors[..n], slope, intercept) && anchors[n].host == intercept + slope * anchors[n].frame {
      forall i | 0 <= i < |anchors| ensures anchors[i].host == intercept + slope * anchors[i].frame {
        if i < n { assert anchors[i] == anchors[..n][i]; }
      }
    }
  }

  /** Anchors that lie exactly on a line give back exactly that line. */
  lemma CollinearRecovered(anchors: seq<Anchor>, l: Line, slope: real, intercept: real)
    requires FitOf(anchors) == Some(l) && OnLine(anchors, slope, intercept)
    ensures l.slope == slope && l.intercept == intercept
  {
    OnLineMeansNoResidual(anchors, slope, intercept);
    OnLineMeansNoResidual(anchors, l.slope, l.intercept);
    FitIsBest(anchors, l, slope, intercept);
  }

  // ----- when there is a fit ---------------------------------------------------------------------------

  ghost predicate AllAt(anchors: seq<Anchor>, frame: real) {
    forall i :: 0 <= i < |anchors| ==> anchors[i].frame == frame
  }

  lemma {:induction false} SpreadIsZero(anchors: seq<Anchor>, fm: real, hm: real)
    ensures MomentsOf(anchors, fm, hm).sxx >= 0.0
    ensures MomentsOf(anchors, fm, hm).sxx == 0.0 <==> AllAt(anchors, fm)
    decreases |anchors|
  {
    if anchors != [] {
      var n := |anchors| - 1;
      SpreadIsZero(anchors[..n], fm, hm);
      SquareSign(anchors[n].frame - fm);
      AllAtSplits(anchors, fm);
    }
  }

  lemma AllAtSplits(anchors: seq<Anchor>, frame: real)
    requires anchors != []
    ensures AllAt(anchors, frame) <==> AllAt(anchors[..|anchors| - 1], frame) && anchors[|anchors| - 1].frame == frame
  {
    var n := |anchors| - 1;
    if AllAt(anchors[..n], frame) && anchors[n].frame == frame {
      forall i | 0 <= i < |anchors| ensures anchors[i].frame == frame {
        if i < n { assert anchors[i] == anchors[..n][i]; }
      }
    }
  }

  lemma {:induction false} SumOfEqual(anchors: seq<Anchor>, frame: real)
    requires AllAt(anchors, frame)
    ensures SumFrames(anchors) == |anchors| as real * frame
    decreases |anchors|
  {
    if anchors != [] {
      SumOfEqual(anchors[..|anchors| - 1], frame);
      CountUp(|anchors| - 1, frame);
    }
  }

  lemma Cancel(n: nat, x: real)
    requires n > 0
    ensures Mean(n as real * x, n) == x
  {
  }

  /** A fit is refused only for too few anchors, or for anchors that all sit at one index. */
  lemma FitExistsIff(anchors: seq<Anchor>)
    ensures FitOf(anchors).Some? <==> |anchors| >= MIN_ANCHORS && !AllAt(anchors, anchors[0].frame)
  {
    if |anchors| >= MIN_ANCHORS {
      var fm, hm := Mean(SumFrames(anchors), |anchors|), Mean(SumHosts(anchors), |anchors|);
      SpreadIsZero(anchors, fm, hm);
      assert AllAt(anchors, fm) ==> fm == anchors[0].frame;
      if AllAt(anchors, anchors[0].frame) {
        SumOfEqual(anchors, anchors[0].frame);
        Cancel(|anchors|, anchors[0].frame);
      }
    }
  }

  // ----- both directions of the map ------------------------------------------------------------------

  // Rounding to the nearest integer, halves away from zero.
  function LlRound(x: real): (n: int)
    ensures x - 0.5 <= n as real <= x + 0.5
  {
    if x >= 0.0 then (x + 0.5).Floor else -((-x + 0.5).Floor)
  }

  lemma RoundExact(n: int)
    ensures LlRound(n as real) == n
  {
  }

  // Both maps along a fitted line, evaluated around its means.
  function HostAt(l: Line, frame: real): real {
    l.hostMean + l.slope * (frame - l.frameMean)
  }

  function FrameAt(l: Line, host: real): real
    requires l.slope > 0.0
  {
    l.frameMean + (host - l.hostMean) / l.slope
  }

  function HostNsForFrame(anchors: seq<Anchor>, frame: real): Option<int> {
    match FitOf(anchors)
    case None => None
    case Some(l) => Some(LlRound(HostAt(l, frame)))
  }

  function FrameForHostNs(anchors: seq<Anchor>, host: int): Option<real> {
    match FitOf(anchors)
    case None => None
    case Some(l) => if l.slope <= 0.0 then None else Some(FrameAt(l, host as real))
  }

  function MeasuredRateHz(anchors: seq<Anchor>): Option<real> {
    match FitOf(anchors)
    case None => None
    case Some(l) => if l.slope <= 0.0 then None else Some(1000000000.0 / l.slope)
  }

  /** The measured rate is samples per second along the fitted line. */
  lemma RateMatchesSlope(anchors: seq<Anchor>, l: Line, rate: real)
    requires FitOf(anchors) == Some(l) && MeasuredRateHz(anchors) == Some(rate)
    ensures rate * l.slope == 1000000000.0
  {
    hide FitOf;
    QuotientTimes(1000000000.0, l.slope);
  }

  lemma HostOfFrame(l: Line, host: real)
    requires l.slope > 0.0
    ensures HostAt(l, FrameAt(l, host)) == host
  {
    var d := (host - l.hostMean) / l.slope;
    QuotientTimes(host - l.hostMean, l.slope);
    assert FrameAt(l, host) - l.frameMean == d;
    assert l.slope * d == d * l.slope;
  }

  lemma HostDifference(l: Line, a: real, b: real)
    ensures HostAt(l, b) - HostAt(l, a) == l.slope * (b - a)
  {
    assert l.slope * (b - l.frameMean) - l.slope * (a - l.frameMean) == l.slope * (b - a);
  }

  lemma HostOnLine(l: Line, frame: real)
    requires Above(0.0, l.slope, l.intercept, l.frameMean, l.hostMean)
    ensures HostAt(l, frame) == l.intercept + l.slope * frame
  {
    assert l.slope * (frame - l.frameMean) == l.slope * frame - l.slope * l.frameMean;
  }

  /** Evaluating around the means is evaluating the fitted line, up to half a nanosecond. */
  lemma HostIsOnTheLine(anchors: seq<Anchor>, l: Line, frame: real, host: int)
    requires FitOf(anchors) == Some(l) && HostNsForFrame(anchors, frame) == Some(host)
    ensures -0.5 <= host as real - (l.intercept + l.slope * frame) <= 0.5
  {
    hide FitOf, HostAt;
    NormalEquations(anchors, l);
    BestHeight(l, MomentsOf(anchors, l.frameMean, l.hostMean));
    HostOnLine(l, frame);
  }

  /** Time to index to time is the identity. */
  lemma HostFrameHost(anchors: seq<Anchor>, host: int)
    requires FrameForHostNs(anchors, host).Some?
    ensures HostNsForFrame(anchors, FrameForHostNs(anchors, host).value) == Some(host)
  {
    HostOfFrame(FitOf(anchors).value, host as real);
    RoundExact(host);
  }

  /** Index to time to index is off by no more than the half nanosecond that rounding may add. */
  lemma FrameHostFrame(anchors: seq<Anchor>, l: Line, frame: real, host: int, back: real)
    requires FitOf(anchors) == Some(l)
    requires HostNsForFrame(anchors, frame) == Some(host) && FrameForHostNs(anchors, host) == Some(back)
    ensures -0.5 <= l.slope * (back - frame) <= 0.5
  {
    hide FitOf, FrameAt, HostAt;
    HostOfFrame(l, host as real);
    HostDifference(l, frame, back);
  }

  /** Later host times never map to earlier samples. */
  lemma FramesKeepOrder(anchors: seq<Anchor>, early: int, late: int)
    requires early <= late
    ensures FrameForHostNs(anchors, early).Some? == FrameForHostNs(anchors, late).Some?
    ensures FrameForHostNs(anchors, early).Some?
            ==> FrameForHostNs(anchors, early).value <= FrameForHostNs(anchors, late).value
  {
    if FrameForHostNs(anchors, early).Some? {
      var l := FitOf(anchors).value;
      var a, b := FrameAt(l, early as real), FrameAt(l, late as real);
      HostOfFrame(l, early as real);
      HostOfFrame(l, late as real);
      HostDifference(l, a, b);
      NonNegativeFactor(b - a, l.slope);
    }
  }

  // ----- the object --------------------------------------------------------------------------------

  function Latest(history: seq<Anchor>, window: nat): seq<Anchor> {
    if |history| <= window then history else history[|history| - window..]
  }

  lemma LatestIs(history: seq<Anchor>, window: nat)
    ensures var n := if |history| < window then |history| else window;
            |Latest(history, window)| == n && Latest(history, window) == history[|history| - n..]
  {
  }

  lemma LatestGrows(history: seq<Anchor>, a: Anchor, window: nat)
    ensures |Latest(history, window)| <= window
    ensures var more := Latest(history, window) + [a];
            more == Latest(history + [a], if |more| > window then |more| else window)
  {
  }

  lemma LatestDrops(history: seq<Anchor>, n: nat)
    requires 0 < n == |Latest(history, n)|
    ensures |Latest(history, n - 1)| == n - 1 && Latest(history, n)[1..] == Latest(history, n - 1)
  {
  }

  class CaptureTimebase {
    const window: nat
    var anchors: seq<Anchor>
    ghost var history: seq<Anchor>

    ghost predicate Valid()
      reads this
    {
      window >= MIN_ANCHORS && anchors == Latest(history, window)
    }

    constructor (requested: nat)
      ensures Valid() && history == []
      ensures window == if requested < MIN_ANCHORS then MIN_ANCHORS else requested
    {
      window := if requested < MIN_ANCHORS then MIN_ANCHORS else requested;
      anchors, history := [], [];
    }

    method AddAnchor(frame: nat, host: int)
      requires Valid()
      modifies this
      ensures Valid() && history == old(history) + [Anchor(frame as real, host as real)]
      ensures |anchors| == (if |history| < window then |history| else window)
      ensures anchors == history[|history| - |anchors|..]
    {
      hide Latest;
      var a := Anchor(frame as real, host as real);
      LatestGrows(history, a, window);
      history := history + [a];
      anchors := anchors + [a];
      while |anchors| > window
        invariant anchors == Latest(history, if |anchors| > window then |anchors| else window)
        invariant history == old(history) + [a]
        decreases |anchors|
      {
        LatestDrops(history, |anchors|);
        anchors := anchors[1..];
      }
      LatestIs(history, window);
    }

    method Fit() returns (r: Option<Line>)
      ensures r == FitOf(anchors)
    {
      if |anchors| < MIN_ANCHORS { return None; }
      var fm, hm := FindMeans();
      var sxx, sxy := FindSpreads(fm, hm);
      r := LineOf(fm, hm, sxx, sxy);
    }

    // The first loop.
    method FindMeans() returns (fm: real, hm: real)
      requires anchors != []
      ensures fm == Mean(SumFrames(anchors), |anchors|) && hm == Mean(SumHosts(anchors), |anchors|)
    {
      fm, hm := 0.0, 0.0;
      for i := 0 to |anchors|
        invariant fm == SumFrames(anchors[..i]) && hm == SumHosts(anchors[..i])
      {
        assert anchors[..i + 1][..i] == anchors[..i];
        fm, hm := fm + anchors[i].frame, hm + anchors[i].host;
      }
      assert anchors[..|anchors|] == anchors;
      fm, hm := Mean(fm, |anchors|), Mean(hm, |anchors|);
    }

    // The second loop.
    method FindSpreads(fm: real, hm: real) returns (sxx: real, sxy: real)
      ensures sxx == MomentsOf(anchors, fm, hm).sxx && sxy == MomentsOf(anchors, fm, hm).sxy
    {
      sxy, sxx := 0.0, 0.0;
      for i := 0 to |anchors|
        invariant sxx == MomentsOf(anchors[..i], fm, hm).sxx && sxy == MomentsOf(anchors[..i], fm, hm).sxy
      {
        MomentsSnoc(anchors, i, fm, hm);
        var one := Single(anchors[i].frame - fm, anchors[i].host - hm);
        sxy := sxy + one.sxy;
        sxx := sxx + one.sxx;
      }
      assert anchors[..|anchors|] == anchors;
    }
  }

  lemma MomentsSnoc(anchors: seq<Anchor>, i: nat, fm: real, hm: real)
    requires i < |anchors|
    ensures MomentsOf(anchors[..i + 1], fm, hm)
         == Join(MomentsOf(anchors[..i], fm, hm), Single(anchors[i].frame - fm, anchors[i].host - hm))
  {
    assert anchors[..i + 1][..i] == anchors[..i];
  }
}
