/**
 The matched filter: src/audio/correlator.cpp. Normalised correlations are kept squared; the order of
 squares is the order of absolute values. The square root, which only the sub-sample fit needs, is a
 parameter. Samples are reals and the guard band is given in samples.
 */
module Correlator {
  import opened RealArithmetic
  import opened Vectors

  datatype Config = Config(minPeak: real, minPsr: real, guard: int, root: real -> real)

  // peak2 and psr2 are the squares of the fields they stand for; the burst lies at lag + offset.
  datatype Detection = Detection(found: bool, lag: nat, offset: real, peak2: real, psr2: real)

  const NOTHING := Detection(false, 0, 0.0, 0.0, 0.0)

  ghost predicate IsRoot(root: real -> real) {
    forall x :: x >= 0.0 ==> root(x) >= 0.0 && Square(root(x)) == x
  }

  // ----- the reference -----------------------------------------------------------------------------

  function Window(haystack: seq<real>, lag: nat, n: nat): seq<real>
    requires lag + n <= |haystack|
  {
    haystack[lag..lag + n]
  }

  // The square of acc / (needle norm * window norm), zero when the window is silent.
  function Normalised(acc: real, needleEnergy: real, windowEnergy: real): real {
    if Product(needleEnergy, windowEnergy) > 0.0 then Square(acc) / Product(needleEnergy, windowEnergy) else 0.0
  }

  // The normalised correlation at one lag, every sum taken afresh.
  function Direct(haystack: seq<real>, needle: seq<real>, lag: nat): real
    requires lag + |needle| <= |haystack|
  {
    var w := Window(haystack, lag, |needle|);
    Normalised(Dot(w, needle), Dot(needle, needle), Dot(w, w))
  }

  function DirectUpTo(haystack: seq<real>, needle: seq<real>, lags: nat): (c: seq<real>)
    requires lags > 0 ==> lags + |needle| <= |haystack| + 1
    ensures |c| == lags
  {
    seq(lags, lag requires 0 <= lag < lags => Direct(haystack, needle, lag))
  }

  // The first place of the largest value.
  function FirstMax(c: seq<real>): (k: nat)
    requires c != []
    ensures k < |c|
  {
    var n := |c| - 1;
    if n == 0 then 0
    else
      var before := FirstMax(c[..n]);
      if c[before] < c[n] then n else before
  }

  function Near(i: int, peak: int, guard: int): bool {
    (if i < peak then peak - i else i - peak) <= guard
  }

  // The largest value outside the guard band, at least zero.
  function Sidelobe(c: seq<real>, peak: nat, guard: int): real {
    if c == [] then 0.0
    else
      var n := |c| - 1;
      var before := Sidelobe(c[..n], peak, guard);
      if !Near(n, peak, guard) && c[n] > before then c[n] else before
  }

  // The square of the ratio; 999 when there is no sidelobe to speak of.
  function Ratio(peak2: real, sidelobe2: real): real {
    if sidelobe2 > TINY then peak2 / sidelobe2 else if peak2 > 0.0 then 998001.0 else 0.0
  }

  const TINY := 0.000000000000000000000001

  const FLAT := 0.000000000001

  // Where the parabola through three values a sample apart has its vertex, unless it is flat or the fit is bad.
  function Vertex(y0: real, y1: real, y2: real): real {
    var denom := y0 - 2.0 * y1 + y2;
    if -FLAT <= denom <= FLAT then 0.0
    else
      var offset := 0.5 * (y0 - y2) / denom;
      if offset < -1.0 || offset > 1.0 then 0.0 else offset
  }

  function Offset(root: real -> real, c: seq<real>, peak: nat): real
    requires peak < |c|
  {
    if 0 < peak && peak + 1 < |c| then Vertex(root(c[peak - 1]), root(c[peak]), root(c[peak + 1])) else 0.0
  }

  // Whether the root of a square reaches a bound.
  predicate Reaches(square: real, bound: real) {
    bound <= 0.0 || square >= bound * bound
  }

  function Judge(c: seq<real>, cfg: Config): Detection
    requires c != []
  {
    var lag := FirstMax(c);
    var psr2 := Ratio(c[lag], Sidelobe(c, lag, cfg.guard));
    Detection(Reaches(c[lag], cfg.minPeak) && Reaches(psr2, cfg.minPsr), lag, Offset(cfg.root, c, lag), c[lag], psr2)
  }

  predicate Searchable(haystack: seq<real>, needle: seq<real>) {
    needle != [] && |haystack| >= |needle| && Dot(needle, needle) > 0.0
  }

  function Correlations(haystack: seq<real>, needle: seq<real>): (c: seq<real>)
    requires Searchable(haystack, needle)
    ensures |c| == |haystack| - |needle| + 1
  {
    DirectUpTo(haystack, needle, |haystack| - |needle| + 1)
  }

  function Detect(haystack: seq<real>, needle: seq<real>, cfg: Config): Detection {
    if !Searchable(haystack, needle) then NOTHING else Judge(Correlations(haystack, needle), cfg)
  }

  // ----- the search -----------------------------------------------------------------------------------

  method Energy(samples: seq<real>) returns (e: real)
    ensures e == Dot(samples, samples)
  {
    e := 0.0;
    for i := 0 to |samples|
      invariant e == Dot(samples[..i], samples[..i])
    {
      DotSnoc(samples, samples, i);
      e := e + Product(samples[i], samples[i]);
    }
    assert samples[..|samples|] == samples;
  }

  method Correlate(window: seq<real>, needle: seq<real>) returns (acc: real)
    requires |window| == |needle|
    ensures acc == Dot(window, needle)
  {
    acc := 0.0;
    for i := 0 to |needle|
      invariant acc == Dot(window[..i], needle[..i])
    {
      DotSnoc(window, needle, i);
      acc := acc + Product(window[i], needle[i]);
    }
    assert window[..|window|] == window && needle[..|needle|] == needle;
  }

  lemma {:induction false} DotDropsFirst(x: seq<real>, y: seq<real>)
    requires |x| == |y| && x != []
    ensures Dot(x[1..], y[1..]) == Dot(x, y) - Product(x[0], y[0])
    decreases |x|
  {
    hide Product;
    var n := |x| - 1;
    if n > 0 {
      DotDropsFirst(x[..n], y[..n]);
      assert x[1..][..n - 1] == x[..n][1..] && y[1..][..n - 1] == y[..n][1..];
    } else {
      assert x[..0] == [] && y[..0] == [] && x[1..] == [] && y[1..] == [];
    }
  }

  // One sample in, one sample out.
  lemma EnergySlides(haystack: seq<real>, lag: nat, n: nat)
    requires 0 < n && lag + n < |haystack|
    ensures var w, w' := Window(haystack, lag, n), Window(haystack, lag + 1, n);
            Dot(w', w') == Dot(w, w) + Product(haystack[lag + n], haystack[lag + n]) - Product(haystack[lag], haystack[lag])
  {
    hide Product, Dot;
    var both := haystack[lag..lag + n + 1];
    UnfoldDot(both, both);
    DotDropsFirst(both, both);
    assert both[..n] == Window(haystack, lag, n);
    assert both[1..] == Window(haystack, lag + 1, n);
  }

  /** The running energy is the direct sum at every lag, so the guard against drift never fires. */
  method Slide(haystack: seq<real>, lag: nat, n: nat, windowEnergy: real) returns (e: real)
    requires 0 < n && lag + n <= |haystack|
    requires windowEnergy == Dot(Window(haystack, lag, n), Window(haystack, lag, n))
    ensures lag + n < |haystack| ==> e == Dot(Window(haystack, lag + 1, n), Window(haystack, lag + 1, n))
  {
    e := windowEnergy;
    if lag + n < |haystack| {
      EnergySlides(haystack, lag, n);
      EnergySign(Window(haystack, lag + 1, n));
      e := e + Product(haystack[lag + n], haystack[lag + n]) - Product(haystack[lag], haystack[lag]);
      if e < 0.0 { e := 0.0; }
    }
  }

  method FindCorrelations(haystack: seq<real>, needle: seq<real>) returns (c: seq<real>)
    requires Searchable(haystack, needle)
    ensures c == Correlations(haystack, needle)
  {
    var n := |needle|;
    var needleEnergy := Energy(needle);
    var windowEnergy := Energy(haystack[..n]);
    c := [];
    for lag := 0 to |haystack| - n + 1
      invariant c == DirectUpTo(haystack, needle, lag)
      invariant lag + n <= |haystack| ==> windowEnergy == Dot(Window(haystack, lag, n), Window(haystack, lag, n))
    {
      var acc := Correlate(haystack[lag..lag + n], needle);
      c := c + [Normalised(acc, needleEnergy, windowEnergy)];
      windowEnergy := Slide(haystack, lag, n, windowEnergy);
    }
  }

  method FindFirstMax(c: seq<real>) returns (k: nat)
    requires c != []
    ensures k == FirstMax(c)
  {
    k := 0;
    for i := 1 to |c|
      invariant k < i && k == FirstMax(c[..i])
    {
      assert c[..i + 1][..i] == c[..i];
      if c[k] < c[i] { k := i; }
    }
    assert c[..|c|] == c;
  }

  method FindSidelobe(c: seq<real>, peak: nat, guard: int) returns (s: real)
    ensures s == Sidelobe(c, peak, guard)
  {
    s := 0.0;
    for i := 0 to |c|
      invariant s == Sidelobe(c[..i], peak, guard)
    {
      assert c[..i + 1][..i] == c[..i];
      if Near(i, peak, guard) { continue; }
      if c[i] > s { s := c[i]; }
    }
    assert c[..|c|] == c;
  }

  method Interpolate(root: real -> real, c: seq<real>, peak: nat) returns (offset: real)
    requires peak < |c|
    ensures offset == Offset(root, c, peak)
  {
    offset := 0.0;
    if peak > 0 && peak + 1 < |c| {
      var y0, y1, y2 := root(c[peak - 1]), root(c[peak]), root(c[peak + 1]);
      var denom := y0 - 2.0 * y1 + y2;
      if denom > FLAT || denom < -FLAT {
        offset := 0.5 * (y0 - y2) / denom;
        if offset < -1.0 || offset > 1.0 { offset := 0.0; }
      }
    }
  }

  /** The fast search finds what the direct definition says. */
  method FindBurst(haystack: seq<real>, needle: seq<real>, cfg: Config) returns (d: Detection)
    ensures d == Detect(haystack, needle, cfg)
  {
    if |needle| == 0 || |haystack| < |needle| { return NOTHING; }
    var needleEnergy := Energy(needle);
    if needleEnergy <= 0.0 { return NOTHING; }
    var c := FindCorrelations(haystack, needle);
    var lag := FindFirstMax(c);
    var sidelobe2 := FindSidelobe(c, lag, cfg.guard);
    var psr2 := Ratio(c[lag], sidelobe2);
    var offset := Interpolate(cfg.root, c, lag);
    d := Detection(Reaches(c[lag], cfg.minPeak) && Reaches(psr2, cfg.minPsr), lag, offset, c[lag], psr2);
  }

  // ----- what the reference means -----------------------------------------------------------------------

  lemma {:induction false} FirstMaxMeans(c: seq<real>)
    requires c != []
    ensures forall k :: 0 <= k < |c| ==> c[k] <= c[FirstMax(c)]
    ensures forall k :: 0 <= k < FirstMax(c) ==> c[k] < c[FirstMax(c)]
    decreases |c|
  {
    var n := |c| - 1;
    if n > 0 {
      FirstMaxMeans(c[..n]);
      var before := FirstMax(c[..n]);
      forall k | 0 <= k < n ensures c[k] <= c[before] && (k < before ==> c[k] < c[before]) {
        assert c[k] == c[..n][k];
      }
    }
  }

  lemma {:induction false} SidelobeMeans(c: seq<real>, peak: nat, guard: int)
    ensures Sidelobe(c, peak, guard) >= 0.0
    ensures forall k :: 0 <= k < |c| && !(peak - guard <= k <= peak + guard) ==> c[k] <= Sidelobe(c, peak, guard)
    ensures Sidelobe(c, peak, guard) > 0.0 ==>
              exists k :: 0 <= k < |c| && !(peak - guard <= k <= peak + guard) && c[k] == Sidelobe(c, peak, guard)
    decreases |c|
  {
    if c != [] {
      var n := |c| - 1;
      SidelobeMeans(c[..n], peak, guard);
      forall k | 0 <= k < |c| && !(peak - guard <= k <= peak + guard) ensures c[k] <= Sidelobe(c, peak, guard) {
        if k < n { assert c[k] == c[..n][k]; }
      }
    }
  }

  lemma NormalisedBounds(acc: real, e: real, w: real)
    requires e > 0.0 && w >= 0.0 && Square(acc) <= Product(w, e)
    ensures 0.0 <= Normalised(acc, e, w) <= 1.0
    ensures Normalised(acc, e, w) == 1.0 <==> w > 0.0 && Square(acc) == Product(w, e)
  {
    SquareSign(acc);
    if w > 0.0 {
      Positive(e, w);
      ProductCommutes(e, w);
      QuotientBounds(Square(acc), Product(e, w));
    } else {
      assert Product(e, w) == 0.0;
    }
  }

  lemma QuotientBounds(a: real, b: real)
    requires b > 0.0 && 0.0 <= a <= b
    ensures 0.0 <= a / b <= 1.0
    ensures a / b == 1.0 <==> a == b
  {
    var q := a / b;
    QuotientTimes(a, b);
    NonNegativeFactor(q, b);
    assert b * (1.0 - q) == b - a;
    NonNegativeFactor(1.0 - q, b);
  }

  /** Every normalised value lies in [0, 1], and is 1 exactly where the window is a nonzero multiple of the burst. */
  lemma DirectBounds(haystack: seq<real>, needle: seq<real>, lag: nat)
    requires lag + |needle| <= |haystack| && Dot(needle, needle) > 0.0
    ensures 0.0 <= Direct(haystack, needle, lag) <= 1.0
    ensures Direct(haystack, needle, lag) == 1.0 <==> IsMultiple(Window(haystack, lag, |needle|), needle)
  {
    hide Dot, IsMultiple, Normalised, Product, Square;
    var w := Window(haystack, lag, |needle|);
    EnergySign(w);
    CauchySchwarz(w, needle);
    FullMeansMultiple(w, needle);
    NormalisedBounds(Dot(w, needle), Dot(needle, needle), Dot(w, w));
  }

  lemma NormalisedIs(acc: real, e: real, w: real)
    requires e > 0.0 && w >= 0.0
    ensures if w == 0.0 then Normalised(acc, e, w) == 0.0 else Product(Normalised(acc, e, w), Product(e, w)) == Square(acc)
  {
    if w > 0.0 {
      Positive(e, w);
      QuotientTimes(Square(acc), Product(e, w));
    } else {
      assert Product(e, w) == 0.0;
    }
  }

  /** A normalised value times both energies is the squared correlation; a silent window counts as zero. */
  lemma DirectIs(haystack: seq<real>, needle: seq<real>, lag: nat)
    requires lag + |needle| <= |haystack| && Dot(needle, needle) > 0.0
    ensures var w := haystack[lag..lag + |needle|];
            if Dot(w, w) == 0.0 then Direct(haystack, needle, lag) == 0.0
            else Product(Direct(haystack, needle, lag), Product(Dot(needle, needle), Dot(w, w))) == Square(Dot(w, needle))
  {
    hide Dot, Normalised, Product, Square;
    var w := Window(haystack, lag, |needle|);
    EnergySign(w);
    NormalisedIs(Dot(w, needle), Dot(needle, needle), Dot(w, w));
  }

  /** The values reported with a lag: the correlation there, and its ratio to the largest outside the guard band. */
  lemma ReportedValues(haystack: seq<real>, needle: seq<real>, cfg: Config)
    requires Searchable(haystack, needle)
    ensures var d := Detect(haystack, needle, cfg);
            var sidelobe2 := Sidelobe(Correlations(haystack, needle), d.lag, cfg.guard);
            && d.lag + |needle| <= |haystack| && d.peak2 == Direct(haystack, needle, d.lag)
            && (sidelobe2 > TINY ==> Product(d.psr2, sidelobe2) == d.peak2)
            && (sidelobe2 <= TINY ==> d.psr2 == if d.peak2 > 0.0 then 998001.0 else 0.0)
  {
    hide Direct, Offset, Sidelobe, FirstMax, Product;
    var d := Detect(haystack, needle, cfg);
    var sidelobe2 := Sidelobe(Correlations(haystack, needle), d.lag, cfg.guard);
    if sidelobe2 > TINY { QuotientTimes(d.peak2, sidelobe2); ProductIs(d.psr2, sidelobe2); }
  }

  lemma ProductIs(x: real, y: real)
    ensures Product(x, y) == x * y
  {
  }

  ghost predicate MultipleAt(haystack: seq<real>, needle: seq<real>, lag: nat) {
    lag + |needle| <= |haystack| && IsMultiple(Window(haystack, lag, |needle|), needle)
  }

  /**
   If the burst is in the audio undistorted, at any gain and either polarity, the search reports the
   first place where it is, at full correlation; and it reports full correlation nowhere else.
   */
  lemma FindsTheBurst(haystack: seq<real>, needle: seq<real>, cfg: Config)
    requires Searchable(haystack, needle)
    ensures var d := Detect(haystack, needle, cfg);
            && 0.0 <= d.peak2 <= 1.0
            && (d.peak2 == 1.0 <==> MultipleAt(haystack, needle, d.lag))
            && (d.peak2 == 1.0 ==> forall k :: 0 <= k < d.lag ==> !MultipleAt(haystack, needle, k))
            && (d.peak2 != 1.0 ==> forall k :: 0 <= k ==> !MultipleAt(haystack, needle, k))
  {
    hide Dot, IsMultiple, Direct;
    var c := Correlations(haystack, needle);
    forall k | 0 <= k < |c|
      ensures 0.0 <= c[k] <= 1.0 && (c[k] == 1.0 <==> MultipleAt(haystack, needle, k))
    {
      DirectBounds(haystack, needle, k);
    }
    FirstMaxMeans(c);
  }

  lemma RatioReaches(peak2: real, sidelobe2: real, value: real, bound: real)
    requires value <= sidelobe2 && bound > 0.0 && Reaches(Ratio(peak2, sidelobe2), bound)
    ensures value <= TINY || Product(Square(bound), value) <= peak2
  {
    if sidelobe2 > TINY {
      var q := peak2 / sidelobe2;
      QuotientTimes(peak2, sidelobe2);
      var b2 := Square(bound);
      SquareSign(bound);
      assert (q - b2) * sidelobe2 >= 0.0;
      assert b2 * (sidelobe2 - value) >= 0.0;
    }
  }

  lemma FoundReaches(haystack: seq<real>, needle: seq<real>, cfg: Config)
    requires Detect(haystack, needle, cfg).found
    ensures Searchable(haystack, needle) && Reaches(Detect(haystack, needle, cfg).peak2, cfg.minPeak)
  {
  }

  /** A burst is only reported when it towers over every lag outside its own guard band. */
  lemma FoundStandsOut(haystack: seq<real>, needle: seq<real>, cfg: Config, lag: nat)
    requires Searchable(haystack, needle) && cfg.minPsr > 0.0
    requires Detect(haystack, needle, cfg).found
    requires Outside(haystack, needle, Detect(haystack, needle, cfg).lag, cfg.guard, lag)
    ensures var other := Direct(haystack, needle, lag);
            other <= TINY || Product(Square(cfg.minPsr), other) <= Detect(haystack, needle, cfg).peak2
    ensures Reaches(Detect(haystack, needle, cfg).peak2, cfg.minPeak)
  {
    hide Dot, Direct, Reaches, Ratio, Product, Square, Sidelobe, FirstMax;
    var c := Correlations(haystack, needle);
    SidelobeMeans(c, FirstMax(c), cfg.guard);
    RatioReaches(c[FirstMax(c)], Sidelobe(c, FirstMax(c), cfg.guard), c[lag], cfg.minPsr);
  }

  lemma SearchableIff(haystack: seq<real>, needle: seq<real>)
    ensures Searchable(haystack, needle) <==>
      |needle| <= |haystack| && exists i :: 0 <= i < |needle| && needle[i] != 0.0
  {
    EnergySign(needle);
  }

  // The lag is one at which the burst must stand out from what correlates there.
  ghost predicate Outside(haystack: seq<real>, needle: seq<real>, peak: nat, guard: int, lag: nat) {
    lag + |needle| <= |haystack| && (lag < peak - guard || lag > peak + guard)
  }

  lemma RatioIff(peak2: real, sidelobe2: real, bound: real)
    requires bound > 0.0 && peak2 > 0.0 && sidelobe2 >= 0.0
    ensures Reaches(Ratio(peak2, sidelobe2), bound) <==>
      if sidelobe2 > TINY then Product(Square(bound), sidelobe2) <= peak2 else Square(bound) <= 998001.0
  {
    if sidelobe2 > TINY {
      var q := peak2 / sidelobe2;
      QuotientTimes(peak2, sidelobe2);
      ProductCommutes(q, sidelobe2);
      ProductCommutes(Square(bound), sidelobe2);
      ProductOrder(sidelobe2, Square(bound), q);
    }
  }

  lemma SidelobeIs(haystack: seq<real>, needle: seq<real>, peak: nat, guard: int, b2: real, peak2: real)
    requires Searchable(haystack, needle) && b2 > 0.0
    ensures var s := Sidelobe(Correlations(haystack, needle), peak, guard);
            && s >= 0.0
            && (s > TINY <==> exists lag :: Outside(haystack, needle, peak, guard, lag) && Direct(haystack, needle, lag) > TINY)
            && (s > TINY ==> (Product(b2, s) <= peak2 <==>
                  forall lag :: Outside(haystack, needle, peak, guard, lag) ==>
                    Product(b2, Direct(haystack, needle, lag)) <= peak2))
  {
    hide Direct, Near, Product, Searchable, Sidelobe;
    var c := Correlations(haystack, needle);
    var s := Sidelobe(c, peak, guard);
    SidelobeMeans(c, peak, guard);
    forall lag: nat | Outside(haystack, needle, peak, guard, lag) ensures Direct(haystack, needle, lag) <= s {
      assert c[lag] == Direct(haystack, needle, lag);
    }
    if s > TINY {
      var k :| 0 <= k < |c| && !(peak - guard <= k <= peak + guard) && c[k] == s;
      assert Outside(haystack, needle, peak, guard, k) && Direct(haystack, needle, k) == s;
      forall lag: nat | Outside(haystack, needle, peak, guard, lag)
        ensures Product(b2, Direct(haystack, needle, lag)) <= Product(b2, s)
      {
        ProductOrder(b2, Direct(haystack, needle, lag), s);
      }
    }
  }

  /**
   Exactly when a burst is reported: there is something to search for, the peak reaches its bound, and it beats every
   lag outside its guard band by the required ratio - or nothing correlates there at all, which counts as 999.
   */
  lemma FoundIff(haystack: seq<real>, needle: seq<real>, cfg: Config)
    requires cfg.minPeak > 0.0 && cfg.minPsr > 0.0
    ensures var d := Detect(haystack, needle, cfg);
            d.found <==>
              && Searchable(haystack, needle) && d.peak2 >= Square(cfg.minPeak)
              && if exists lag :: Outside(haystack, needle, d.lag, cfg.guard, lag) && Direct(haystack, needle, lag) > TINY
                 then forall lag :: Outside(haystack, needle, d.lag, cfg.guard, lag) ==>
                   Product(Square(cfg.minPsr), Direct(haystack, needle, lag)) <= d.peak2
                 else Square(cfg.minPsr) <= 998001.0
  {
    hide Direct, Outside, Ratio, Sidelobe, FirstMax, Offset;
    if Searchable(haystack, needle) {
      var c := Correlations(haystack, needle);
      var k := FirstMax(c);
      SquareSign(cfg.minPeak);
      SquareSign(cfg.minPsr);
      SidelobeIs(haystack, needle, k, cfg.guard, Square(cfg.minPsr), c[k]);
      if c[k] >= Square(cfg.minPeak) { RatioIff(c[k], Sidelobe(c, k, cfg.guard), cfg.minPsr); }
    }
  }

  // ----- the sub-sample fit -------------------------------------------------------------------------------

  lemma QuotientIn(a: real, b: real, low: real, high: real)
    requires b < 0.0 && Product(high, b) <= a <= Product(low, b)
    ensures low <= a / b <= high
  {
    var q := a / b;
    QuotientTimes(a, b);
    assert q < low ==> (q - low) * b > 0.0;
    assert q > high ==> (q - high) * b < 0.0;
  }

  /** At a peak the fit is never rejected: the vertex lies within half a sample of it. */
  lemma VertexNearPeak(y0: real, y1: real, y2: real)
    requires y0 <= y1 && y2 <= y1
    ensures -0.5 <= Vertex(y0, y1, y2) <= 0.5
    ensures var denom := y0 - 2.0 * y1 + y2;
            Vertex(y0, y1, y2) == if denom >= -FLAT then 0.0 else 0.5 * (y0 - y2) / denom
  {
    var denom := y0 - 2.0 * y1 + y2;
    if denom < -FLAT {
      QuotientIn(0.5 * (y0 - y2), denom, -0.5, 0.5);
    }
  }

  /** Three values of a parabola that opens downwards give back its vertex exactly. */
  lemma VertexIsExact(a: real, v: real, h: real)
    requires 2.0 * a < -FLAT && -1.0 <= v <= 1.0
    ensures Vertex(Parabola(a, v, h, -1.0), Parabola(a, v, h, 0.0), Parabola(a, v, h, 1.0)) == v
  {
    hide Product, Square;
    var y0, y1, y2 := Parabola(a, v, h, -1.0), Parabola(a, v, h, 0.0), Parabola(a, v, h, 1.0);
    ParabolaAt(a, v, h, -1.0);
    ParabolaAt(a, v, h, 0.0);
    ParabolaAt(a, v, h, 1.0);
    Twice(a, v);
    QuotientIs(0.5 * (y0 - y2), 2.0 * a, v);
  }

  function Parabola(a: real, v: real, h: real, x: real): real {
    Product(a, Square(x - v)) + h
  }

  lemma ParabolaAt(a: real, v: real, h: real, x: real)
    requires x == -1.0 || x == 0.0 || x == 1.0
    ensures Parabola(a, v, h, x) == a * (if x == 0.0 then 0.0 else 1.0) - 2.0 * x * Product(a, v) + Parabola(a, v, h, 0.0)
  {
    assert Square(0.0 - v) == v * v;
    if x == 1.0 {
      assert Square(x - v) == 1.0 - 2.0 * v + v * v;
      ProductSpreads(a, 1.0, v, v * v);
    } else if x == -1.0 {
      assert Square(x - v) == 1.0 + 2.0 * v + v * v;
      ProductSpreads(a, 1.0, -v, v * v);
    }
  }

  lemma ProductSpreads(a: real, x: real, y: real, z: real)
    ensures Product(a, x - 2.0 * y + z) == a * x - 2.0 * Product(a, y) + Product(a, z)
    ensures Product(a, -y) == -Product(a, y)
  {
  }

  lemma Twice(a: real, v: real)
    ensures Product(v, 2.0 * a) == 2.0 * Product(a, v)
  {
  }

  lemma QuotientSign(a: real, b: real)
    requires b < 0.0
    ensures a / b > 0.0 <==> a < 0.0
    ensures a / b < 0.0 <==> a > 0.0
  {
    var q := a / b;
    QuotientTimes(a, b);
    assert q > 0.0 ==> q * b < 0.0;
    assert q < 0.0 ==> q * b > 0.0;
  }

  /** The vertex lies on the side of the larger neighbour. */
  lemma VertexSide(y0: real, y1: real, y2: real)
    requires y0 <= y1 && y2 <= y1 && y0 - 2.0 * y1 + y2 < -FLAT
    ensures Vertex(y0, y1, y2) > 0.0 <==> y2 > y0
    ensures Vertex(y0, y1, y2) < 0.0 <==> y2 < y0
  {
    VertexNearPeak(y0, y1, y2);
    QuotientSign(0.5 * (y0 - y2), y0 - 2.0 * y1 + y2);
  }

  // The correlation at a lag of the haystack.
  ghost predicate Inner(haystack: seq<real>, needle: seq<real>, lag: nat) {
    0 < lag && lag + 1 + |needle| <= |haystack|
  }

  function RootAt(haystack: seq<real>, needle: seq<real>, root: real -> real, lag: nat): real
    requires lag + |needle| <= |haystack|
  {
    root(Direct(haystack, needle, lag))
  }

  // The three correlations at and around the peak, in order of lag.
  lemma AroundPeak(haystack: seq<real>, needle: seq<real>, cfg: Config)
    requires IsRoot(cfg.root) && Searchable(haystack, needle)
    ensures var k := Detect(haystack, needle, cfg).lag;
            && k + |needle| <= |haystack|
            && (!Inner(haystack, needle, k) ==> Detect(haystack, needle, cfg).offset == 0.0)
            && (Inner(haystack, needle, k) ==>
                  var y0, y1, y2 := RootAt(haystack, needle, cfg.root, k - 1), RootAt(haystack, needle, cfg.root, k),
                                    RootAt(haystack, needle, cfg.root, k + 1);
                  y0 <= y1 && y2 <= y1 && Detect(haystack, needle, cfg).offset == Vertex(y0, y1, y2)
                  && (y0 < y2 <==> Direct(haystack, needle, k - 1) < Direct(haystack, needle, k + 1)))
  {
    hide Direct, Vertex, Dot, IsRoot;
    var c := Correlations(haystack, needle);
    var k := FirstMax(c);
    FirstMaxMeans(c);
    forall i | 0 <= i < |c| ensures 0.0 <= c[i] <= c[k] { DirectBounds(haystack, needle, i); }
    if 0 < k && k + 1 < |c| {
      RootKeepsOrder(cfg.root, c[k - 1], c[k]);
      RootKeepsOrder(cfg.root, c[k + 1], c[k]);
      RootOrder(cfg.root, c[k - 1], c[k + 1]);
    }
  }

  lemma RootOrder(root: real -> real, x: real, y: real)
    requires IsRoot(root) && x >= 0.0 && y >= 0.0
    ensures root(x) < root(y) <==> x < y
  {
    hide Square;
    if x < y {
      RootKeepsOrder(root, x, y);
      assert Square(root(x)) == x && Square(root(y)) == y;
    } else {
      RootKeepsOrder(root, y, x);
    }
  }

  /** The fit moves the reported place towards the lag that correlates better, and only at an inner peak. */
  lemma OffsetSide(haystack: seq<real>, needle: seq<real>, cfg: Config)
    requires IsRoot(cfg.root) && Searchable(haystack, needle)
    ensures var d := Detect(haystack, needle, cfg);
            && d.lag + |needle| <= |haystack|
            && (!Inner(haystack, needle, d.lag) ==> d.offset == 0.0)
            && (Inner(haystack, needle, d.lag) ==>
                  var before, after := Direct(haystack, needle, d.lag - 1), Direct(haystack, needle, d.lag + 1);
                  var curve := RootAt(haystack, needle, cfg.root, d.lag - 1)
                               - 2.0 * RootAt(haystack, needle, cfg.root, d.lag) + RootAt(haystack, needle, cfg.root, d.lag + 1);
                  curve < -FLAT ==> (d.offset > 0.0 <==> after > before) && (d.offset < 0.0 <==> after < before))
  {
    hide Direct, Vertex, Detect, IsRoot;
    AroundPeak(haystack, needle, cfg);
    var k := Detect(haystack, needle, cfg).lag;
    if Inner(haystack, needle, k) {
      var y0, y1, y2 := RootAt(haystack, needle, cfg.root, k - 1), RootAt(haystack, needle, cfg.root, k),
                        RootAt(haystack, needle, cfg.root, k + 1);
      if y0 - 2.0 * y1 + y2 < -FLAT {
        VertexSide(y0, y1, y2);
        DirectSigns(haystack, needle, k - 1);
        DirectSigns(haystack, needle, k + 1);
        RootOrder(cfg.root, Direct(haystack, needle, k + 1), Direct(haystack, needle, k - 1));
      }
    }
  }

  lemma DirectSigns(haystack: seq<real>, needle: seq<real>, lag: nat)
    requires Searchable(haystack, needle) && lag + |needle| <= |haystack|
    ensures Direct(haystack, needle, lag) >= 0.0
  {
    hide Direct;
    DirectBounds(haystack, needle, lag);
  }

  /** Where the correlations around the peak lie on a parabola, the fit finds its vertex: the burst is reported there. */
  lemma OffsetIsExact(haystack: seq<real>, needle: seq<real>, cfg: Config, a: real, v: real, h: real)
    requires IsRoot(cfg.root) && Searchable(haystack, needle) && 2.0 * a < -FLAT && -1.0 <= v <= 1.0
    requires var k := Detect(haystack, needle, cfg).lag;
             && Inner(haystack, needle, k)
             && RootAt(haystack, needle, cfg.root, k - 1) == Parabola(a, v, h, -1.0)
             && RootAt(haystack, needle, cfg.root, k) == Parabola(a, v, h, 0.0)
             && RootAt(haystack, needle, cfg.root, k + 1) == Parabola(a, v, h, 1.0)
    ensures Detect(haystack, needle, cfg).offset == v
  {
    hide Direct, Vertex, Detect, IsRoot, Parabola, RootAt;
    AroundPeak(haystack, needle, cfg);
    VertexIsExact(a, v, h);
  }

  lemma RootKeepsOrder(root: real -> real, x: real, y: real)
    requires IsRoot(root) && 0.0 <= x <= y
    ensures 0.0 <= root(x) <= root(y)
  {
    hide Square;
    if root(x) > root(y) { SquareGrows(root(y), root(x)); }
  }

  lemma SquareGrows(b: real, a: real)
    requires 0.0 <= b < a
    ensures Square(b) < Square(a)
  {
    Positive(a - b, a + b);
    DifferenceOfSquares(a, b);
  }

  lemma DifferenceOfSquares(a: real, b: real)
    ensures Product(a - b, a + b) == Square(a) - Square(b)
  {
  }

  /** The burst is placed within half a sample of the largest correlation. */
  lemma OffsetWithinHalf(haystack: seq<real>, needle: seq<real>, cfg: Config)
    requires IsRoot(cfg.root)
    ensures -0.5 <= Detect(haystack, needle, cfg).offset <= 0.5
  {
    hide Direct, Vertex, Searchable, Inner;
    if Searchable(haystack, needle) {
      AroundPeak(haystack, needle, cfg);
      var k := Detect(haystack, needle, cfg).lag;
      if Inner(haystack, needle, k) {
        InnerLags(haystack, needle, k);
        VertexNearPeak(RootAt(haystack, needle, cfg.root, k - 1), RootAt(haystack, needle, cfg.root, k),
                       RootAt(haystack, needle, cfg.root, k + 1));
      }
    }
  }

  lemma InnerLags(haystack: seq<real>, needle: seq<real>, lag: nat)
    requires Inner(haystack, needle, lag)
    ensures lag > 0 && lag + 1 + |needle| <= |haystack|
  {
  }

  // ----- level does not matter -----------------------------------------------------------------------------

  function Scaled(k: real, x: seq<real>): (y: seq<real>)
    ensures |y| == |x|
  {
    seq(|x|, i requires 0 <= i < |x| => k * x[i])
  }

  lemma NormalisedScaled(k: real, acc: real, e: real, w: real, acc': real, w': real)
    requires k != 0.0 && w >= 0.0 && e > 0.0
    requires acc' == k * acc && w' == k * (k * w)
    ensures Normalised(acc', e, w') == Normalised(acc, e, w)
  {
    SquareSign(k);
    var s := Square(k);
    assert k * (k * w) == s * w;
    assert Square(acc') == s * Square(acc);
    assert Product(e, w') == s * Product(e, w);
    if w > 0.0 {
      Positive(e, w);
      Positive(s, Product(e, w));
      CancelFactor(s, Square(acc), Product(e, w));
    } else {
      assert Product(e, w) == 0.0;
    }
  }

  lemma CancelFactor(s: real, a: real, b: real)
    requires s > 0.0 && b > 0.0
    ensures s * b != 0.0 && (s * a) / (s * b) == a / b
  {
    Positive(s, b);
    var q := a / b;
    QuotientTimes(a, b);
    assert q * (s * b) == s * a;
    QuotientIs(s * a, s * b, q);
  }

  lemma QuotientIs(a: real, b: real, q: real)
    requires b != 0.0 && Product(q, b) == a
    ensures a / b == q
  {
  }

  lemma WindowScaled(haystack: seq<real>, k: real, lag: nat, n: nat)
    requires lag + n <= |haystack|
    ensures ScaledBy(Window(Scaled(k, haystack), lag, n), k, Window(haystack, lag, n))
  {
  }

  lemma DirectScaled(haystack: seq<real>, needle: seq<real>, k: real, lag: nat)
    requires lag + |needle| <= |haystack| && Dot(needle, needle) > 0.0 && k != 0.0
    ensures Direct(Scaled(k, haystack), needle, lag) == Direct(haystack, needle, lag)
  {
    hide Dot, ScaledBy, Normalised;
    var w := Window(haystack, lag, |needle|);
    var w' := Window(Scaled(k, haystack), lag, |needle|);
    WindowScaled(haystack, k, lag, |needle|);
    DotScaled(w', k, w, needle);
    EnergyScaled(w', k, w);
    EnergySign(w);
    NormalisedScaled(k, Dot(w, needle), Dot(needle, needle), Dot(w, w), Dot(w', needle), Dot(w', w'));
  }

  /** Any change of level, inversion included, leaves the whole verdict as it was. */
  lemma LevelDoesNotMatter(haystack: seq<real>, needle: seq<real>, cfg: Config, k: real)
    requires k != 0.0
    ensures Detect(Scaled(k, haystack), needle, cfg) == Detect(haystack, needle, cfg)
  {
    hide Dot, Direct, Scaled;
    if Searchable(haystack, needle) {
      forall lag | 0 <= lag < |haystack| - |needle| + 1
        ensures Direct(Scaled(k, haystack), needle, lag) == Direct(haystack, needle, lag)
      {
        DirectScaled(haystack, needle, k, lag);
      }
      assert Correlations(Scaled(k, haystack), needle) == Correlations(haystack, needle);
    }
  }
}
