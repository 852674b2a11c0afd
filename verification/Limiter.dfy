/**
 The look-ahead peak limiter and the ramped gain: src/audio/limiter.cpp. Samples are reals; the
 one-pole coefficients are parameters.

 The reference is a function of the whole input so far, so the block sizes the input arrives in
 cannot matter. The class reaches it with a monotonic deque and a circular delay line.
 */
module Limiter {
  import Modulo
  import opened RealArithmetic
  import opened SlidingMinimum

  datatype Config = Config(ceiling: real, attack: real, release: real, lookahead: nat)

  ghost predicate Sound(c: Config) {
    c.ceiling > 0.0 && 0.0 <= c.attack < 1.0 && 0.0 <= c.release < 1.0 && c.lookahead >= 1
  }

  // ----- the reference ---------------------------------------------------------------------------

  function Abs(x: real): (a: real)
    ensures a >= 0.0
  {
    if x < 0.0 then -x else x
  }

  function RequiredGain(ceiling: real, size: real): (g: real)
    requires ceiling > 0.0
    ensures 0.0 < g <= 1.0
  {
    if size <= ceiling then 1.0
    else
      QuotientBelowOne(ceiling, size);
      ceiling / size
  }

  lemma QuotientBelowOne(a: real, b: real)
    requires 0.0 < a < b
    ensures 0.0 < a / b < 1.0 && (a / b) * b == a
  {
    var q := a / b;
    assert q * b == a;
    assert q >= 1.0 ==> (q - 1.0) * b >= 0.0;
    assert q <= 0.0 ==> (0.0 - q) * b >= 0.0;
  }

  /** It is the largest gain, up to 1, that brings the sample down to the ceiling. */
  lemma RequiredGainMeans(ceiling: real, size: real)
    requires ceiling > 0.0 && size >= 0.0
    ensures RequiredGain(ceiling, size) * size <= ceiling
    ensures RequiredGain(ceiling, size) == 1.0 || RequiredGain(ceiling, size) * size == ceiling
  {
    if size > ceiling { QuotientBelowOne(ceiling, size); }
  }

  // The gain each input would need on its own.
  function Requirements(ceiling: real, h: seq<real>): (r: seq<real>)
    requires ceiling > 0.0
    ensures |r| == |h|
  {
    seq(|h|, i requires 0 <= i < |h| => RequiredGain(ceiling, Abs(h[i])))
  }

  // The smallest requirement among the last `lookahead` inputs.
  function Target(c: Config, h: seq<real>): real
    requires c.ceiling > 0.0 && c.lookahead >= 1 && h != []
  {
    Least(Window(Requirements(c.ceiling, h), c.lookahead))
  }

  // Down fast, up slowly.
  function Blend(c: Config, gain: real, target: real): real {
    Toward(gain, target, if target < gain then c.attack else c.release)
  }

  // The one-pole step.
  function Toward(current: real, target: real, coeff: real): real {
    target + (current - target) * coeff
  }

  function GainAfter(c: Config, h: seq<real>): real
    requires c.ceiling > 0.0 && c.lookahead >= 1
  {
    if h == [] then 1.0 else Blend(c, GainAfter(c, h[..|h| - 1]), Target(c, h))
  }

  // The sample that leaves the delay line when the newest one enters.
  function Delayed(span: nat, h: seq<real>): real
    requires h != []
  {
    if |h| <= span then 0.0 else h[|h| - 1 - span]
  }

  function Clamp(ceiling: real, x: real): real {
    if x > ceiling then ceiling else if x < -ceiling then -ceiling else x
  }

  function Apply(ceiling: real, x: real, gain: real): real {
    Clamp(ceiling, x * gain)
  }

  function Output(c: Config, h: seq<real>): real
    requires c.ceiling > 0.0 && c.lookahead >= 1 && h != []
  {
    Apply(c.ceiling, Delayed(c.lookahead, h), GainAfter(c, h))
  }

  function EngagedCount(c: Config, h: seq<real>): nat
    requires c.ceiling > 0.0 && c.lookahead >= 1
  {
    if h == [] then 0 else EngagedCount(c, h[..|h| - 1]) + if Target(c, h) < 1.0 then 1 else 0
  }

  // ----- the delay line ----------------------------------------------------------------------------

  // Sample k of the stream sits at place k modulo the length; places not yet reached are silent.
  ghost predicate Line(delay: seq<real>, h: seq<real>) {
    && |delay| >= 1
    && (forall k :: 0 <= k < |h| && |h| <= k + |delay| ==> delay[k % |delay|] == h[k])
    && (forall k :: |h| <= k < |delay| ==> delay[k] == 0.0)
  }

  lemma LineReads(delay: seq<real>, h: seq<real>, x: real)
    requires Line(delay, h)
    ensures delay[|h| % |delay|] == Delayed(|delay|, h + [x])
  {
    var n := |delay|;
    if |h| < n {
      Modulo.Small(|h|, n);
    } else {
      Modulo.Wrap(|h| - n, n);
      assert (h + [x])[|h| - n] == h[|h| - n];
    }
  }

  lemma LineWrites(delay: seq<real>, h: seq<real>, x: real)
    requires Line(delay, h)
    ensures Line(delay[|h| % |delay| := x], h + [x])
  {
    var n := |delay|;
    var next := delay[|h| % n := x];
    var more := h + [x];
    forall k | 0 <= k < |more| && |more| <= k + n ensures next[k % n] == more[k] {
      if k < |h| { Modulo.Distinct(k, |h|, n); }
    }
    forall k | |more| <= k < n ensures next[k] == 0.0 { Modulo.Small(|h|, n); }
  }

  // ----- the class -----------------------------------------------------------------------------------

  class PeakLimiter {
    const config: Config
    var gain: real
    var delay: array<real>
    var write: nat
    var mins: Deque
    var index: nat
    var engaged: nat
    ghost var history: seq<real>   // every input so far
    ghost var popped: nat          // entries ever removed from the deque

    ghost predicate Tracks(h: seq<real>)
      reads this`index, this`mins, this`gain, this`popped
    {
      && Sound(config)
      && index == |h|
      && Fits(mins, Requirements(config.ceiling, h), config.lookahead)
      && gain == GainAfter(config, h)
      && |mins| + popped == index
    }

    ghost predicate Delays(h: seq<real>)
      reads this`delay, this`write, delay
    {
      delay.Length == config.lookahead >= 1 && write == |h| % config.lookahead && Line(delay[..], h)
    }

    ghost predicate Valid()
      reads this, delay
    {
      Tracks(history) && Delays(history) && engaged == EngagedCount(config, history)
    }

    constructor (c: Config)
      requires Sound(c)
      ensures Valid() && fresh(delay) && config == c && history == []
    {
      config := c;
      gain, write, mins, index, engaged := 1.0, 0, [], 0, 0;
      delay := new real[c.lookahead](_ => 0.0);
      history, popped := [], 0;
      new;
      Modulo.Small(0, c.lookahead);
    }

    // Down fast, up slowly.
    method Ramp(target: real)
      modifies this`gain
      ensures gain == Blend(config, old(gain), target)
    {
      var coeff := if target < gain then config.attack else config.release;
      gain := Toward(gain, target, coeff);
    }

    // The final guarantee.
    method Emit(delayed: real) returns (out: real)
      requires config.ceiling > 0.0
      ensures out == Apply(config.ceiling, delayed, gain)
    {
      out := delayed * gain;
      if out > config.ceiling {
        out := config.ceiling;
      } else if out < -config.ceiling {
        out := -config.ceiling;
      }
    }

    // Both loops over the deque, then the one-pole step towards its front.
    method Follow(x: real) returns (target: real)
      requires Tracks(history)
      modifies this`gain, this`mins, this`index, this`popped
      ensures Tracks(history + [x]) && target == Target(config, history + [x])
    {
      hide Fits, GainAfter, Least, Window, Blend, RequiredGain, Abs, Requirements;
      ghost var r := Requirements(config.ceiling, history);
      RequirementsSnoc(config.ceiling, history, x);
      var slid, removed := Slide(mins, index, config.lookahead, RequiredGain(config.ceiling, Abs(x)), r);
      GainSnoc(config, history, x);
      target := slid[0].value;
      Ramp(target);
      mins, index, popped := slid, index + 1, popped + removed;
    }

    // The oldest sample out of the delay line, the newest in its place.
    method Exchange(x: real) returns (delayed: real)
      requires Delays(history)
      modifies this`write, delay
      ensures Delays(history + [x]) && delayed == Delayed(config.lookahead, history + [x])
    {
      ghost var before := delay[..];
      LineReads(before, history, x);
      LineWrites(before, history, x);
      delayed := delay[write];
      delay[write] := x;
      assert delay[..] == before[write := x];
      Modulo.Add(|history|, 1, config.lookahead);
      write := (write + 1) % config.lookahead;
    }

    // Everything the loop body does before it scales the delayed sample.
    method Advance(x: real) returns (delayed: real)
      requires Valid()
      modifies this, delay
      ensures Valid() && delay == old(delay) && history == old(history) + [x]
      ensures delayed == Delayed(config.lookahead, history)
    {
      hide Fits, Line, GainAfter, EngagedCount, Target, Delayed, Requirements;
      var target := Follow(x);
      delayed := Exchange(x);
      if target < 1.0 { engaged := engaged + 1; }
      EngagedSnoc(config, history, x);
      history := history + [x];
      assert Tracks(history) && Delays(history);
    }

    /** One pass of the loop: one sample in, one sample out - the one from `lookahead` places back, brought down
        by the gain, or the ceiling with its sign where that is not enough. */
    method ProcessSample(x: real) returns (out: real)
      requires Valid()
      modifies this, delay
      ensures Valid() && delay == old(delay)
      ensures history == old(history) + [x] && out == Output(config, history)
      ensures var d := if |history| <= config.lookahead then 0.0 else history[|history| - 1 - config.lookahead];
              BroughtDown(config.ceiling, d, gain, out)
    {
      var delayed := Advance(x);
      out := Emit(delayed);
      OutputIs(config, history);
    }

    /** In place, whatever the block size: each output is the reference output for all input up to it. */
    method Process(buf: array<real>, n: nat)
      requires Valid() && n <= buf.Length && buf != delay
      modifies this, delay, buf
      ensures Valid() && delay == old(delay)
      ensures history == old(history) + old(buf[..n])
      ensures Processed(config, old(history), old(buf[..]), n, buf[..])
    {
      ghost var input, start := buf[..], history;
      for i := 0 to n
        invariant Valid() && delay == old(delay)
        invariant history == start + input[..i]
        invariant Processed(config, start, input, i, buf[..])
      {
        ghost var before := buf[..];
        var out := ProcessSample(buf[i]);
        ProcessedNext(config, start, input, i, before, out);
        buf[i] := out;
        assert buf[..] == before[i := out];
      }
      assert input[..n] == old(buf[..n]);
    }
  }

  /** The first n samples are outputs, each belonging to all the input up to its own place; the rest are untouched. */
  ghost predicate Processed(c: Config, before: seq<real>, input: seq<real>, n: nat, now: seq<real>)
    requires Sound(c) && n <= |input|
  {
    && |now| == |input|
    && (forall i :: 0 <= i < n ==> now[i] == Output(c, before + input[..i + 1]))
    && (forall i :: n <= i < |now| ==> now[i] == input[i])
  }

  lemma ProcessedNext(c: Config, before: seq<real>, input: seq<real>, n: nat, now: seq<real>, out: real)
    requires Sound(c) && n < |input| && Processed(c, before, input, n, now)
    requires out == Output(c, before + input[..n] + [now[n]])
    ensures before + input[..n] + [now[n]] == before + input[..n + 1]
    ensures Processed(c, before, input, n + 1, now[n := out])
  {
    assert before + input[..n] + [input[n]] == before + input[..n + 1];
  }

  lemma GainSnoc(c: Config, h: seq<real>, x: real)
    requires Sound(c)
    ensures GainAfter(c, h + [x]) == Blend(c, GainAfter(c, h), Target(c, h + [x]))
  {
    assert (h + [x])[..|h|] == h;
  }

  lemma EngagedSnoc(c: Config, h: seq<real>, x: real)
    requires Sound(c)
    ensures EngagedCount(c, h + [x]) == EngagedCount(c, h) + if Target(c, h + [x]) < 1.0 then 1 else 0
  {
    assert (h + [x])[..|h|] == h;
  }

  lemma RequirementsSnoc(ceiling: real, h: seq<real>, x: real)
    requires ceiling > 0.0
    ensures Requirements(ceiling, h + [x]) == Requirements(ceiling, h) + [RequiredGain(ceiling, Abs(x))]
  {
  }

  // ----- what the output is --------------------------------------------------------------------------

  // The scaled sample while it fits under the ceiling, the ceiling with its sign when it does not.
  ghost predicate BroughtDown(ceiling: real, d: real, gain: real, out: real) {
    if Abs(d) * gain <= ceiling then out == d * gain else out == if d > 0.0 then ceiling else -ceiling
  }

  lemma ClampIs(ceiling: real, d: real, gain: real)
    requires ceiling > 0.0 && gain >= 0.0
    ensures BroughtDown(ceiling, d, gain, Apply(ceiling, d, gain))
  {
    assert d <= 0.0 ==> d * gain <= 0.0 && Abs(d) * gain == -(d * gain);
    assert d >= 0.0 ==> d * gain >= 0.0;
  }

  /** Every output is the input from `lookahead` places back times the gain, or the ceiling where that exceeds it. */
  lemma OutputIs(c: Config, h: seq<real>)
    requires Sound(c) && h != []
    ensures var d := if |h| <= c.lookahead then 0.0 else h[|h| - 1 - c.lookahead];
            BroughtDown(c.ceiling, d, GainAfter(c, h), Output(c, h))
  {
    GainPositive(c, h);
    ClampIs(c.ceiling, Delayed(c.lookahead, h), GainAfter(c, h));
  }

  // ----- what the gain aims at -----------------------------------------------------------------------

  ghost predicate InWindow(c: Config, h: seq<real>, k: int) {
    0 <= k < |h| <= k + c.lookahead
  }

  // r is the largest gain, up to 1, that brings every sample of the window down to the ceiling.
  ghost predicate Stands(c: Config, h: seq<real>, r: real) {
    && 0.0 < r <= 1.0
    && (forall k :: InWindow(c, h, k) ==> Product(Abs(h[k]), r) <= c.ceiling)
    && (r == 1.0 || exists k :: InWindow(c, h, k) && Product(Abs(h[k]), r) == c.ceiling)
  }

  lemma RequirementIs(ceiling: real, size: real, r: real)
    requires ceiling > 0.0 && size >= 0.0 && 0.0 < r <= 1.0
    ensures Product(size, r) <= ceiling <==> r <= RequiredGain(ceiling, size)
    ensures r < 1.0 ==> (Product(size, r) == ceiling <==> r == RequiredGain(ceiling, size))
  {
    hide Product;
    ByOneOrZero(size);
    ByOneOrZero(r);
    if size > ceiling {
      var q := RequiredGain(ceiling, size);
      QuotientIs(ceiling, size);
      ProductOrder(size, r, q);
    } else if size > 0.0 {
      ProductOrder(size, r, 1.0);
    }
  }

  lemma QuotientIs(a: real, b: real)
    requires 0.0 < a < b
    ensures Product(b, a / b) == a && a / b < 1.0
  {
    QuotientBelowOne(a, b);
  }

  lemma WindowAt(c: Config, h: seq<real>, k: nat)
    requires Sound(c) && InWindow(c, h, k)
    ensures RequiredGain(c.ceiling, Abs(h[k])) in Window(Requirements(c.ceiling, h), c.lookahead)
  {
    var r := Requirements(c.ceiling, h);
    var w := Window(r, c.lookahead);
    var i := if |r| <= c.lookahead then k else k - (|r| - c.lookahead);
    assert w[i] == r[k];
  }

  lemma WindowHolds(c: Config, h: seq<real>, i: nat) returns (k: nat)
    requires Sound(c) && i < |Window(Requirements(c.ceiling, h), c.lookahead)|
    ensures InWindow(c, h, k)
    ensures Window(Requirements(c.ceiling, h), c.lookahead)[i] == RequiredGain(c.ceiling, Abs(h[k]))
  {
    k := if |h| <= c.lookahead then i else |h| - c.lookahead + i;
  }

  /** The target is that gain, and no other. */
  lemma TargetIff(c: Config, h: seq<real>, r: real)
    requires Sound(c) && h != []
    ensures Stands(c, h, r) <==> Target(c, h) == r
  {
    hide RequiredGain, Abs, Window, Requirements, Product;
    var w := Window(Requirements(c.ceiling, h), c.lookahead);
    WindowNotEmpty(c, h);
    LeastBounds(w);
    var i :| 0 <= i < |w| && w[i] == Least(w);
    var low := WindowHolds(c, h, i);
    RequirementBounds(c.ceiling, Abs(h[low]));
    if Target(c, h) == r {
      forall k | InWindow(c, h, k) ensures Product(Abs(h[k]), r) <= c.ceiling {
        WindowAt(c, h, k);
        RequirementIs(c.ceiling, Abs(h[k]), r);
      }
      RequirementIs(c.ceiling, Abs(h[low]), r);
    }
    if Stands(c, h, r) {
      forall j | 0 <= j < |w| ensures r <= w[j] {
        var k := WindowHolds(c, h, j);
        RequirementIs(c.ceiling, Abs(h[k]), r);
      }
      if r < 1.0 {
        var k :| InWindow(c, h, k) && Product(Abs(h[k]), r) == c.ceiling;
        WindowAt(c, h, k);
        RequirementIs(c.ceiling, Abs(h[k]), r);
      }
    }
  }

  lemma RequirementBounds(ceiling: real, size: real)
    requires ceiling > 0.0
    ensures 0.0 < RequiredGain(ceiling, size) <= 1.0
  {
  }

  lemma WindowNotEmpty(c: Config, h: seq<real>)
    requires Sound(c) && h != []
    ensures Window(Requirements(c.ceiling, h), c.lookahead) != []
  {
  }

  // ----- how the gain gets there -----------------------------------------------------------------------

  // The same requirement stands while these samples come in.
  ghost predicate StandsWhile(c: Config, h: seq<real>, more: seq<real>, r: real) {
    forall n :: 0 < n <= |more| ==> Stands(c, h + more[..n], r)
  }

  lemma StandsBefore(c: Config, h: seq<real>, more: seq<real>, r: real)
    requires more != [] && StandsWhile(c, h, more, r)
    ensures StandsWhile(c, h, more[..|more| - 1], r) && Stands(c, h + more, r)
    ensures h + more == (h + more[..|more| - 1]) + [more[|more| - 1]]
  {
    hide Stands;
    var n := |more| - 1;
    assert more[..n + 1] == more;
    forall i | 0 < i <= n ensures Stands(c, h + more[..n][..i], r) { assert more[..n][..i] == more[..i]; }
  }

  // What is left of a distance after a step.
  lemma LeftAfter(d: real, k: real, n: nat)
    ensures Product(Product(d, Raised(k, n)), k) == Product(d, Raised(k, n + 1))
  {
    ProductAssociates(d, Raised(k, n), k);
  }

  /** Attack: while one requirement stands and the gain is above it, n samples leave attack^n of the distance. */
  lemma {:induction false} GainFalls(c: Config, h: seq<real>, more: seq<real>, r: real)
    requires Sound(c) && GainAfter(c, h) >= r && StandsWhile(c, h, more, r)
    ensures GainAfter(c, h + more) == r + Product(GainAfter(c, h) - r, Raised(c.attack, |more|))
    decreases |more|
  {
    hide Stands, GainAfter, Target, Product, Raised;
    if more == [] {
      Untouched(h, GainAfter(c, h) - r, c.attack);
    } else {
      var n := |more| - 1;
      StandsBefore(c, h, more, r);
      GainFalls(c, h, more[..n], r);
      GainSnoc(c, h + more[..n], more[n]);
      TargetIff(c, h + more, r);
      StepFalls(c, GainAfter(c, h + more[..n]), r, GainAfter(c, h) - r, n);
    }
  }

  lemma Untouched(h: seq<real>, d: real, k: real)
    ensures h + [] == h && Product(d, Raised(k, 0)) == d
  {
  }

  lemma StepFalls(c: Config, gain: real, r: real, d: real, n: nat)
    requires Sound(c) && d >= 0.0 && gain == r + Product(d, Raised(c.attack, n))
    ensures Blend(c, gain, r) == r + Product(d, Raised(c.attack, n + 1))
  {
    hide Raised;
    LeftAfter(d, c.attack, n);
    RaisedBelowOne(c.attack, n);
    assert gain >= r;
  }

  /** Release: below it, n samples leave release^n of the distance. */
  lemma {:induction false} GainRises(c: Config, h: seq<real>, more: seq<real>, r: real)
    requires Sound(c) && GainAfter(c, h) <= r && StandsWhile(c, h, more, r)
    ensures GainAfter(c, h + more) == r - Product(r - GainAfter(c, h), Raised(c.release, |more|))
    decreases |more|
  {
    hide Stands, GainAfter, Target, Product, Raised;
    if more == [] {
      Untouched(h, r - GainAfter(c, h), c.release);
    } else {
      var n := |more| - 1;
      StandsBefore(c, h, more, r);
      GainRises(c, h, more[..n], r);
      GainSnoc(c, h + more[..n], more[n]);
      TargetIff(c, h + more, r);
      StepRises(c, GainAfter(c, h + more[..n]), r, r - GainAfter(c, h), n);
    }
  }

  lemma StepRises(c: Config, gain: real, r: real, d: real, n: nat)
    requires Sound(c) && d >= 0.0 && gain == r - Product(d, Raised(c.release, n))
    ensures Blend(c, gain, r) == r - Product(d, Raised(c.release, n + 1))
  {
    hide Raised;
    LeftAfter(d, c.release, n);
    RaisedBelowOne(c.release, n);
    assert gain <= r;
  }

  lemma ScaledMore(d: real, most: real, k: real)
    requires d <= most && k >= 0.0
    ensures Product(d, k) <= Product(most, k)
  {
    assert (most - d) * k >= 0.0;
  }

  /** So while a requirement below 1 stands, what leaves has been brought down towards it, attack by attack. */
  lemma BroughtTowards(c: Config, h: seq<real>, more: seq<real>, r: real)
    requires Sound(c) && more != [] && StandsWhile(c, h, more, r)
    ensures GainAfter(c, h + more) <= r + Product(1.0 - r, Raised(c.attack, |more|))
    ensures Abs(Output(c, h + more))
         <= Product(Abs(Delayed(c.lookahead, h + more)), r + Product(1.0 - r, Raised(c.attack, |more|)))
  {
    hide GainAfter, Stands, StandsWhile, Raised, Product, Output, Abs, Delayed;
    StandsBefore(c, h, more, r);
    assert 0.0 < r <= 1.0 by { Between(c, h + more, r); }
    RaisedBelowOne(c.attack, |more|);
    RaisedBelowOne(c.release, |more|);
    GainPositive(c, h);
    GainPositive(c, h + more);
    if GainAfter(c, h) >= r {
      GainFalls(c, h, more, r);
      ScaledMore(GainAfter(c, h) - r, 1.0 - r, Raised(c.attack, |more|));
    } else {
      GainRises(c, h, more, r);
      NonNegative(r - GainAfter(c, h), Raised(c.release, |more|));
      NonNegative(1.0 - r, Raised(c.attack, |more|));
    }
    NoLouder(c, h + more, r + Product(1.0 - r, Raised(c.attack, |more|)));
  }

  lemma Between(c: Config, h: seq<real>, r: real)
    requires Stands(c, h, r)
    ensures 0.0 < r <= 1.0
  {
  }

  lemma NoLouder(c: Config, h: seq<real>, most: real)
    requires Sound(c) && h != [] && 0.0 <= GainAfter(c, h) <= most
    ensures Abs(Output(c, h)) <= Product(Abs(Delayed(c.lookahead, h)), most)
  {
    hide GainAfter, Output;
    OutputIs(c, h);
    var d, g := Delayed(c.lookahead, h), GainAfter(c, h);
    assert Abs(d * g) == Abs(d) * g by { assert d < 0.0 ==> d * g == -(Abs(d) * g); assert Abs(d) * g >= 0.0; }
    assert Abs(d) * (most - g) >= 0.0;
  }

  // ----- the count of engaged samples ------------------------------------------------------------------

  /** A sample is counted exactly when some sample of its window is over the ceiling. */
  lemma EngagedIff(c: Config, h: seq<real>)
    requires Sound(c) && h != []
    ensures EngagedCount(c, h) == EngagedCount(c, h[..|h| - 1])
      + if exists k :: InWindow(c, h, k) && Abs(h[k]) > c.ceiling then 1 else 0
  {
    hide Abs, Target, Product;
    var r := Target(c, h);
    TargetIff(c, h, r);
    forall k | InWindow(c, h, k) && Abs(h[k]) > c.ceiling ensures r < 1.0 { OverNeedsLess(c.ceiling, Abs(h[k]), r); }
    if r < 1.0 {
      var k :| InWindow(c, h, k) && Product(Abs(h[k]), r) == c.ceiling;
      OverNeedsLess(c.ceiling, Abs(h[k]), r);
    }
  }

  lemma OverNeedsLess(ceiling: real, size: real, r: real)
    requires ceiling > 0.0 && size >= 0.0 && 0.0 < r <= 1.0 && Product(size, r) <= ceiling
    ensures size > ceiling ==> r < 1.0
    ensures Product(size, r) == ceiling && r < 1.0 ==> size > ceiling
  {
    hide Product;
    ByOneOrZero(size);
    if size > 0.0 { ProductOrder(size, r, 1.0); }
    ByOneOrZero(r);
  }

  // ----- what the reference guarantees ---------------------------------------------------------------

  lemma TargetIsRequired(c: Config, h: seq<real>, floor: real)
    requires Sound(c) && h != []
    requires forall k :: 0 <= k < |h| ==> floor <= RequiredGain(c.ceiling, Abs(h[k]))
    ensures floor <= Target(c, h) <= 1.0
  {
    var r := Requirements(c.ceiling, h);
    var w := Window(r, c.lookahead);
    LeastBounds(w);
    var i :| 0 <= i < |w| && w[i] == Least(w);
    var k := if |r| <= c.lookahead then i else |r| - c.lookahead + i;
    assert w[i] == r[k];
  }

  lemma BlendBetween(c: Config, gain: real, target: real, floor: real)
    requires Sound(c) && floor <= gain <= 1.0 && floor <= target <= 1.0
    ensures floor <= Blend(c, gain, target) <= 1.0
  {
    var k := if target < gain then c.attack else c.release;
    ScaledBetween(gain - target, k);
  }

  lemma ScaledBetween(d: real, k: real)
    requires 0.0 <= k <= 1.0
    ensures (if d < 0.0 then d else 0.0) <= d * k <= (if d < 0.0 then 0.0 else d)
    ensures Abs(d * k) <= Abs(d)
  {
    if d >= 0.0 {
      Scaled(d, k);
    } else {
      Scaled(-d, k);
      assert d * k == -((-d) * k);
    }
  }

  lemma Scaled(d: real, k: real)
    requires d >= 0.0 && 0.0 <= k <= 1.0
    ensures 0.0 <= d * k <= d
  {
    assert d * k <= d * 1.0;
  }

  /** The gain never leaves the range from the smallest requirement ever seen to 1. */
  lemma {:induction false} GainBounds(c: Config, h: seq<real>, floor: real)
    requires Sound(c) && floor <= 1.0
    requires forall k :: 0 <= k < |h| ==> floor <= RequiredGain(c.ceiling, Abs(h[k]))
    ensures floor <= GainAfter(c, h) <= 1.0
    decreases |h|
  {
    if h != [] {
      GainBounds(c, h[..|h| - 1], floor);
      TargetIsRequired(c, h, floor);
      BlendBetween(c, GainAfter(c, h[..|h| - 1]), Target(c, h), floor);
    }
  }

  /** Down fast, up slowly: a fall leaves no more of its distance than a rise of the same size. */
  lemma FallsFaster(c: Config, gain: real, d: real)
    requires Sound(c) && c.attack <= c.release && d > 0.0
    ensures Blend(c, gain, gain - d) - (gain - d) <= (gain + d) - Blend(c, gain, gain + d)
  {
    hide Toward, Product;
    StepLeft(gain, gain - d, c.attack, d);
    StepLeft(gain, gain + d, c.release, -d);
    Mirrored(d, c.release);
    MoreLeft(d, c.attack, c.release);
  }

  lemma StepLeft(gain: real, target: real, k: real, d: real)
    requires d == gain - target
    ensures Toward(gain, target, k) - target == Product(d, k)
  {
  }

  lemma Mirrored(d: real, k: real)
    ensures Product(-d, k) == -Product(d, k)
  {
  }

  lemma MoreLeft(d: real, a: real, b: real)
    requires d > 0.0 && a <= b
    ensures Product(d, a) <= Product(d, b)
  {
    assert d * (b - a) >= 0.0;
  }

  ghost predicate Quiet(c: Config, h: seq<real>) {
    forall k :: 0 <= k < |h| ==> Abs(h[k]) <= c.ceiling
  }

  /** Input that stays under the ceiling comes out untouched, the look-ahead later. */
  lemma {:induction false} Transparent(c: Config, h: seq<real>)
    requires Sound(c) && Quiet(c, h)
    ensures GainAfter(c, h) == 1.0 && EngagedCount(c, h) == 0
    ensures h != [] ==> Output(c, h) == Delayed(c.lookahead, h)
    decreases |h|
  {
    GainBounds(c, h, 1.0);
    if h != [] {
      Transparent(c, h[..|h| - 1]);
      TargetIsRequired(c, h, 1.0);
    }
  }

  /** What leaves the limiter never exceeds the ceiling, and is never amplified. */
  lemma OutputBound(c: Config, h: seq<real>)
    requires Sound(c) && h != []
    ensures -c.ceiling <= Output(c, h) <= c.ceiling
    ensures Abs(Output(c, h)) <= Abs(Delayed(c.lookahead, h))
  {
    GainPositive(c, h);
    ApplyBound(c.ceiling, Delayed(c.lookahead, h), GainAfter(c, h));
  }

  lemma ApplyBound(ceiling: real, x: real, gain: real)
    requires ceiling > 0.0 && 0.0 <= gain <= 1.0
    ensures -ceiling <= Apply(ceiling, x, gain) <= ceiling
    ensures Abs(Apply(ceiling, x, gain)) <= Abs(x)
  {
    ScaledBetween(x, gain);
  }

  lemma GainPositive(c: Config, h: seq<real>)
    requires Sound(c)
    ensures 0.0 <= GainAfter(c, h) <= 1.0
  {
    GainBounds(c, h, 0.0);
  }

  // ----- what the look-ahead does not give -------------------------------------------------------------

  function Silence(n: nat): (z: seq<real>)
    ensures |z| == n && forall k :: 0 <= k < n ==> z[k] == 0.0
  {
    seq(n, _ => 0.0)
  }

  // The last place of the largest size.
  ghost predicate LastLoudest(h: seq<real>, k: nat) {
    k < |h| && forall i :: 0 <= i < |h| ==> Abs(h[i]) <= Abs(h[k]) && (i > k ==> Abs(h[i]) < Abs(h[k]))
  }

  lemma {:induction false} SomeLastLoudest(h: seq<real>) returns (k: nat)
    requires h != []
    ensures LastLoudest(h, k)
  {
    var n := |h| - 1;
    k := n;
    if n > 0 {
      hide Abs;
      var before := SomeLastLoudest(h[..n]);
      if Abs(h[before]) > Abs(h[n]) { k := before; }
      forall i | 0 <= i < |h| ensures Abs(h[i]) <= Abs(h[k]) && (i > k ==> Abs(h[i]) < Abs(h[k])) {
        if i < n { assert h[..n][i] == h[i]; }
      }
    }
  }

  lemma StrictlyScaled(d: real, k: real)
    requires 0.0 <= d && 0.0 <= k < 1.0
    ensures 0.0 <= Product(d, k)
    ensures d > 0.0 ==> Product(d, k) < d
    ensures d == 0.0 ==> Product(d, k) == 0.0
  {
    assert d > 0.0 ==> d * (1.0 - k) > 0.0;
  }

  // A gain at or above a bound, drawn towards a target beyond it, is beyond it after one step.
  lemma BlendAbove(c: Config, gain: real, target: real, bound: real)
    requires Sound(c) && bound <= gain && bound < target
    ensures Blend(c, gain, target) > bound
  {
    hide Toward, Product;
    if target < gain {
      StepLeft(gain, target, c.attack, gain - target);
      StrictlyScaled(gain - target, c.attack);
    } else {
      StepLeft(gain, target, c.release, gain - target);
      Mirrored(target - gain, c.release);
      StrictlyScaled(target - gain, c.release);
    }
  }

  lemma SmallerNeedsLess(ceiling: real, size: real, peak: real)
    requires 0.0 < ceiling < peak && 0.0 <= size <= peak
    ensures 0.0 < ceiling / peak < 1.0
    ensures RequiredGain(ceiling, size) >= ceiling / peak
    ensures size < peak ==> RequiredGain(ceiling, size) > ceiling / peak
  {
    QuotientBelowOne(ceiling, peak);
    if size > ceiling {
      QuotientBelowOne(ceiling, size);
      QuotientOrder(ceiling, size, peak, ceiling / size, ceiling / peak);
    }
  }

  lemma QuotientOrder(a: real, small: real, large: real, p: real, q: real)
    requires a > 0.0 && 0.0 < small <= large && Product(p, small) == a && Product(q, large) == a
    ensures q <= p && (small < large ==> q < p)
  {
    assert p <= 0.0 ==> Product(p, small) <= 0.0;
    assert (p - q) * large == p * (large - small);
    if small < large { Positive(p, large - small); }
    assert p <= q ==> (p - q) * large <= 0.0;
    assert p < q ==> (p - q) * large < 0.0;
  }

  lemma TargetAbove(c: Config, h: seq<real>, bound: real)
    requires Sound(c) && h != []
    requires forall i :: 0 <= i < |h| && |h| <= i + c.lookahead ==> RequiredGain(c.ceiling, Abs(h[i])) > bound
    ensures Target(c, h) > bound
  {
    hide RequiredGain, Abs;
    var r := Requirements(c.ceiling, h);
    var w := Window(r, c.lookahead);
    LeastBounds(w);
    var i :| 0 <= i < |w| && w[i] == Least(w);
    var k := if |r| <= c.lookahead then i else |r| - c.lookahead + i;
    assert w[i] == r[k];
  }

  // The clamp changes what it is given.
  ghost predicate Clipped(ceiling: real, x: real, gain: real) {
    Apply(ceiling, x, gain) != x * gain
  }

  lemma OverCeiling(ceiling: real, x: real, gain: real)
    requires 0.0 < ceiling < Abs(x) && gain > ceiling / Abs(x)
    ensures Clipped(ceiling, x, gain)
  {
    QuotientBelowOne(ceiling, Abs(x));
    assert (gain - ceiling / Abs(x)) * Abs(x) > 0.0;
    assert Abs(x) * gain > ceiling;
    assert x < 0.0 ==> x * gain == -((-x) * gain);
  }

  // The clamp changes the newest sample to leave the delay line.
  ghost predicate ClampActs(c: Config, h: seq<real>)
    requires Sound(c) && h != []
  {
    Clipped(c.ceiling, Delayed(c.lookahead, h), GainAfter(c, h))
  }

  lemma GainRecovers(c: Config, h: seq<real>, k: nat)
    requires Sound(c) && LastLoudest(h, k) && Abs(h[k]) > c.ceiling && |h| == k + c.lookahead + 1
    ensures GainAfter(c, h) > c.ceiling / Abs(h[k])
  {
    hide GainAfter, Blend, Target, RequiredGain, Abs;
    var peak, n := Abs(h[k]), |h| - 1;
    var before := h[..n];
    forall i | 0 <= i < |h|
      ensures RequiredGain(c.ceiling, Abs(h[i])) >= c.ceiling / peak
      ensures i > k ==> RequiredGain(c.ceiling, Abs(h[i])) > c.ceiling / peak
    {
      SmallerNeedsLess(c.ceiling, Abs(h[i]), peak);
    }
    SmallerNeedsLess(c.ceiling, peak, peak);
    GainBounds(c, before, c.ceiling / peak);
    TargetAbove(c, h, c.ceiling / peak);
    GainSnoc(c, before, h[n]);
    assert before + [h[n]] == h;
    BlendAbove(c, GainAfter(c, before), Target(c, h), c.ceiling / peak);
  }

  /**
   A peak leaves the delay line one sample after its own requirement has left the window, when the gain has
   begun to recover. So in every stream, at every look-ahead, attack and release, the last of its loudest samples,
   if it is above the ceiling, arrives above the ceiling at the clamp.
   */
  lemma LookaheadMissesByOne(c: Config, h: seq<real>, k: nat)
    requires Sound(c) && LastLoudest(h, k) && Abs(h[k]) > c.ceiling && |h| == k + c.lookahead + 1
    ensures Delayed(c.lookahead, h) == h[k] && ClampActs(c, h)
  {
    hide GainAfter, LastLoudest, Abs, Clipped;
    GainRecovers(c, h, k);
    OverCeiling(c.ceiling, h[k], GainAfter(c, h));
  }

  ghost predicate EverClamps(c: Config, h: seq<real>)
    requires Sound(c)
  {
    exists n :: 0 < n <= |h| && ClampActs(c, h[..n])
  }

  lemma QuietNeverClamps(c: Config, h: seq<real>, n: nat)
    requires Sound(c) && Quiet(c, h) && 0 < n <= |h|
    ensures !ClampActs(c, h[..n])
  {
    Transparent(c, h[..n]);
    var x := Delayed(c.lookahead, h[..n]);
    assert Abs(x) <= c.ceiling;
    assert x * 1.0 == x;
  }

  /** Once the look-ahead has run out, the clamp has acted if and only if some input exceeded the ceiling: it is the
      clamp, and never the look-ahead alone, that holds it. */
  lemma ClampActsIff(c: Config, h: seq<real>)
    requires Sound(c)
    ensures EverClamps(c, h + Silence(c.lookahead)) <==> !Quiet(c, h)
  {
    hide ClampActs;
    var padded := h + Silence(c.lookahead);
    if Quiet(c, h) {
      assert Quiet(c, padded);
      forall n | 0 < n <= |padded| ensures !ClampActs(c, padded[..n]) { QuietNeverClamps(c, padded, n); }
    } else {
      var k := SomeLastLoudest(h);
      var heard := padded[..k + c.lookahead + 1];
      assert heard[k] == h[k];
      assert forall i :: 0 <= i < |heard| && i < |h| ==> heard[i] == h[i];
      assert LastLoudest(heard, k);
      LookaheadMissesByOne(c, heard, k);
    }
  }

  // ----- the ramped gain -------------------------------------------------------------------------------

  // The gain after n samples with the target held.
  function Ramped(current: real, target: real, coeff: real, n: nat): real {
    if n == 0 then current else Toward(Ramped(current, target, coeff, n - 1), target, coeff)
  }

  class SmoothedGain {
    var current: real
    var target: real
    const coeff: real

    constructor (initial: real, smoothing: real)
      requires 0.0 <= smoothing < 1.0
      ensures current == initial && target == initial && coeff == smoothing
    {
      current, target, coeff := initial, initial, smoothing;
    }

    method Process(buf: array<real>, n: nat)
      requires n <= buf.Length
      modifies this`current, buf
      ensures current == Ramped(old(current), target, coeff, n)
      ensures forall i :: 0 <= i < n ==> buf[i] == Product(old(buf[i]), Ramped(old(current), target, coeff, i + 1))
      ensures forall i :: n <= i < buf.Length ==> buf[i] == old(buf[i])
    {
      ghost var input, first := buf[..], current;
      for i := 0 to n
        invariant current == Ramped(first, target, coeff, i)
        invariant forall k :: 0 <= k < i ==> buf[k] == Product(input[k], Ramped(first, target, coeff, k + 1))
        invariant forall k :: i <= k < buf.Length ==> buf[k] == input[k]
      {
        current := Toward(current, target, coeff);
        buf[i] := Product(buf[i], current);
      }
    }
  }

  /** After n samples coeff^n of the distance is left. */
  lemma {:induction false} RampedIs(current: real, target: real, coeff: real, n: nat)
    ensures Ramped(current, target, coeff, n) == target + Product(current - target, Raised(coeff, n))
  {
    hide Raised;
    if n == 0 {
      Untouched([], current - target, coeff);
    } else {
      RampedIs(current, target, coeff, n - 1);
      LeftAfter(current - target, coeff, n - 1);
    }
  }

  /** Where a block ends makes no difference: the ramp carries on from there. */
  lemma {:induction false} RampedInBlocks(current: real, target: real, coeff: real, m: nat, n: nat)
    ensures Ramped(Ramped(current, target, coeff, m), target, coeff, n) == Ramped(current, target, coeff, m + n)
  {
    if n > 0 { RampedInBlocks(current, target, coeff, m, n - 1); }
  }

  /** The ramp only ever closes in on its target, and never crosses it. */
  lemma RampCloses(current: real, target: real, coeff: real, n: nat)
    requires 0.0 <= coeff < 1.0
    ensures current <= target ==> Ramped(current, target, coeff, n) <= Ramped(current, target, coeff, n + 1) <= target
    ensures current >= target ==> target <= Ramped(current, target, coeff, n + 1) <= Ramped(current, target, coeff, n)
    decreases n
  {
    if n > 0 { RampCloses(current, target, coeff, n - 1); }
    ScaledBetween(Ramped(current, target, coeff, n) - target, coeff);
  }
}
