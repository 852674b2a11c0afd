/**
 The per-slot composer: src/audio/channel_mix.cpp. Voice and a latched feed meet here, the feed
 ducked by a gain that ramps. Sample arithmetic is over reals; the conversion to 16 bits truncates.
 */
module ChannelMix {
  import opened Options
  import opened RealArithmetic

  const SLOTS := 32
  const BARGE_DUCK := 0.3

  type Pcm = x: int | -32768 <= x <= 32767

  type Frame = seq<Pcm>

  // ----- the reference: one slot, one frame ------------------------------------------------------------

  // The feed ducks only under a voice that is really flowing.
  function Target(voice: Option<Frame>, feed: Option<Frame>, voiceActive: bool): real {
    if feed.Some? && voice.Some? && voiceActive then BARGE_DUCK else 1.0
  }

  function GainStep(g: real, target: real, step: real): real {
    if g < target then (if g + step > target then target else g + step)
    else if g > target then (if g - step < target then target else g - step)
    else g
  }

  function GainAfter(g: real, target: real, step: real, n: nat): real {
    if n == 0 then g else GainStep(GainAfter(g, target, step, n - 1), target, step)
  }

  function Truncate(x: real): int {
    if x >= 0.0 then x.Floor else -((-x).Floor)
  }

  function Saturate(acc: real): (y: Pcm) {
    if acc > 32767.0 then 32767
    else if acc < -32768.0 then -32768
    else
      TruncateInRange(acc);
      Truncate(acc)
  }

  lemma TruncateInRange(x: real)
    requires -32768.0 <= x <= 32767.0
    ensures -32768 <= Truncate(x) <= 32767
  {
  }

  function Sum(voice: Option<Frame>, feed: Option<Frame>, i: nat, g: real): real
    requires Fits(voice, i + 1) && Fits(feed, i + 1)
  {
    (if voice.Some? then voice.value[i] as real else 0.0)
    + (if feed.Some? then Product(feed.value[i] as real, g) else 0.0)
  }

  predicate Fits(frame: Option<Frame>, n: nat) {
    frame.Some? ==> |frame.value| >= n
  }

  function Mixed(voice: Option<Frame>, feed: Option<Frame>, g: real, target: real, step: real, n: nat): (out: Frame)
    requires Fits(voice, n) && Fits(feed, n)
    ensures |out| == n
  {
    seq(n, i requires 0 <= i < n => Saturate(Sum(voice, feed, i, GainAfter(g, target, step, i + 1))))
  }

  // ----- the same, in closed form ----------------------------------------------------------------------

  // The gain k samples on: k steps nearer its target, or on it.
  function RampedTo(g: real, target: real, step: real, k: nat): real {
    var travelled := Product(k as real, step);
    if g > target then (if g - travelled > target then g - travelled else target)
    else (if g + travelled < target then g + travelled else target)
  }

  function SampleOf(voice: Option<Frame>, feed: Option<Frame>, i: nat, g: real): (y: Pcm)
    requires Fits(voice, i + 1) && Fits(feed, i + 1)
  {
    Saturate((if voice.Some? then voice.value[i] as real else 0.0)
             + (if feed.Some? then Product(feed.value[i] as real, g) else 0.0))
  }

  // Sample by sample the voice, and the feed at the ramp's own value there.
  ghost predicate RampedMix(out: Frame, voice: Option<Frame>, feed: Option<Frame>, g: real, target: real, step: real, n: nat)
    requires Fits(voice, n) && Fits(feed, n)
  {
    |out| == n && forall i :: 0 <= i < n ==> out[i] == SampleOf(voice, feed, i, RampedTo(g, target, step, i + 1))
  }

  lemma RampStarts(g: real, target: real, step: real)
    ensures RampedTo(g, target, step, 0) == g
  {
  }

  lemma RampSteps(g: real, target: real, step: real, k: nat)
    requires step > 0.0
    ensures GainStep(RampedTo(g, target, step, k), target, step) == RampedTo(g, target, step, k + 1)
  {
    Travelled(k + 1, step);
    hide Product;
  }

  /** The ramp in closed form. */
  lemma {:induction false} GainIs(g: real, target: real, step: real, n: nat)
    requires step > 0.0
    ensures GainAfter(g, target, step, n) == RampedTo(g, target, step, n)
  {
    hide GainStep, RampedTo;
    if n == 0 {
      RampStarts(g, target, step);
    } else {
      GainIs(g, target, step, n - 1);
      RampSteps(g, target, step, n - 1);
    }
  }

  /** What is heard is the ramp, sample by sample: not only the stored gain moves. */
  lemma MixedIs(voice: Option<Frame>, feed: Option<Frame>, g: real, target: real, step: real, n: nat)
    requires step > 0.0 && Fits(voice, n) && Fits(feed, n)
    ensures RampedMix(Mixed(voice, feed, g, target, step, n), voice, feed, g, target, step, n)
  {
    hide GainAfter, RampedTo, Saturate;
    forall i | 0 <= i < n
      ensures Mixed(voice, feed, g, target, step, n)[i] == SampleOf(voice, feed, i, RampedTo(g, target, step, i + 1))
    {
      GainIs(g, target, step, i + 1);
    }
  }

  // ----- the object -------------------------------------------------------------------------------------

  class Mixer {
    const step: real
    const gain: array<real>

    ghost predicate Valid()
      reads gain
    {
      step > 0.0 && gain.Length == SLOTS && forall s :: 0 <= s < SLOTS ==> InRange(gain[s])
    }

    constructor (rampMs: real, sampleRate: nat)
      requires sampleRate > 0
      ensures Valid() && fresh(gain)
      ensures forall s :: 0 <= s < SLOTS ==> gain[s] == 1.0
      ensures rampMs > 0.0 ==> step * (rampMs * sampleRate as real / 1000.0) == 1.0
    {
      var travel := if rampMs > 0.0 then rampMs * sampleRate as real / 1000.0 else 1.0;
      TravelIsPositive(rampMs, sampleRate);
      step := 1.0 / travel;
      gain := new real[SLOTS](_ => 1.0);
      new;
      QuotientTimes(1.0, travel);
      OneOver(travel);
    }

    /** One slot's frame, or nothing for a slot out of range or with nothing to send. No other slot is touched. */
    method Compose(slot: int, voice: Option<Frame>, feed: Option<Frame>, voiceActive: bool, n: nat)
      returns (out: Option<Frame>)
      requires Valid() && Fits(voice, n) && Fits(feed, n)
      modifies gain
      ensures Valid()
      ensures var acts := 0 <= slot < SLOTS && (voice.Some? || feed.Some?);
              if acts then
                && out == Some(Mixed(voice, feed, old(gain[..])[slot], Target(voice, feed, voiceActive), step, n))
                && gain[..] == old(gain[..])[slot := GainAfter(old(gain[..])[slot], Target(voice, feed, voiceActive), step, n)]
              else out == None && gain[..] == old(gain[..])
      ensures out.Some? ==>
        && 0 <= slot < SLOTS
        && var target := if voice.Some? && feed.Some? && voiceActive then 0.3 else 1.0;
           && RampedMix(out.value, voice, feed, old(gain[..])[slot], target, step, n)
           && gain[slot] == RampedTo(old(gain[..])[slot], target, step, n)
    {
      if slot < 0 || slot >= SLOTS { return None; }
      if voice.None? && feed.None? { return None; }
      hide Saturate, Sum, GainStep, RampedTo, RampedMix;
      var target := Target(voice, feed, voiceActive);
      var start, g := gain[slot], gain[slot];
      var frame: Frame := [];
      for i := 0 to n
        invariant g == GainAfter(start, target, step, i)
        invariant frame == Mixed(voice, feed, start, target, step, i)
        invariant gain[..] == old(gain[..])
      {
        g := Ramp(g, target, step);
        var y := MixSample(voice, feed, i, g);
        frame := frame + [y];
      }
      GainStays(start, target, step, n);
      GainIs(start, target, step, n);
      MixedIs(voice, feed, start, target, step, n);
      ghost var before := gain[..];
      gain[slot] := g;
      assert gain[..] == before[slot := g];
      out := Some(frame);
    }
  }

  // The loop body, first half: one step of the ramp.
  method Ramp(start: real, target: real, step: real) returns (g: real)
    ensures g == GainStep(start, target, step)
  {
    g := start;
    if g < target {
      g := g + step;
      if g > target { g := target; }
    } else if g > target {
      g := g - step;
      if g < target { g := target; }
    }
  }

  // The second half: one output sample.
  method MixSample(voice: Option<Frame>, feed: Option<Frame>, i: nat, g: real) returns (y: Pcm)
    requires Fits(voice, i + 1) && Fits(feed, i + 1)
    ensures y == Saturate(Sum(voice, feed, i, g))
  {
    hide Product;
    var acc := 0.0;
    if voice.Some? { acc := acc + voice.value[i] as real; }
    if feed.Some? { acc := acc + Product(feed.value[i] as real, g); }
    if acc > 32767.0 { return 32767; }
    if acc < -32768.0 { return -32768; }
    TruncateInRange(acc);
    y := Truncate(acc);
  }

  lemma TravelIsPositive(rampMs: real, sampleRate: nat)
    requires sampleRate > 0
    ensures rampMs > 0.0 ==> rampMs * sampleRate as real / 1000.0 > 0.0
  {
    if rampMs > 0.0 { Positive(rampMs, sampleRate as real); }
  }

  lemma OneOver(travel: real)
    requires travel > 0.0
    ensures 1.0 / travel > 0.0
  {
    QuotientTimes(1.0, travel);
  }

  // ----- the gain ------------------------------------------------------------------------------------------

  predicate InRange(g: real) {
    BARGE_DUCK <= g <= 1.0
  }

  /** Whatever comes, a gain that started between the duck and 1 stays there. */
  lemma {:induction false} GainStays(g: real, target: real, step: real, n: nat)
    requires InRange(g) && InRange(target) && step > 0.0
    ensures InRange(GainAfter(g, target, step, n))
  {
    if n > 0 { GainStays(g, target, step, n - 1); }
  }

  function Distance(a: real, b: real): real {
    if a < b then b - a else a - b
  }

  function Remaining(distance: real, travelled: real): real {
    if distance > travelled then distance - travelled else 0.0
  }

  lemma StepCloses(g: real, target: real, step: real)
    requires step > 0.0
    ensures Distance(GainStep(g, target, step), target) == Remaining(Distance(g, target), step)
  {
  }

  lemma RemainingAdds(distance: real, a: real, b: real)
    requires a >= 0.0 && b >= 0.0
    ensures Remaining(Remaining(distance, a), b) == if distance >= 0.0 then Remaining(distance, a + b) else 0.0
  {
  }

  lemma Travelled(n: nat, step: real)
    requires n > 0 && step > 0.0
    ensures Product(n as real, step) == Product((n - 1) as real, step) + step && Product((n - 1) as real, step) >= 0.0
  {
  }

  lemma NotYet(distance: real, step: real)
    requires distance >= 0.0
    ensures Remaining(distance, Product(0.0, step)) == distance
  {
  }

  lemma DistanceSign(a: real, b: real)
    ensures Distance(a, b) >= 0.0
    ensures Distance(a, b) == 0.0 <==> a == b
  {
  }

  /** Each sample takes the gain one step nearer, until it is there. */
  lemma {:induction false} GainCloses(g: real, target: real, step: real, n: nat)
    requires step > 0.0
    ensures Distance(GainAfter(g, target, step, n), target) == Remaining(Distance(g, target), Product(n as real, step))
    decreases n
  {
    hide Distance, GainStep, Remaining, Product;
    DistanceSign(g, target);
    if n == 0 {
      NotYet(Distance(g, target), step);
    } else {
      GainCloses(g, target, step, n - 1);
      StepCloses(GainAfter(g, target, step, n - 1), target, step);
      Travelled(n, step);
      RemainingAdds(Distance(g, target), Product((n - 1) as real, step), step);
    }
  }

  /** Within as many samples as the duck is deep, any slot's gain has settled on its target. */
  lemma GainSettles(g: real, target: real, step: real, n: nat)
    requires step > 0.0 && InRange(g) && InRange(target) && Product(n as real, step) >= 0.7
    ensures GainAfter(g, target, step, n) == target
  {
    GainCloses(g, target, step, n);
    DistanceSign(GainAfter(g, target, step, n), target);
  }

  // ----- what comes out --------------------------------------------------------------------------------------

  lemma SaturateWhole(x: Pcm)
    ensures Saturate(x as real) == x
  {
  }

  /** A voice alone goes out as it came in, whatever the gain. */
  lemma VoiceAlone(voice: Frame, g: real, target: real, step: real)
    ensures Mixed(Some(voice), None, g, target, step, |voice|) == voice
  {
    forall i | 0 <= i < |voice|
      ensures Mixed(Some(voice), None, g, target, step, |voice|)[i] == voice[i]
    {
      SaturateWhole(voice[i]);
    }
  }

  lemma {:induction false} GainAtRest(target: real, step: real, n: nat)
    ensures GainAfter(target, target, step, n) == target
  {
    if n > 0 { GainAtRest(target, step, n - 1); }
  }

  /** The conversion to 16 bits never strays a whole step from a value in range, and never makes it louder. */
  lemma SaturateNear(acc: real)
    ensures -32768.0 <= acc <= 32767.0 ==> -1.0 < Saturate(acc) as real - acc < 1.0
    ensures acc >= 0.0 ==> 0.0 <= Saturate(acc) as real <= acc
    ensures acc <= 0.0 ==> acc <= Saturate(acc) as real <= 0.0
    ensures acc > 32767.0 ==> Saturate(acc) == 32767
    ensures acc < -32768.0 ==> Saturate(acc) == -32768
  {
  }

  /** Under a flowing voice, once settled, the feed plays at three tenths. */
  lemma BargeMixes(voice: Frame, feed: Frame, step: real, i: nat)
    requires i < |voice| == |feed|
    ensures Target(Some(voice), Some(feed), true) == BARGE_DUCK
    ensures Mixed(Some(voice), Some(feed), BARGE_DUCK, BARGE_DUCK, step, |voice|)[i]
         == Saturate(voice[i] as real + Product(feed[i] as real, 0.3))
  {
    hide Saturate, Product, GainAfter;
    GainAtRest(BARGE_DUCK, step, i + 1);
    SumOfBoth(voice, feed, i, BARGE_DUCK);
  }

  lemma SumOfBoth(voice: Frame, feed: Frame, i: nat, g: real)
    requires i < |voice| == |feed|
    ensures Sum(Some(voice), Some(feed), i, g) == voice[i] as real + Product(feed[i] as real, g)
  {
    hide Product;
  }

  /** A feed alone, on a slot at rest, goes out as it came in and leaves the slot at rest. */
  lemma FeedAlone(feed: Frame, step: real)
    ensures Mixed(None, Some(feed), 1.0, 1.0, step, |feed|) == feed
    ensures GainAfter(1.0, 1.0, step, |feed|) == 1.0
  {
    GainAtRest(1.0, step, |feed|);
    forall i | 0 <= i < |feed|
      ensures Mixed(None, Some(feed), 1.0, 1.0, step, |feed|)[i] == feed[i]
    {
      GainAtRest(1.0, step, i + 1);
      SaturateWhole(feed[i]);
    }
  }

  // ----- no clicks -------------------------------------------------------------------------------------------

  function Size(x: real): real {
    if x < 0.0 then -x else x
  }

  // The same value all through, or nothing at all.
  ghost predicate Constant(frame: Option<Frame>, n: nat, value: Pcm)
    requires Fits(frame, n)
  {
    if frame.None? then value == 0 else forall i :: 0 <= i < n ==> frame.value[i] == value
  }

  lemma StepIsShort(g: real, target: real, step: real)
    requires step > 0.0
    ensures Size(GainStep(g, target, step) - g) <= step
  {
  }

  lemma SaturateMoves(a: real, b: real)
    ensures Size(Saturate(a) as real - Saturate(b) as real) <= Size(a - b) + 1.0
  {
    SaturateNear(a);
    SaturateNear(b);
  }

  lemma ProductMoves(f: real, g: real, g': real, step: real)
    requires Size(g - g') <= step
    ensures Size(Product(f, g) - Product(f, g')) <= Product(Size(f), step)
  {
    assert Product(f, g) - Product(f, g') == f * (g - g');
    assert Size(f) * (step - Size(g - g')) >= 0.0;
    assert Size(f * (g - g')) == Size(f) * Size(g - g') by { SizeOfProduct(f, g - g'); }
  }

  lemma SizeOfProduct(x: real, y: real)
    ensures Size(x * y) == Size(x) * Size(y)
  {
    assert (-x) * y == -(x * y) && x * (-y) == -(x * y) && (-x) * (-y) == x * y;
    if x > 0.0 && y > 0.0 { Positive(x, y); }
    if x > 0.0 && y < 0.0 { Positive(x, -y); }
    if x < 0.0 && y > 0.0 { Positive(-x, y); }
    if x < 0.0 && y < 0.0 { Positive(-x, -y); }
  }

  // One sample after another, one step of the ramp between them.
  lemma NeighboursAreClose(v: Pcm, f: Pcm, g: real, target: real, step: real)
    requires step > 0.0
    ensures Size(Saturate(v as real + Product(f as real, GainStep(g, target, step))) as real
                 - Saturate(v as real + Product(f as real, g)) as real)
         <= Product(Size(f as real), step) + 1.0
  {
    hide Saturate, GainStep, Product;
    var g' := GainStep(g, target, step);
    StepIsShort(g, target, step);
    ProductMoves(f as real, g', g, step);
    SaturateMoves(v as real + Product(f as real, g'), v as real + Product(f as real, g));
  }

  lemma ConstantSample(voice: Option<Frame>, feed: Option<Frame>, v: Pcm, f: Pcm, g: real, target: real, step: real, n: nat,
                       i: nat)
    requires Fits(voice, n) && Fits(feed, n) && Constant(voice, n, v) && Constant(feed, n, f) && i < n
    ensures Mixed(voice, feed, g, target, step, n)[i]
         == Saturate(v as real + Product(f as real, GainAfter(g, target, step, i + 1)))
  {
    hide Saturate, GainAfter, Product;
    ByOneOrZero(GainAfter(g, target, step, i + 1));
  }

  // Neighbouring samples anywhere in a mix, the frame boundary included.
  ghost predicate Smooth(out: Frame, most: real) {
    forall i :: 0 <= i < |out| - 1 ==> Size(out[i + 1] as real - out[i] as real) <= most
  }

  /**
   A step would be a click; the ramp makes none. Over a steady voice and a steady feed, whatever the targets of two
   frames one after the other, no sample is further from the one before than one step of the feed and the rounding -
   across the frames too.
   */
  lemma NoClicks(voice: Option<Frame>, feed: Option<Frame>, voice': Option<Frame>, feed': Option<Frame>, v: Pcm, f: Pcm,
                 g: real, target: real, target': real, step: real, n: nat)
    requires step > 0.0 && n > 0 && Fits(voice, n) && Fits(feed, n) && Fits(voice', n) && Fits(feed', n)
    requires Constant(voice, n, v) && Constant(feed, n, f) && Constant(voice', n, v) && Constant(feed', n, f)
    ensures Smooth(Mixed(voice, feed, g, target, step, n)
                   + Mixed(voice', feed', GainAfter(g, target, step, n), target', step, n),
                   Product(Size(f as real), step) + 1.0)
  {
    hide Saturate, GainStep, Product, Constant, Size, Mixed;
    var middle := GainAfter(g, target, step, n);
    var one, two := Mixed(voice, feed, g, target, step, n), Mixed(voice', feed', middle, target', step, n);
    var out := one + two;
    forall i | 0 <= i < |out| - 1
      ensures Size(out[i + 1] as real - out[i] as real) <= Product(Size(f as real), step) + 1.0
    {
      if i + 1 < n {
        ConstantSample(voice, feed, v, f, g, target, step, n, i);
        ConstantSample(voice, feed, v, f, g, target, step, n, i + 1);
        NeighboursAreClose(v, f, GainAfter(g, target, step, i + 1), target, step);
      } else {
        ConstantSample(voice', feed', v, f, middle, target', step, n, i + 1 - n);
        if i + 1 == n {
          ConstantSample(voice, feed, v, f, g, target, step, n, i);
          NeighboursAreClose(v, f, middle, target', step);
        } else {
          ConstantSample(voice', feed', v, f, middle, target', step, n, i - n);
          NeighboursAreClose(v, f, GainAfter(middle, target', step, i - n + 1), target', step);
        }
      }
    }
  }
}
