/**
 The latency probe: spikes/a-tx-latency/src/probe.cpp. Emissions wait until the capture that must hold
 them has arrived, then a slice of it is searched. The detector is a parameter, which the matched filter
 fills; the clock reading of Resolve is one too; windows are given in nanoseconds.
 */
module Probe {
  import Correlator
  import opened Options
  import RealArithmetic
  import opened Timebase
  import TimebaseSlope

  const MAX_HOLD := 288000   // six seconds at 48 kHz

  datatype Config = Config(minNs: int, maxNs: int, graceNs: int)

  datatype Pending = Pending(id: int, up: bool, emitNs: int)

  datatype Detection = Detection(found: bool, lag: real, peak: real, psr: real)

  datatype Sample = Sample(id: int, latencyMs: real, peak: real, psr: real)

  datatype Stats = Stats(emitted: nat, resolved: nat, noDetection: nat, dataGap: nat, pending: nat,
                         bestPeak: real, bestPsr: real, rateHz: real)

  type Detector = (seq<real>, seq<real>) -> Detection

  // What becomes of one pending emission.
  datatype Verdict = Wait | Gap | NotFound(peak: real, psr: real) | Hit(sample: Sample)

  // ----- the reference: judged against the whole stream ever captured ---------------------------------

  function Oldest(total: nat): nat {
    if total <= MAX_HOLD then 0 else total - MAX_HOLD
  }

  // Waiting is allowed until the deadline.
  function Hold(now: int, giveUp: int): Verdict {
    if now < giveUp then Wait else Gap
  }

  function Ceil(x: real): (n: int)
    ensures x <= n as real < x + 1.0
  {
    -((-x).Floor)
  }

  // The slice that must hold the burst: from the start of the window to its end plus the burst itself.
  function SliceFor(anchors: seq<Anchor>, cfg: Config, emitNs: int, length: nat): (s: Option<(int, int)>)
    requires cfg.minNs <= cfg.maxNs
    ensures s.Some? ==> s.value.0 <= s.value.1
  {
    hide FrameForHostNs;
    FramesKeepOrder(anchors, emitNs + cfg.minNs, emitNs + cfg.maxNs);
    var lo, hi := FrameForHostNs(anchors, emitNs + cfg.minNs), FrameForHostNs(anchors, emitNs + cfg.maxNs);
    if lo.None? || hi.None? then None else Some((lo.value.Floor, Ceil(hi.value) + length))
  }

  function Received(anchors: seq<Anchor>, p: Pending, first: int, d: Detection): Verdict {
    match HostNsForFrame(anchors, first as real + d.lag)
    case None => Gap
    case Some(recvNs) => Hit(Sample(p.id, (recvNs - p.emitNs) as real / 1000000.0, d.peak, d.psr))
  }

  /** No bounds are checked here beyond what the stream and the six seconds kept of it demand. */
  function Judge(stream: seq<real>, anchors: seq<Anchor>, cfg: Config, needle: seq<real>, find: Detector,
                 now: int, p: Pending): Verdict
    requires cfg.minNs <= cfg.maxNs
  {
    var giveUp := p.emitNs + cfg.maxNs + cfg.graceNs;
    match SliceFor(anchors, cfg, p.emitNs, |needle|)
    case None => Hold(now, giveUp)
    case Some((first, last)) =>
      if first < 0 then Gap
      else if last > |stream| then Hold(now, giveUp)
      else if first < Oldest(|stream|) then Gap
      else
        var d := find(stream[first..last], needle);
        if d.found then Received(anchors, p, first, d) else NotFound(d.peak, d.psr)
  }

  /** A burst that was found is always timed: the map that placed the slice also places the hit. */
  lemma FoundIsTimed(anchors: seq<Anchor>, cfg: Config, p: Pending, length: nat, first: int, d: Detection)
    requires cfg.minNs <= cfg.maxNs && SliceFor(anchors, cfg, p.emitNs, length).Some?
    ensures Received(anchors, p, first, d).Hit?
  {
    hide FitOf, FrameAt, HostAt;
  }

  // The part of the capture in which a burst emitted then must begin, by the time map: from the earliest moment it
  // can come back to the latest.
  datatype Window = Window(lo: real, hi: real)

  ghost predicate WindowIs(anchors: seq<Anchor>, cfg: Config, emitNs: int, w: Window) {
    FrameForHostNs(anchors, emitNs + cfg.minNs) == Some(w.lo) && FrameForHostNs(anchors, emitNs + cfg.maxNs) == Some(w.hi)
  }

  // Whole samples around a window and the burst behind its end, with less than a sample to spare on either side.
  ghost predicate Around(w: Window, length: nat, first: int, last: int) {
    first as real <= w.lo < first as real + 1.0 && w.hi <= (last - length) as real < w.hi + 1.0
  }

  // What the search of this slice says.
  ghost predicate SearchSays(anchors: seq<Anchor>, slice: seq<real>, needle: seq<real>, find: Detector, p: Pending,
                             first: int, v: Verdict) {
    var d := find(slice, needle);
    && (!d.found ==> v == NotFound(d.peak, d.psr))
    && (d.found ==>
          && v.Hit? && v.sample.id == p.id && v.sample.peak == d.peak && v.sample.psr == d.psr
          && exists received: int ::
               && HostNsForFrame(anchors, first as real + d.lag) == Some(received)
               && v.sample.latencyMs == (received - p.emitNs) as real / 1000000.0)
  }

  lemma SliceIs(anchors: seq<Anchor>, cfg: Config, emitNs: int, length: nat, w: Window)
    requires cfg.minNs <= cfg.maxNs && WindowIs(anchors, cfg, emitNs, w)
    ensures var s := SliceFor(anchors, cfg, emitNs, length); s.Some? && Around(w, length, s.value.0, s.value.1)
  {
    hide FrameForHostNs;
  }

  /**
   Without a map an emission waits until its deadline and is a gap from then on. With one: a window before the first
   sample is a gap; a window whose audio has not all come waits until the deadline; a window older than the six
   seconds kept is a gap; and any other is searched, from its first to its last possible sample.
   */
  lemma VerdictIs(stream: seq<real>, anchors: seq<Anchor>, cfg: Config, needle: seq<real>, find: Detector,
                  now: int, p: Pending, w: Window)
    requires cfg.minNs <= cfg.maxNs
    ensures var v := Judge(stream, anchors, cfg, needle, find, now, p);
            var late := if now < p.emitNs + cfg.maxNs + cfg.graceNs then Wait else Gap;
            && (SliceFor(anchors, cfg, p.emitNs, |needle|).None? ==> v == late)
            && (WindowIs(anchors, cfg, p.emitNs, w) ==>
                  if w.lo < 0.0 then v == Gap
                  else if w.hi + |needle| as real > |stream| as real then v == late
                  else if w.lo < (|stream| - 288000) as real then v == Gap
                  else exists first: nat, last: nat ::
                         && first <= last <= |stream| && Around(w, |needle|, first, last)
                         && SearchSays(anchors, stream[first..last], needle, find, p, first, v))
  {
    hide SliceFor, HostNsForFrame, FrameForHostNs;
    if WindowIs(anchors, cfg, p.emitNs, w) {
      SliceIs(anchors, cfg, p.emitNs, |needle|, w);
      var (first, last) := SliceFor(anchors, cfg, p.emitNs, |needle|).value;
      if 0 <= first && last <= |stream| && first >= Oldest(|stream|) {
        var d := find(stream[first..last], needle);
        FoundIsTimed(anchors, cfg, p, |needle|, first, d);
        var v := Judge(stream, anchors, cfg, needle, find, now, p);
        assert SearchSays(anchors, stream[first..last], needle, find, p, first, v);
      }
    }
  }

  // ----- the matched filter as the detector ------------------------------------------------------------------

  function Matched(cfg: Correlator.Config): Detector {
    (haystack, needle) =>
      var d := Correlator.Detect(haystack, needle, cfg);
      Detection(d.found, d.lag as real + d.offset, cfg.root(d.peak2), cfg.root(d.psr2))
  }

  // The burst found in a slice beats every lag outside its guard band, and is placed to within half a sample.
  ghost predicate StandsOut(slice: seq<real>, needle: seq<real>, cfg: Correlator.Config, lag: real) {
    var d := Correlator.Detect(slice, needle, cfg);
    && d.found && Correlator.Reaches(d.peak2, cfg.minPeak)
    && lag == d.lag as real + d.offset && -0.5 <= d.offset <= 0.5
    && forall k: nat :: Correlator.Outside(slice, needle, d.lag, cfg.guard, k) ==>
         var other := Correlator.Direct(slice, needle, k);
         other <= Correlator.TINY || RealArithmetic.Product(RealArithmetic.Square(cfg.minPsr), other) <= d.peak2
  }

  lemma FoundStandsOut(slice: seq<real>, needle: seq<real>, cfg: Correlator.Config)
    requires Correlator.IsRoot(cfg.root) && cfg.minPsr > 0.0 && Matched(cfg)(slice, needle).found
    ensures StandsOut(slice, needle, cfg, Matched(cfg)(slice, needle).lag)
  {
    hide Correlator.Judge, Correlator.Direct, Correlator.Near, Correlator.Reaches;
    hide Correlator.Searchable, RealArithmetic.Product, RealArithmetic.Square;
    Correlator.FoundReaches(slice, needle, cfg);
    Correlator.OffsetWithinHalf(slice, needle, cfg);
    var d := Correlator.Detect(slice, needle, cfg);
    forall k: nat | Correlator.Outside(slice, needle, d.lag, cfg.guard, k)
      ensures var other := Correlator.Direct(slice, needle, k);
              || other <= Correlator.TINY
              || RealArithmetic.Product(RealArithmetic.Square(cfg.minPsr), other) <= d.peak2
    {
      Correlator.FoundStandsOut(slice, needle, cfg, k);
    }
  }

  /**
   With the matched filter: every latency reported is that of a burst that stands out from the captured audio of
   its own search window, timed by where it stands out.
   */
  lemma HitStandsOut(stream: seq<real>, anchors: seq<Anchor>, cfg: Config, needle: seq<real>,
                     filter: Correlator.Config, now: int, p: Pending)
    requires cfg.minNs <= cfg.maxNs && Correlator.IsRoot(filter.root) && filter.minPsr > 0.0
    requires Judge(stream, anchors, cfg, needle, Matched(filter), now, p).Hit?
    ensures var sample := Judge(stream, anchors, cfg, needle, Matched(filter), now, p).sample;
            exists first: nat, last: nat, lag: real ::
              && first <= last <= |stream| && SliceFor(anchors, cfg, p.emitNs, |needle|) == Some((first, last))
              && StandsOut(stream[first..last], needle, filter, lag)
              && var received := HostNsForFrame(anchors, first as real + lag);
                 && received.Some? && sample.id == p.id
                 && sample.latencyMs == (received.value - p.emitNs) as real / 1000000.0
                 && sample.peak == filter.root(Correlator.Detect(stream[first..last], needle, filter).peak2)
                 && sample.psr == filter.root(Correlator.Detect(stream[first..last], needle, filter).psr2)
  {
    hide SliceFor, HostNsForFrame, StandsOut, Oldest;
    var (first, last) := SliceFor(anchors, cfg, p.emitNs, |needle|).value;
    var lag := Matched(filter)(stream[first..last], needle).lag;
    FoundStandsOut(stream[first..last], needle, filter);
    assert StandsOut(stream[first..last], needle, filter, lag);
  }

  // ----- settling the verdicts ---------------------------------------------------------------------------

  datatype Book = Book(still: seq<Pending>, samples: seq<Sample>, stats: Stats)

  function Settle(b: Book, p: Pending, v: Verdict): Book {
    match v
    case Wait => b.(still := b.still + [p])
    case Gap => b.(stats := b.stats.(dataGap := b.stats.dataGap + 1))
    case NotFound(peak, psr) => b.(stats := Failed(b.stats, peak, psr))
    case Hit(sample) => b.(samples := b.samples + [sample], stats := b.stats.(resolved := b.stats.resolved + 1))
  }

  function Failed(s: Stats, peak: real, psr: real): Stats {
    var counted := s.(noDetection := s.noDetection + 1);
    if peak > s.bestPeak then counted.(bestPeak := peak, bestPsr := psr) else counted
  }

  function Rated(s: Stats, anchors: seq<Anchor>): Stats {
    var rate := MeasuredRateHz(anchors);
    if rate.Some? then s.(rateHz := rate.value) else s
  }

  lemma {:induction false} SettlingKeepsRate(b: Book, pending: seq<Pending>, judge: Pending -> Verdict)
    ensures SettleAll(b, pending, judge).stats.rateHz == b.stats.rateHz
    decreases |pending|
  {
    if pending != [] { SettlingKeepsRate(b, pending[..|pending| - 1], judge); }
  }

  lemma RatedKeeps(s: Stats, anchors: seq<Anchor>)
    ensures Settled(Rated(s, anchors)) == Settled(s) && Rated(s, anchors).emitted == s.emitted
    ensures Rated(s, anchors).resolved == s.resolved
    ensures var rate := MeasuredRateHz(anchors);
            Rated(s, anchors).rateHz == if rate.Some? then rate.value else s.rateHz
  {
    hide MeasuredRateHz;
  }

  function Counted(b: Book): Book {
    b.(stats := b.stats.(pending := |b.still|))
  }

  function SettleAll(b: Book, pending: seq<Pending>, judge: Pending -> Verdict): Book {
    if pending == [] then b
    else
      var n := |pending| - 1;
      Settle(SettleAll(b, pending[..n], judge), pending[n], judge(pending[n]))
  }

  lemma SettleNext(b: Book, pending: seq<Pending>, judge: Pending -> Verdict, i: nat)
    requires i < |pending|
    ensures SettleAll(b, pending[..i + 1], judge)
         == Settle(SettleAll(b, pending[..i], judge), pending[i], judge(pending[i]))
  {
    hide Settle;
    assert pending[..i + 1][..i] == pending[..i];
  }

  function Settled(s: Stats): nat {
    s.resolved + s.noDetection + s.dataGap
  }

  /** Every emission judged is counted exactly once or still waiting; samples are the resolved ones. */
  lemma {:induction false} SettlingBalances(b: Book, pending: seq<Pending>, judge: Pending -> Verdict)
    ensures var r := SettleAll(b, pending, judge);
            && Settled(r.stats) + |r.still| == Settled(b.stats) + |b.still| + |pending|
            && |r.samples| + b.stats.resolved == |b.samples| + r.stats.resolved
            && r.stats.emitted == b.stats.emitted
    decreases |pending|
  {
    if pending != [] { SettlingBalances(b, pending[..|pending| - 1], judge); }
  }

  // Where in the list a kind of verdict is given.
  ghost function Cases(pending: seq<Pending>, judge: Pending -> Verdict, kind: Verdict -> bool): set<nat> {
    set i: nat | i < |pending| && kind(judge(pending[i]))
  }

  ghost function IsWait(): Verdict -> bool { (v: Verdict) => v.Wait? }

  ghost function IsGap(): Verdict -> bool { (v: Verdict) => v.Gap? }

  ghost function IsNotFound(): Verdict -> bool { (v: Verdict) => v.NotFound? }

  ghost function IsHit(): Verdict -> bool { (v: Verdict) => v.Hit? }

  lemma CasesSnoc(pending: seq<Pending>, judge: Pending -> Verdict, kind: Verdict -> bool)
    requires pending != []
    ensures var n := |pending| - 1;
            |Cases(pending, judge, kind)| == |Cases(pending[..n], judge, kind)| + if kind(judge(pending[n])) then 1 else 0
  {
    var n := |pending| - 1;
    var fewer := Cases(pending[..n], judge, kind);
    assert Cases(pending, judge, kind) == if kind(judge(pending[n])) then fewer + {n} else fewer;
  }

  /** Each counter grows by the verdicts it is named for. */
  lemma {:induction false} CountersMean(b: Book, pending: seq<Pending>, judge: Pending -> Verdict)
    ensures var r := SettleAll(b, pending, judge);
            && r.stats.dataGap == b.stats.dataGap + |Cases(pending, judge, IsGap())|
            && r.stats.noDetection == b.stats.noDetection + |Cases(pending, judge, IsNotFound())|
            && r.stats.resolved == b.stats.resolved + |Cases(pending, judge, IsHit())|
            && |r.still| == |b.still| + |Cases(pending, judge, IsWait())|
            && |r.samples| == |b.samples| + |Cases(pending, judge, IsHit())|
    decreases |pending|
  {
    if pending != [] {
      CountersMean(b, pending[..|pending| - 1], judge);
      CasesSnoc(pending, judge, IsGap());
      CasesSnoc(pending, judge, IsNotFound());
      CasesSnoc(pending, judge, IsHit());
      CasesSnoc(pending, judge, IsWait());
    }
  }

  lemma {:induction false} SettleKeeps(b: Book, pending: seq<Pending>, judge: Pending -> Verdict, k: nat)
    requires k <= |pending|
    ensures SettleAll(b, pending[..k], judge).still <= SettleAll(b, pending, judge).still
    ensures SettleAll(b, pending[..k], judge).samples <= SettleAll(b, pending, judge).samples
    decreases |pending|
  {
    if k == |pending| {
      assert pending[..k] == pending;
    } else {
      SettleKeeps(b, pending[..|pending| - 1], judge, k);
      assert pending[..|pending| - 1][..k] == pending[..k];
    }
  }

  /** What is kept and what is reported stand behind what was there, in the order of the emissions. */
  lemma SettledInOrder(b: Book, pending: seq<Pending>, judge: Pending -> Verdict, k: nat)
    requires k < |pending|
    ensures var r, before := SettleAll(b, pending, judge), pending[..k];
            && b.still <= r.still && b.samples <= r.samples
            && (judge(pending[k]).Wait? ==>
                  var i := |b.still| + |Cases(before, judge, IsWait())|; i < |r.still| && r.still[i] == pending[k])
            && (judge(pending[k]).Hit? ==>
                  var i := |b.samples| + |Cases(before, judge, IsHit())|;
                  i < |r.samples| && r.samples[i] == judge(pending[k]).sample)
  {
    hide Cases;
    SettleNext(b, pending, judge, k);
    CountersMean(b, pending[..k], judge);
    SettleKeeps(b, pending, judge, 0);
    SettleKeeps(b, pending, judge, k + 1);
  }

  // The best failure on record: the strongest there was, and the first as strong as that.
  ghost predicate BestIs(peak: real, psr: real, s: Stats, pending: seq<Pending>, judge: Pending -> Verdict) {
    && s.bestPeak <= peak
    && (forall i :: 0 <= i < |pending| && judge(pending[i]).NotFound? ==> judge(pending[i]).peak <= peak)
    && (peak == s.bestPeak ==> psr == s.bestPsr)
    && (peak > s.bestPeak ==>
          exists i :: 0 <= i < |pending| && judge(pending[i]) == NotFound(peak, psr)
                      && forall j :: 0 <= j < i && judge(pending[j]).NotFound? ==> judge(pending[j]).peak < peak)
  }

  lemma BestKeeps(peak: real, psr: real, s: Stats, pending: seq<Pending>, judge: Pending -> Verdict)
    requires pending != [] && BestIs(peak, psr, s, pending[..|pending| - 1], judge)
    requires judge(pending[|pending| - 1]).NotFound? ==> judge(pending[|pending| - 1]).peak <= peak
    ensures BestIs(peak, psr, s, pending, judge)
  {
    var n := |pending| - 1;
    assert forall i :: 0 <= i < n ==> pending[..n][i] == pending[i];
  }

  lemma BestYields(peak: real, psr: real, s: Stats, pending: seq<Pending>, judge: Pending -> Verdict)
    requires pending != [] && BestIs(peak, psr, s, pending[..|pending| - 1], judge)
    requires judge(pending[|pending| - 1]).NotFound? && judge(pending[|pending| - 1]).peak > peak
    ensures var v := judge(pending[|pending| - 1]); BestIs(v.peak, v.psr, s, pending, judge)
  {
    var n := |pending| - 1;
    assert forall i :: 0 <= i < n ==> pending[..n][i] == pending[i];
    assert judge(pending[n]) == NotFound(judge(pending[n]).peak, judge(pending[n]).psr);
  }

  lemma {:induction false} BestFailure(b: Book, pending: seq<Pending>, judge: Pending -> Verdict)
    ensures var s := SettleAll(b, pending, judge).stats; BestIs(s.bestPeak, s.bestPsr, b.stats, pending, judge)
    decreases |pending|
  {
    if pending != [] {
      hide BestIs;
      var n := |pending| - 1;
      BestFailure(b, pending[..n], judge);
      var s, v := SettleAll(b, pending[..n], judge).stats, judge(pending[n]);
      if v.NotFound? && v.peak > s.bestPeak {
        BestYields(s.bestPeak, s.bestPsr, b.stats, pending, judge);
      } else {
        BestKeeps(s.bestPeak, s.bestPsr, b.stats, pending, judge);
      }
    }
  }

  // Those judged Wait, in order.
  function Waiting(pending: seq<Pending>, judge: Pending -> Verdict): seq<Pending> {
    if pending == [] then []
    else
      var n := |pending| - 1;
      Waiting(pending[..n], judge) + if judge(pending[n]).Wait? then [pending[n]] else []
  }

  lemma {:induction false} StillIsWaiting(b: Book, pending: seq<Pending>, judge: Pending -> Verdict)
    ensures SettleAll(b, pending, judge).still == b.still + Waiting(pending, judge)
    decreases |pending|
  {
    if pending != [] { StillIsWaiting(b, pending[..|pending| - 1], judge); }
  }

  /** Nothing waits past its deadline. */
  lemma {:induction false} NoneWaitsTooLong(pending: seq<Pending>, judge: Pending -> Verdict, p: Pending,
                                            stream: seq<real>, anchors: seq<Anchor>, cfg: Config,
                                            needle: seq<real>, find: Detector, now: int)
    requires cfg.minNs <= cfg.maxNs && judge(p) == Judge(stream, anchors, cfg, needle, find, now, p)
    requires p in Waiting(pending, judge)
    ensures p in pending && now < p.emitNs + cfg.maxNs + cfg.graceNs
    decreases |pending|
  {
    hide SliceFor, HostNsForFrame;
    var n := |pending| - 1;
    if p in Waiting(pending[..n], judge) {
      NoneWaitsTooLong(pending[..n], judge, p, stream, anchors, cfg, needle, find, now);
      assert pending[..n] <= pending;
    }
  }

  // Every capture block ends later in the stream than the one before.
  ghost predicate FramesAdvance(history: seq<Anchor>, total: nat) {
    && (forall i :: 0 <= i < |history| ==> history[i].frame <= total as real)
    && (forall i, j :: 0 <= i < j < |history| ==> history[i].frame < history[j].frame)
  }

  lemma FramesStillAdvance(history: seq<Anchor>, total: nat, more: nat, hostNs: int)
    requires FramesAdvance(history, total) && total < more
    ensures FramesAdvance(history + [Anchor(more as real, hostNs as real)], more)
  {
  }

  ghost predicate ClockRunsOn(history: seq<Anchor>) {
    forall i, j :: 0 <= i < j < |history| ==> history[i].host <= history[j].host
  }

  lemma LatestAdvances(history: seq<Anchor>, window: nat, total: nat)
    requires FramesAdvance(history, total) && ClockRunsOn(history)
    ensures TimebaseSlope.Advances(Latest(history, window))
  {
  }

  // ----- the object ----------------------------------------------------------------------------------------

  class LatencyProbe {
    const up: seq<real>
    const down: seq<real>
    const cfg: Config
    const timebase: CaptureTimebase
    var capture: seq<real>
    var base: nat
    var total: nat
    var pending: seq<Pending>
    var samples: seq<Sample>
    var stats: Stats
    ghost var stream: seq<real>   // everything ever captured

    // The buffer is the most recent stretch of the stream.
    ghost predicate Buffered()
      reads this`capture, this`base, this`total, this`stream
    {
      total == |stream| && base == Oldest(total) && base <= total && capture == stream[base..]
    }

    ghost predicate Accounted()
      reads this`stats, this`pending, this`samples
    {
      stats.emitted == Settled(stats) + |pending| && |samples| == stats.resolved
    }

    ghost predicate Valid()
      reads this, timebase
    {
      cfg.minNs <= cfg.maxNs && timebase.Valid() && FramesAdvance(timebase.history, total) && Buffered() && Accounted()
    }

    constructor (burstUp: seq<real>, burstDown: seq<real>, config: Config)
      requires config.minNs <= config.maxNs
      ensures Valid() && fresh(timebase) && stream == [] && pending == [] && cfg == config
      ensures up == burstUp && down == burstDown
    {
      up, down, cfg := burstUp, burstDown, config;
      capture, base, total, pending, samples, stream := [], 0, 0, [], [], [];
      stats := Stats(0, 0, 0, 0, 0, 0.0, 0.0, 0.0);
      timebase := new CaptureTimebase(200);
      new;
      hide Latest;
      assert Buffered() && Accounted();
    }

    method OnEmission(id: int, isUp: bool, hostNs: int)
      requires Valid()
      modifies this`pending, this`stats
      ensures Valid() && pending == old(pending) + [Pending(id, isUp, hostNs)]
      ensures stats == old(stats).(emitted := old(stats).emitted + 1)
    {
      pending := pending + [Pending(id, isUp, hostNs)];
      stats := stats.(emitted := stats.emitted + 1);
    }

    // Drops what is older than six seconds.
    method Trim()
      requires total == |stream| && base <= Oldest(total) && capture == stream[base..]
      modifies this`capture, this`base
      ensures Buffered()
    {
      if |capture| > MAX_HOLD {
        var drop := |capture| - MAX_HOLD;
        capture := capture[drop..];
        base := base + drop;
      }
    }

    method OnCapture(mono: seq<real>, hostNs: int)
      requires Valid()
      modifies this`capture, this`base, this`total, this`stream, timebase
      ensures Valid() && stream == old(stream) + mono
      ensures timebase.history
           == old(timebase.history) + if mono == [] then [] else [Anchor(|stream| as real, hostNs as real)]
    {
      hide Latest, FramesAdvance;
      if |mono| == 0 {
        assert stream + mono == stream;
        return;
      }
      capture := capture + mono;
      total := total + |mono|;
      stream := stream + mono;
      FramesStillAdvance(timebase.history, old(total), total, hostNs);
      timebase.AddAnchor(total, hostNs);
      Trim();
      assert Accounted();
    }

    // One pending emission, judged from the buffer with the source's own checks.
    method Examine(p: Pending, now: int, find: Detector) returns (v: Verdict)
      requires Valid()
      ensures v == Judge(stream, timebase.anchors, cfg, if p.up then up else down, find, now, p)
    {
      hide FitOf;
      var needle := if p.up then up else down;
      var giveUp := p.emitNs + cfg.maxNs + cfg.graceNs;
      var newest := base + |capture|;
      var slice := SliceFor(timebase.anchors, cfg, p.emitNs, |needle|);
      if slice.None? {
        v := Hold(now, giveUp);
      } else {
        var (first, last) := slice.value;
        if first < 0 {
          v := Gap;
        } else if last > newest {
          v := Hold(now, giveUp);
        } else if first < base {
          v := Gap;
        } else {
          v := Search(p, first, last, needle, find);
        }
      }
    }

    /** The slice searched is exactly the captured samples of its index range: the last check never fails. */
    method Search(p: Pending, first: nat, last: nat, needle: seq<real>, find: Detector) returns (v: Verdict)
      requires Valid() && base <= first <= last <= base + |capture|
      ensures last <= |stream|
      ensures var d := find(stream[first..last], needle);
              v == if d.found then Received(timebase.anchors, p, first, d) else NotFound(d.peak, d.psr)
    {
      hide Received;
      var offset, length := first - base, last - first;
      if offset + length > |capture| {
        v := Gap;
      } else {
        assert capture[offset..offset + length] == stream[first..last];
        var d := find(capture[offset..offset + length], needle);
        v := if d.found then Received(timebase.anchors, p, first, d) else NotFound(d.peak, d.psr);
      }
    }

    ghost function Judged(now: int, find: Detector): (judge: Pending -> Verdict)
      requires cfg.minNs <= cfg.maxNs
      reads this`stream, timebase`anchors
      ensures forall p :: judge(p) == Judge(stream, timebase.anchors, cfg, if p.up then up else down, find, now, p)
    {
      var s, a, c, u, d := stream, timebase.anchors, cfg, up, down;
      (p: Pending) => if c.minNs <= c.maxNs then Judge(s, a, c, if p.up then u else d, find, now, p) else Gap
    }

    // The loop.
    method ExamineAll(now: int, find: Detector) returns (book: Book)
      requires Valid()
      ensures book == SettleAll(Book([], samples, Rated(stats, timebase.anchors)), pending, Judged(now, find))
    {
      hide Judge, Settle, Rated;
      book := Book([], samples, Rated(stats, timebase.anchors));
      ghost var start, judge := book, Judged(now, find);
      for i := 0 to |pending|
        invariant book == SettleAll(start, pending[..i], judge)
      {
        SettleNext(start, pending, judge, i);
        var v := Examine(pending[i], now, find);
        book := Settle(book, pending[i], v);
      }
      assert pending[..|pending|] == pending;
    }

    /** Every pending emission is judged once against the stream, and counted once. */
    method Resolve(now: int, find: Detector)
      requires Valid()
      modifies this`pending, this`samples, this`stats
      ensures Valid()
      ensures old(pending) == [] ==> unchanged(this)
      ensures pending == Waiting(old(pending), Judged(now, find))
      ensures old(pending) != [] ==>
        Book(pending, samples, stats) ==
          Counted(SettleAll(Book([], old(samples), Rated(old(stats), timebase.anchors)), old(pending), Judged(now, find)))
      ensures old(pending) != [] ==> stats.pending == |pending|
      ensures var rate := MeasuredRateHz(timebase.anchors);
              old(pending) != [] ==> stats.rateHz == if rate.Some? then rate.value else old(stats.rateHz)
    {
      if pending == [] { return; }
      hide SettleAll, Rated, Waiting, FramesAdvance, Latest;
      ghost var start := Book([], samples, Rated(stats, timebase.anchors));
      var book := ExamineAll(now, find);
      RatedKeeps(stats, timebase.anchors);
      StillIsWaiting(start, pending, Judged(now, find));
      SettlingBalances(start, pending, Judged(now, find));
      SettlingKeepsRate(start, pending, Judged(now, find));
      pending, samples, stats := book.still, book.samples, book.stats.(pending := |book.still|);
    }
  }

  /**
   With a clock that does not run back, eight captures are enough: from then on an emission is held for
   want of a time map only while the clock stood still over the whole window.
   */
  lemma MapMissingIff(p: LatencyProbe, emitNs: int, length: nat)
    requires p.Valid() && ClockRunsOn(p.timebase.history) && |p.timebase.anchors| >= MIN_ANCHORS
    ensures SliceFor(p.timebase.anchors, p.cfg, emitNs, length).None? <==> !TimebaseSlope.ClockMoved(p.timebase.anchors)
  {
    hide FrameForHostNs, HostNsForFrame, FramesAdvance, ClockRunsOn, TimebaseSlope.Advances, TimebaseSlope.ClockMoved;
    LatestAdvances(p.timebase.history, p.timebase.window, p.total);
    TimebaseSlope.MapsAnswerIff(p.timebase.anchors, 0.0, emitNs + p.cfg.minNs);
    TimebaseSlope.MapsAnswerIff(p.timebase.anchors, 0.0, emitNs + p.cfg.maxNs);
  }
}
