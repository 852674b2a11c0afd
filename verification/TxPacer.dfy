/**
 The fixed-cadence transmit thread: src/audio/tx_pacer.cpp. One run is driven by a finite trace of what
 the outside does at each tick: the clock readings it sleeps through, the frames the producer
 pushes meanwhile, whether the send window is open, and what the sink answers. The clock never runs
 backwards, so later readings are given as delays.
 */
module TxPacer {
  import opened FrameRing
  import opened Options

  const FRAME_SAMPLES := 960
  const PERIOD_NS := 20000000

  datatype TxFrame = TxFrame(pcm: seq<int>, number: nat, markId: int, markOffset: int, markFlag: bool)

  datatype Emission = Emission(markId: int, markFlag: bool, hostNs: int)

  // What happens around one tick.
  datatype Moment = Moment(readings: seq<int>, lag: nat, arrivals: seq<TxFrame>, canSend: bool,
                           handover: nat, accepted: bool)

  datatype Stats = Stats(ticks: nat, sends: nat, underruns: nat, gated: nat, errors: nat,
                         lateSum: real, maxLate: real, meanLate: real)

  // What one tick did.
  datatype Record = Record(target: int, actual: int, frame: Option<TxFrame>, canSend: bool, accepted: bool, emitNs: int)

  function Silence(): seq<int> {
    seq(FRAME_SAMPLES, _ => 0)
  }

  // ----- the reference: everything a run leaves behind, from its record ------------------------------

  function LateMs(r: Record): real {
    (r.actual - r.target) as real / 1000000.0
  }

  function CountTick(s: Stats, r: Record): Stats {
    var sum := s.lateSum + LateMs(r);
    s.(ticks := s.ticks + 1,
       lateSum := sum,
       maxLate := if LateMs(r) > s.maxLate then LateMs(r) else s.maxLate,
       meanLate := sum / (s.ticks + 1) as real,
       underruns := s.underruns + if r.frame.None? then 1 else 0,
       gated := s.gated + if r.canSend then 0 else 1)
  }

  function CountSend(s: Stats, r: Record): Stats {
    if !r.canSend then s
    else if r.accepted then s.(sends := s.sends + 1)
    else s.(errors := s.errors + 1)
  }

  function Tally(s: Stats, log: seq<Record>): Stats {
    if log == [] then s
    else
      var n := |log| - 1;
      CountSend(CountTick(Tally(s, log[..n]), log[n]), log[n])
  }

  function PcmOf(r: Record): seq<int> {
    if r.frame.Some? then r.frame.value.pcm else Silence()
  }

  function SentOf(log: seq<Record>): seq<seq<int>> {
    if log == [] then []
    else
      var n := |log| - 1;
      SentOf(log[..n]) + if log[n].canSend then [PcmOf(log[n])] else []
  }

  function PoppedOf(log: seq<Record>): seq<TxFrame> {
    if log == [] then []
    else
      var n := |log| - 1;
      PoppedOf(log[..n]) + if log[n].frame.Some? then [log[n].frame.value] else []
  }

  // Truncating division, as the conversion to an integer does.
  function Truncated(a: int, b: int): int
    requires b > 0
  {
    if a >= 0 then a / b else -((-a) / b)
  }

  // Nanoseconds of so many samples at 48 kHz.
  function SamplesNs(offset: int): int {
    Truncated(offset * 62500, 3)
  }

  predicate Marked(r: Record) {
    r.canSend && r.accepted && r.frame.Some? && r.frame.value.markId >= 0
  }

  function EmissionOf(r: Record): Emission
    requires Marked(r)
  {
    var f := r.frame.value;
    Emission(f.markId, f.markFlag, r.emitNs + SamplesNs(f.markOffset))
  }

  function EmissionsOf(log: seq<Record>): seq<Emission> {
    if log == [] then []
    else
      var n := |log| - 1;
      EmissionsOf(log[..n]) + if Marked(log[n]) then [EmissionOf(log[n])] else []
  }

  function ArrivalsOf(moments: seq<Moment>): seq<TxFrame> {
    if moments == [] then []
    else ArrivalsOf(moments[..|moments| - 1]) + moments[|moments| - 1].arrivals
  }

  // ----- the run ----------------------------------------------------------------------------------------

  function Target(start: int, tick: nat): int {
    start + tick * PERIOD_NS
  }

  // Sleeping ends: some reading reaches the target.
  ghost predicate Passes(readings: seq<int>, target: int) {
    exists i :: 0 <= i < |readings| && readings[i] >= target
  }

  // The first reading at or past the target.
  ghost predicate Woke(readings: seq<int>, target: int, now: int) {
    exists i :: 0 <= i < |readings| && readings[i] == now >= target && forall k :: 0 <= k < i ==> readings[k] < target
  }

  method SleepUntil(readings: seq<int>, target: int) returns (now: int)
    requires Passes(readings, target)
    ensures now >= target
    ensures Woke(readings, target, now)
  {
    var i := 0;
    while i < |readings| && readings[i] < target
      invariant 0 <= i <= |readings| && forall k :: 0 <= k < i ==> readings[k] < target
    {
      i := i + 1;
    }
    now := readings[i];
  }

  // What a queue of that size keeps: the newest.
  function Kept<T>(queue: seq<T>, size: nat): seq<T> {
    if |queue| <= size then queue else queue[|queue| - size..]
  }

  lemma KeepsOneMore<T>(had: seq<T>, arrivals: seq<T>, i: nat, size: nat)
    requires i < |arrivals| && size > 0
    ensures Kept(had + arrivals[..i + 1], size)
         == (var q := Kept(had + arrivals[..i], size);
             if |q| == size then q[1..] + [arrivals[i]] else q + [arrivals[i]])
  {
    assert had + arrivals[..i + 1] == had + arrivals[..i] + [arrivals[i]];
  }

  lemma KeepsAll<T>(queue: seq<T>, arrivals: seq<T>, size: nat)
    requires |queue| <= size
    ensures Kept(queue + arrivals[..0], size) == queue
  {
    assert queue + arrivals[..0] == queue;
  }

  function Head<T>(queue: seq<T>): Option<T> {
    if queue == [] then None else Some(queue[0])
  }

  function Rest<T>(queue: seq<T>): seq<T> {
    if queue == [] then [] else queue[1..]
  }

  // The producer's pushes between two ticks.
  method Produce(ring: Ring<TxFrame>, arrivals: seq<TxFrame>)
    requires ring.Valid()
    modifies ring, ring.buf
    ensures ring.Valid() && ring.buf == old(ring.buf)
    ensures ring.pushed == old(ring.pushed) + arrivals && Taken(ring.gone) == Taken(old(ring.gone))
    ensures ring.queue == Kept(old(ring.queue) + arrivals, ring.buf.Length)
  {
    KeepsAll(ring.queue, arrivals, ring.buf.Length);
    for i := 0 to |arrivals|
      invariant ring.Valid() && ring.buf == old(ring.buf)
      invariant ring.pushed == old(ring.pushed) + arrivals[..i] && Taken(ring.gone) == Taken(old(ring.gone))
      invariant ring.queue == Kept(old(ring.queue) + arrivals[..i], ring.buf.Length)
    {
      hide Taken, Kept, Stored;
      assert old(ring.pushed) + arrivals[..i] + [arrivals[i]] == old(ring.pushed) + arrivals[..i + 1];
      KeepsOneMore(old(ring.queue), arrivals, i, ring.buf.Length);
      PushOne(ring, arrivals[i]);
    }
    assert arrivals[..|arrivals|] == arrivals;
  }

  method PushOne(ring: Ring<TxFrame>, f: TxFrame)
    requires ring.Valid()
    modifies ring, ring.buf
    ensures ring.Valid() && ring.buf == old(ring.buf)
    ensures ring.pushed == old(ring.pushed) + [f] && Taken(ring.gone) == Taken(old(ring.gone))
    ensures ring.queue == if |old(ring.queue)| == ring.buf.Length then old(ring.queue)[1..] + [f] else old(ring.queue) + [f]
  {
    hide Taken, Stored;
    if ring.queue != [] { Leave(ring.gone, Departure(ring.queue[0], false)); }
    ring.Push(f);
  }

  method PopOne(ring: Ring<TxFrame>) returns (frame: Option<TxFrame>)
    requires ring.Valid()
    modifies ring
    ensures ring.Valid() && ring.buf == old(ring.buf) && ring.pushed == old(ring.pushed)
    ensures Taken(ring.gone) == Taken(old(ring.gone)) + if frame.Some? then [frame.value] else []
    ensures frame == Head(old(ring.queue)) && ring.queue == Rest(old(ring.queue))
  {
    hide Taken, Stored;
    if ring.queue != [] { Leave(ring.gone, Departure(ring.queue[0], true)); }
    frame := ring.Pop();
  }

  class Pacer {
    var stats: Stats
    var sent: seq<seq<int>>         // what the sink was handed
    var emissions: seq<Emission>    // the emission callbacks

    constructor ()
      ensures stats == Stats(0, 0, 0, 0, 0, 0.0, 0.0, 0.0) && sent == [] && emissions == []
    {
      stats, sent, emissions := Stats(0, 0, 0, 0, 0, 0.0, 0.0, 0.0), [], [];
    }

    // The second half of the loop body: the handover.
    method HandOver(r: Record)
      modifies this
      ensures stats == CountSend(old(stats), r)
      ensures sent == old(sent) + if r.canSend then [PcmOf(r)] else []
      ensures emissions == old(emissions) + if Marked(r) then [EmissionOf(r)] else []
    {
      if !r.canSend { return; }
      var pcm := if r.frame.Some? then r.frame.value.pcm else Silence();
      sent := sent + [pcm];
      if r.accepted {
        stats := stats.(sends := stats.sends + 1);
      } else {
        stats := stats.(errors := stats.errors + 1);
      }
      if r.accepted && r.frame.Some? && r.frame.value.markId >= 0 {
        var f := r.frame.value;
        emissions := emissions + [Emission(f.markId, f.markFlag, r.emitNs + SamplesNs(f.markOffset))];
      }
    }

    // The loop body.
    method Tick(ring: Ring<TxFrame>, target: int, m: Moment) returns (r: Record)
      requires ring.Valid() && Passes(m.readings, target)
      modifies this, ring, ring.buf
      ensures ring.Valid() && ring.buf == old(ring.buf)
      ensures ring.pushed == old(ring.pushed) + m.arrivals
      ensures Taken(ring.gone) == Taken(old(ring.gone)) + if r.frame.Some? then [r.frame.value] else []
      ensures Woke(m.readings, target, r.actual - m.lag)
      ensures r.target == target <= r.actual <= r.emitNs == r.actual + m.handover
      ensures r.canSend == m.canSend && r.accepted == m.accepted
      ensures r.frame == Head(Kept(old(ring.queue) + m.arrivals, ring.buf.Length))
      ensures ring.queue == Rest(Kept(old(ring.queue) + m.arrivals, ring.buf.Length))
      ensures stats == CountSend(CountTick(old(stats), r), r)
      ensures sent == old(sent) + if r.canSend then [PcmOf(r)] else []
      ensures emissions == old(emissions) + if Marked(r) then [EmissionOf(r)] else []
    {
      hide Taken, CountTick, CountSend, PcmOf, EmissionOf, Kept, Head, Rest, Woke;
      var woke := SleepUntil(m.readings, target);
      var actual := woke + m.lag;
      Produce(ring, m.arrivals);
      var frame := PopOne(ring);
      r := Record(target, actual, frame, m.canSend, m.accepted, actual + m.handover);
      stats := CountTick(stats, r);
      HandOver(r);
    }

    /** The whole run: every tick on the absolute grid, and every count, send and callback accounted for. */
    method Run(ring: Ring<TxFrame>, start: int, moments: seq<Moment>) returns (log: seq<Record>)
      requires ring.Valid()
      requires forall k :: 0 <= k < |moments| ==> Passes(moments[k].readings, Target(start, k + 1))
      modifies this, ring, ring.buf
      ensures ring.Valid() && ring.pushed == old(ring.pushed) + ArrivalsOf(moments)
      ensures ring.buf == old(ring.buf) && Follows(start, old(ring.queue), ring.buf.Length, moments, log, |moments|)
      ensures ring.queue == QueueBefore(old(ring.queue), ring.buf.Length, moments, |moments|)
      ensures stats == Tally(old(stats), log)
      ensures Taken(ring.gone) == Taken(old(ring.gone)) + PoppedOf(log)
      ensures sent == old(sent) + SentOf(log) && emissions == old(emissions) + EmissionsOf(log)
    {
      hide *;
      log := [];
      var tick := 0;
      ghost var queue, size := ring.queue, ring.buf.Length;
      NothingLogged(stats, start, queue, size, moments);
      while tick < |moments|
        invariant tick <= |moments| && ring.Valid() && ring.buf == old(ring.buf)
        invariant ring.pushed == old(ring.pushed) + ArrivalsOf(moments[..tick])
        invariant Follows(start, queue, size, moments, log, tick)
        invariant ring.queue == QueueBefore(queue, size, moments, tick)
        invariant stats == Tally(old(stats), log)
        invariant Taken(ring.gone) == Taken(old(ring.gone)) + PoppedOf(log)
        invariant sent == old(sent) + SentOf(log) && emissions == old(emissions) + EmissionsOf(log)
      {
        tick := tick + 1;
        var r := Tick(ring, Target(start, tick), moments[tick - 1]);
        LogGrows(old(stats), log, r);
        Associates(old(Taken(ring.gone)), PoppedOf(log), if r.frame.Some? then [r.frame.value] else []);
        Associates(old(sent), SentOf(log), if r.canSend then [PcmOf(r)] else []);
        Associates(old(emissions), EmissionsOf(log), if Marked(r) then [EmissionOf(r)] else []);
        ArrivalsGrow(moments, tick - 1);
        Associates(old(ring.pushed), ArrivalsOf(moments[..tick - 1]), moments[tick - 1].arrivals);
        FollowsOn(start, queue, size, moments, log, tick - 1, r);
        log := log + [r];
      }
      assert moments[..|moments|] == moments;
    }
  }

  // What is queued when the n-th tick has been, or before the first.
  function QueueBefore(queue: seq<TxFrame>, size: nat, moments: seq<Moment>, n: nat): seq<TxFrame>
    requires n <= |moments|
  {
    if n == 0 then queue
    else Rest(Kept(QueueBefore(queue, size, moments, n - 1) + moments[n - 1].arrivals, size))
  }

  // The n-th tick aims at start + n*20 ms, whatever happened before, and never fires early.
  ghost predicate OfTick(r: Record, start: int, tick: nat, m: Moment) {
    && Woke(m.readings, r.target, r.actual - m.lag)
    && r.target == start + tick * 20000000 <= r.actual <= r.emitNs == r.actual + m.handover
    && r.canSend == m.canSend && r.accepted == m.accepted
  }

  ghost predicate Follows(start: int, queue: seq<TxFrame>, size: nat, moments: seq<Moment>, log: seq<Record>, n: nat)
    requires n <= |moments|
  {
    && |log| == n
    && (forall k :: 0 <= k < n ==> OfTick(log[k], start, k + 1, moments[k]))
    && (forall k :: 0 <= k < n ==>
          log[k].frame == Head(Kept(QueueBefore(queue, size, moments, k) + moments[k].arrivals, size)))
  }

  lemma FollowsOn(start: int, queue: seq<TxFrame>, size: nat, moments: seq<Moment>, log: seq<Record>, n: nat, r: Record)
    requires n < |moments| && Follows(start, queue, size, moments, log, n)
    requires r.target == Target(start, n + 1) <= r.actual <= r.emitNs == r.actual + moments[n].handover
    requires Woke(moments[n].readings, r.target, r.actual - moments[n].lag)
    requires r.canSend == moments[n].canSend && r.accepted == moments[n].accepted
    requires r.frame == Head(Kept(QueueBefore(queue, size, moments, n) + moments[n].arrivals, size))
    ensures Follows(start, queue, size, moments, log + [r], n + 1)
    ensures QueueBefore(queue, size, moments, n + 1)
         == Rest(Kept(QueueBefore(queue, size, moments, n) + moments[n].arrivals, size))
  {
    hide OfTick, Head, Kept, Rest, QueueBefore;
    AtTick(r, start, n + 1, moments[n]);
    QueueNext(queue, size, moments, n);
  }

  lemma QueueNext(queue: seq<TxFrame>, size: nat, moments: seq<Moment>, n: nat)
    requires n < |moments|
    ensures QueueBefore(queue, size, moments, n + 1)
         == Rest(Kept(QueueBefore(queue, size, moments, n) + moments[n].arrivals, size))
  {
  }

  lemma AtTick(r: Record, start: int, tick: nat, m: Moment)
    requires r.target == Target(start, tick) <= r.actual <= r.emitNs == r.actual + m.handover
    requires Woke(m.readings, r.target, r.actual - m.lag)
    requires r.canSend == m.canSend && r.accepted == m.accepted
    ensures OfTick(r, start, tick, m)
  {
    hide Woke;
  }

  lemma Associates<T>(a: seq<T>, b: seq<T>, c: seq<T>)
    ensures (a + b) + c == a + (b + c)
  {
  }

  lemma NothingLogged(s: Stats, start: int, queue: seq<TxFrame>, size: nat, moments: seq<Moment>)
    ensures Tally(s, []) == s && PoppedOf([]) == [] && SentOf([]) == [] && EmissionsOf([]) == []
    ensures ArrivalsOf(moments[..0]) == [] && Follows(start, queue, size, moments, [], 0)
    ensures QueueBefore(queue, size, moments, 0) == queue
  {
  }

  lemma LogGrows(s: Stats, log: seq<Record>, r: Record)
    ensures Tally(s, log + [r]) == CountSend(CountTick(Tally(s, log), r), r)
    ensures PoppedOf(log + [r]) == PoppedOf(log) + if r.frame.Some? then [r.frame.value] else []
    ensures SentOf(log + [r]) == SentOf(log) + if r.canSend then [PcmOf(r)] else []
    ensures EmissionsOf(log + [r]) == EmissionsOf(log) + if Marked(r) then [EmissionOf(r)] else []
  {
    hide CountTick, CountSend, PcmOf, Marked, EmissionOf;
    assert (log + [r])[..|log|] == log;
  }

  lemma ArrivalsGrow(moments: seq<Moment>, i: nat)
    requires i < |moments|
    ensures ArrivalsOf(moments[..i + 1]) == ArrivalsOf(moments[..i]) + moments[i].arrivals
  {
    assert moments[..i + 1][..i] == moments[..i];
  }

  // ----- what the counts mean ----------------------------------------------------------------------------

  /** Every tick is exactly one of sent, refused and gated; and exactly one of served and starved. */
  lemma {:induction false} CountsBalance(s: Stats, log: seq<Record>)
    ensures var t := Tally(s, log);
            && t.ticks == s.ticks + |log|
            && t.sends + t.errors + t.gated == s.sends + s.errors + s.gated + |log|
            && t.underruns + |PoppedOf(log)| == s.underruns + |log|
            && |SentOf(log)| == t.sends + t.errors - s.sends - s.errors
            && |EmissionsOf(log)| <= t.sends - s.sends
    decreases |log|
  {
    if log != [] { CountsBalance(s, log[..|log| - 1]); }
  }

  // Every frame queued at the start or come by the n-th tick.
  function CameBy(queue: seq<TxFrame>, moments: seq<Moment>, n: nat): seq<TxFrame>
    requires n <= |moments|
  {
    queue + ArrivalsOf(moments[..n])
  }

  // The queue neither runs dry nor over.
  ghost predicate KeepsUp(queue: seq<TxFrame>, size: nat, moments: seq<Moment>, n: nat)
    requires n <= |moments|
  {
    forall k :: 1 <= k <= n ==> k <= |CameBy(queue, moments, k)| < k + size
  }

  lemma CameNext(queue: seq<TxFrame>, moments: seq<Moment>, n: nat)
    requires n < |moments|
    ensures CameBy(queue, moments, n + 1) == CameBy(queue, moments, n) + moments[n].arrivals
  {
    ArrivalsGrow(moments, n);
    Associates(queue, ArrivalsOf(moments[..n]), moments[n].arrivals);
  }

  lemma KeptUpBefore(queue: seq<TxFrame>, size: nat, moments: seq<Moment>, n: nat)
    requires 0 < n <= |moments| && KeepsUp(queue, size, moments, n)
    ensures KeepsUp(queue, size, moments, n - 1) && n <= |CameBy(queue, moments, n)| < n + size
  {
    hide CameBy;
  }

  lemma OutAndIn<T>(before: seq<T>, arrivals: seq<T>, n: nat, size: nat)
    requires 0 < n <= |before| + 1 && n <= |before + arrivals| < n + size
    ensures Rest(Kept(before[n - 1..] + arrivals, size)) == (before + arrivals)[n..]
  {
    assert before[n - 1..] + arrivals == (before + arrivals)[n - 1..];
  }

  // Then it holds exactly what has come and not gone out yet.
  lemma {:induction false} QueueIs(queue: seq<TxFrame>, size: nat, moments: seq<Moment>, n: nat)
    requires n <= |moments| && KeepsUp(queue, size, moments, n)
    ensures |CameBy(queue, moments, n)| >= n
    ensures QueueBefore(queue, size, moments, n) == CameBy(queue, moments, n)[n..]
  {
    if n == 0 {
      assert CameBy(queue, moments, 0) == queue;
    } else {
      hide *;
      KeptUpBefore(queue, size, moments, n);
      QueueIs(queue, size, moments, n - 1);
      CameNext(queue, moments, n - 1);
      OutAndIn(CameBy(queue, moments, n - 1), moments[n - 1].arrivals, n, size);
      QueueNext(queue, size, moments, n - 1);
    }
  }

  /**
   As long as at least one frame per tick has come and no more wait than the queue holds, the n-th tick plays the
   n-th frame ever queued; and the first tick without a frame is the first for which too few have come.
   */
  lemma PlaysInOrder(start: int, queue: seq<TxFrame>, size: nat, moments: seq<Moment>, log: seq<Record>, k: nat)
    requires k < |moments| && Follows(start, queue, size, moments, log, |moments|)
    requires KeepsUp(queue, size, moments, k) && |CameBy(queue, moments, k + 1)| <= k + size
    ensures var all := CameBy(queue, moments, k + 1);
            log[k].frame == if k < |all| then Some(all[k]) else None
  {
    hide QueueBefore, OfTick, CameBy;
    QueueIs(queue, size, moments, k);
    CameNext(queue, moments, k);
    var before, all := CameBy(queue, moments, k), CameBy(queue, moments, k + 1);
    assert before[k..] + moments[k].arrivals == all[k..];
  }

  function CountOf(log: seq<Record>, p: Record -> bool): nat {
    if log == [] then 0
    else
      var n := |log| - 1;
      CountOf(log[..n], p) + if p(log[n]) then 1 else 0
  }

  function Accepted(): Record -> bool { (r: Record) => r.canSend && r.accepted }

  function Refused(): Record -> bool { (r: Record) => r.canSend && !r.accepted }

  function Gated(): Record -> bool { (r: Record) => !r.canSend }

  function Starved(): Record -> bool { (r: Record) => r.frame.None? }

  function Open(): Record -> bool { (r: Record) => r.canSend }

  function Audible(): Record -> bool {
    (r: Record) => r.canSend && r.accepted && r.frame.Some? && r.frame.value.markId >= 0
  }

  /** Each counter counts the ticks it is named for, and the callbacks are those of the marked, accepted frames. */
  lemma {:induction false} CountsMean(s: Stats, log: seq<Record>)
    ensures var t := Tally(s, log);
            && t.sends == s.sends + CountOf(log, Accepted())
            && t.errors == s.errors + CountOf(log, Refused())
            && t.gated == s.gated + CountOf(log, Gated())
            && t.underruns == s.underruns + CountOf(log, Starved())
            && |EmissionsOf(log)| == CountOf(log, Audible())
    decreases |log|
  {
    if log != [] { CountsMean(s, log[..|log| - 1]); }
  }

  lemma {:induction false} CountBelow(log: seq<Record>, p: Record -> bool, k: nat)
    requires k < |log| && p(log[k])
    ensures CountOf(log[..k], p) < CountOf(log, p)
    decreases |log|
  {
    var n := |log| - 1;
    if k < n {
      CountBelow(log[..n], p, k);
      assert log[..n][..k] == log[..k];
    }
  }

  /** On the k-th tick, if the window is open, the sink gets the frame, or silence for want of one: as the call whose
      number is that of the open ticks before. */
  lemma {:induction false} SentAt(log: seq<Record>, k: nat)
    requires k < |log| && log[k].canSend
    ensures CountOf(log[..k], Open()) < |SentOf(log)| == CountOf(log, Open())
    ensures var pcm := SentOf(log)[CountOf(log[..k], Open())];
            && (log[k].frame.Some? ==> pcm == log[k].frame.value.pcm)
            && (log[k].frame.None? ==> |pcm| == 960 && forall i :: 0 <= i < 960 ==> pcm[i] == 0)
    decreases |log|
  {
    var n := |log| - 1;
    SentCount(log);
    CountBelow(log, Open(), k);
    SentCount(log[..n]);
    if k < n {
      SentAt(log[..n], k);
      assert log[..n][..k] == log[..k];
    }
  }

  lemma {:induction false} SentCount(log: seq<Record>)
    ensures |SentOf(log)| == CountOf(log, Open())
    decreases |log|
  {
    if log != [] { SentCount(log[..|log| - 1]); }
  }

  lemma {:induction false} EmissionCount(log: seq<Record>)
    ensures |EmissionsOf(log)| == CountOf(log, Audible())
    decreases |log|
  {
    if log != [] { EmissionCount(log[..|log| - 1]); }
  }

  /** A frame that carries a mark and is accepted is reported with that mark, at the handover's time plus the mark's
      place in the frame, in order; and nothing else is reported. */
  lemma {:induction false} EmissionAt(log: seq<Record>, k: nat)
    requires k < |log| && log[k].canSend && log[k].accepted
    requires log[k].frame.Some? && log[k].frame.value.markId >= 0
    ensures CountOf(log[..k], Audible()) < |EmissionsOf(log)| == CountOf(log, Audible())
    ensures var f, e := log[k].frame.value, EmissionsOf(log)[CountOf(log[..k], Audible())];
            && e.markId == f.markId && e.markFlag == f.markFlag
            && (f.markOffset >= 0 ==> e.hostNs == log[k].emitNs + f.markOffset * 1000000000 / 48000)
            && (f.markOffset <= 0 ==> e.hostNs == log[k].emitNs - (-f.markOffset) * 1000000000 / 48000)
    decreases |log|
  {
    hide SentOf, PcmOf;
    var n := |log| - 1;
    EmissionCount(log);
    EmissionCount(log[..n]);
    CountBelow(log, Audible(), k);
    if k < n {
      EmissionAt(log[..n], k);
      assert log[..n][..k] == log[..k];
    }
  }

  /** The mark's offset is turned into nanoseconds to within one. */
  lemma OffsetNs(offset: int)
    ensures -48000 < SamplesNs(offset) * 48000 - offset * 1000000000 < 48000
    ensures offset >= 0 ==> SamplesNs(offset) * 48000 <= offset * 1000000000
    ensures offset <= 0 ==> SamplesNs(offset) * 48000 >= offset * 1000000000
  {
  }

  lemma LateIsPositive(r: Record)
    requires r.target <= r.actual
    ensures LateMs(r) >= 0.0
  {
  }

  const ZERO := Stats(0, 0, 0, 0, 0, 0.0, 0.0, 0.0)

  ghost predicate NeverEarly(log: seq<Record>) {
    forall k :: 0 <= k < |log| ==> log[k].target <= log[k].actual
  }

  // Sum, mean and maximum fit together.
  ghost predicate Averaged(t: Stats) {
    0.0 <= t.lateSum <= t.ticks as real * t.maxLate && 0.0 <= t.meanLate <= t.maxLate
  }

  lemma {:induction false} MeanLateness(log: seq<Record>)
    requires NeverEarly(log)
    ensures Averaged(Tally(ZERO, log))
    decreases |log|
  {
    if log != [] {
      hide LateMs, CountSend, CountTick;
      var n := |log| - 1;
      MeanLateness(log[..n]);
      LateIsPositive(log[n]);
      LateStep(Tally(ZERO, log[..n]), log[n]);
    }
  }

  /** The worst lateness bounds every tick's, and the reported mean never exceeds it. */
  lemma {:induction false} LatenessBounds(log: seq<Record>, k: nat)
    requires NeverEarly(log) && k < |log|
    ensures 0.0 <= LateMs(log[k]) <= Tally(ZERO, log).maxLate
    ensures 0.0 <= Tally(ZERO, log).meanLate <= Tally(ZERO, log).maxLate
    decreases |log|
  {
    hide LateMs, CountSend, CountTick;
    var n := |log| - 1;
    MeanLateness(log);
    MeanLateness(log[..n]);
    LateIsPositive(log[k]);
    LateIsPositive(log[n]);
    LateStep(Tally(ZERO, log[..n]), log[n]);
    if k < n { LatenessBounds(log[..n], k); }
  }

  // All the nanoseconds the ticks came late, added up.
  function LateNs(log: seq<Record>): int {
    if log == [] then 0
    else
      var n := |log| - 1;
      LateNs(log[..n]) + (log[n].actual - log[n].target)
  }

  /** The reported mean is that of all ticks so far, and the reported maximum some tick's own lateness. */
  lemma {:induction false} LatenessIs(log: seq<Record>)
    requires NeverEarly(log) && log != []
    ensures Tally(ZERO, log).meanLate == LateNs(log) as real / 1000000.0 / |log| as real
    ensures exists k :: 0 <= k < |log| && Tally(ZERO, log).maxLate == (log[k].actual - log[k].target) as real / 1000000.0
    decreases |log|
  {
    var n := |log| - 1;
    LateSumIs(log);
    TicksAre(log);
    TicksAre(log[..n]);
    LateIsPositive(log[n]);
    if n > 0 {
      LatenessIs(log[..n]);
      var k :| 0 <= k < n && Tally(ZERO, log[..n]).maxLate == (log[..n][k].actual - log[..n][k].target) as real / 1000000.0;
      assert log[..n][k] == log[k];
    }
  }

  lemma {:induction false} TicksAre(log: seq<Record>)
    ensures Tally(ZERO, log).ticks == |log|
    decreases |log|
  {
    if log != [] { TicksAre(log[..|log| - 1]); }
  }

  lemma {:induction false} LateSumIs(log: seq<Record>)
    ensures Tally(ZERO, log).lateSum == LateNs(log) as real / 1000000.0
    decreases |log|
  {
    if log != [] { LateSumIs(log[..|log| - 1]); }
  }

  // One more tick in the running mean and maximum.
  lemma LateStep(s: Stats, r: Record)
    requires Averaged(s) && LateMs(r) >= 0.0
    ensures var t := CountSend(CountTick(s, r), r);
            && t.ticks == s.ticks + 1 && t.maxLate == (if LateMs(r) > s.maxLate then LateMs(r) else s.maxLate)
            && Averaged(t)
  {
    hide LateMs;
    var late, max := LateMs(r), if LateMs(r) > s.maxLate then LateMs(r) else s.maxLate;
    SumBelow(s.ticks as real, s.lateSum, s.maxLate, late, max);
    MeanBelow(s.lateSum + late, (s.ticks + 1) as real, max);
  }

  lemma SumBelow(n: real, sum: real, m: real, late: real, max: real)
    requires n >= 0.0 && sum <= n * m && m <= max && late <= max
    ensures sum + late <= (n + 1.0) * max
  {
    assert n * (max - m) >= 0.0;
  }

  lemma MeanBelow(sum: real, n: real, max: real)
    requires n > 0.0 && 0.0 <= sum <= n * max
    ensures 0.0 <= sum / n <= max
  {
    var q := sum / n;
    assert q * n == sum;
    assert n * (max - q) >= 0.0;
  }
}
