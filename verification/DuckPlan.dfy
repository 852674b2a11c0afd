/** Background-volume planning, one paced SDK call at a time: src/zoom/duck_plan.cpp. */
module DuckPlan {
  import opened Options

  datatype VolumeAction = VolumeAction(slot: int, volume: real)

  const SLOTS := 32
  const UNITY := 1.0
  const DUCK := 0.2
  const PACE_MS := 300
  const RETRY_MS := 2000

  datatype Plan = Plan(applied: seq<real>, known: seq<bool>, nextCallMs: int)

  ghost predicate Valid(p: Plan) {
    |p.applied| == SLOTS && |p.known| == SLOTS
  }

  // Nothing is known of any slot.
  function Fresh(): (p: Plan)
    ensures Valid(p)
  {
    Plan(seq(SLOTS, _ => 0.0), seq(SLOTS, _ => false), 0)
  }

  function Wanted(active: set<nat>, s: nat): real {
    if s in active then DUCK else UNITY
  }

  // A ready slot that is not known to be at its wanted volume.
  predicate Wrong(p: Plan, ready: set<nat>, active: set<nat>, s: nat)
    requires Valid(p)
  {
    s < SLOTS && s in ready && !(p.known[s] && p.applied[s] == Wanted(active, s))
  }

  function FirstWrong(p: Plan, ready: set<nat>, active: set<nat>, from: nat): (k: nat)
    requires Valid(p) && from <= SLOTS
    ensures from <= k <= SLOTS
    ensures forall s :: from <= s < k ==> !Wrong(p, ready, active, s)
    ensures k < SLOTS ==> Wrong(p, ready, active, k)
    decreases SLOTS - from
  {
    if from == SLOTS || Wrong(p, ready, active, from) then from else FirstWrong(p, ready, active, from + 1)
  }

  // A scan that stops at slot k forgets the slots below k that are gone, and no others.
  function Forget(known: seq<bool>, ready: set<nat>, k: nat): seq<bool> {
    seq(|known|, s requires 0 <= s < |known| => known[s] && (s >= k || s in ready))
  }

  datatype Answer = Answer(plan: Plan, action: Option<VolumeAction>)

  function Next(p: Plan, ready: set<nat>, active: set<nat>, now: int): Answer
    requires Valid(p)
  {
    if now < p.nextCallMs then Answer(p, None)
    else
      var k := FirstWrong(p, ready, active, 0);
      var scanned := p.(known := Forget(p.known, ready, k));
      if k == SLOTS then Answer(scanned, None)
      else Answer(scanned.(nextCallMs := now + PACE_MS), Some(VolumeAction(k, Wanted(active, k))))
  }

  function Confirm(p: Plan, a: VolumeAction): Plan
    requires Valid(p)
  {
    if 0 <= a.slot < SLOTS then p.(applied := p.applied[a.slot := a.volume], known := p.known[a.slot := true]) else p
  }

  function Fail(p: Plan, now: int): Plan {
    p.(nextCallMs := now + RETRY_MS)
  }

  lemma ForgetNothing(known: seq<bool>, ready: set<nat>)
    ensures Forget(known, ready, 0) == known
  {
  }

  lemma ForgetStep(known: seq<bool>, ready: set<nat>, s: nat)
    requires s < |known|
    ensures Forget(known, ready, s)[s] == known[s]
    ensures Forget(known, ready, s + 1) == if s in ready then Forget(known, ready, s) else Forget(known, ready, s)[s := false]
  {
  }

  lemma FirstIs(p: Plan, ready: set<nat>, active: set<nat>, k: nat)
    requires Valid(p) && k <= SLOTS
    requires forall i :: 0 <= i < k ==> !Wrong(p, ready, active, i)
    requires k < SLOTS ==> Wrong(p, ready, active, k)
    ensures FirstWrong(p, ready, active, 0) == k
  {
  }

  // ----- the class ----------------------------------------------------------------------------

  class DuckPlanner {
    var applied: array<real>
    var known: array<bool>
    var nextCallMs: int

    ghost predicate WellFormed()
      reads this, applied, known
    {
      applied.Length == SLOTS && known.Length == SLOTS && Valid(Model())
    }

    function Model(): Plan
      reads this, applied, known
    {
      Plan(applied[..], known[..], nextCallMs)
    }

    constructor ()
      ensures WellFormed() && fresh(applied) && fresh(known)
      ensures Model() == Fresh()
    {
      applied := new real[SLOTS](_ => 0.0);
      known := new bool[SLOTS](_ => false);
      nextCallMs := 0;
    }

    /** The one call to make now, if any. */
    method NextCall(ready: set<nat>, active: set<nat>, now: int) returns (action: Option<VolumeAction>)
      requires WellFormed()
      modifies this`nextCallMs, known
      ensures WellFormed()
      ensures Answer(Model(), action) == Next(old(Model()), ready, active, now)
    {
      hide FirstWrong;
      if now < nextCallMs { return None; }
      ghost var p := Model();
      ForgetNothing(p.known, ready);
      var s := 0;
      while s < SLOTS
        invariant 0 <= s <= SLOTS
        invariant WellFormed() && applied[..] == p.applied && nextCallMs == p.nextCallMs
        invariant known[..] == Forget(p.known, ready, s)
        invariant forall i :: 0 <= i < s ==> !Wrong(p, ready, active, i)
      {
        ForgetStep(p.known, ready, s);
        assert known[s] == p.known[s] && applied[s] == p.applied[s];
        if s !in ready {
          known[s] := false;
          s := s + 1;
          continue;
        }
        var want := if s in active then DUCK else UNITY;
        if known[s] && applied[s] == want {
          s := s + 1;
          continue;
        }
        FirstIs(p, ready, active, s);
        nextCallMs := now + PACE_MS;
        return Some(VolumeAction(s, want));
      }
      FirstIs(p, ready, active, s);
      return None;
    }

    method ConfirmCall(a: VolumeAction)
      requires WellFormed()
      modifies applied, known
      ensures WellFormed() && Model() == Confirm(old(Model()), a)
    {
      if a.slot < 0 || a.slot >= SLOTS { return; }
      applied[a.slot] := a.volume;
      known[a.slot] := true;
    }

    method FailCall(now: int)
      modifies this`nextCallMs
      ensures Model() == Fail(old(Model()), now)
    {
      nextCallMs := now + RETRY_MS;
    }
  }

  // ----- one main-loop pass ---------------------------------------------------------------------

  datatype Pass = Pass(ready: set<nat>, active: set<nat>, now: int, accepted: bool, answeredAt: int)

  function Step(p: Plan, x: Pass): (a: Answer)
    requires Valid(p)
    ensures Valid(a.plan)
  {
    var a := Next(p, x.ready, x.active, x.now);
    if a.action.None? then a
    else Answer(if x.accepted then Confirm(a.plan, a.action.value) else Fail(a.plan, x.answeredAt), a.action)
  }

  // The slot is known to be at unity, or ducked while it is active.
  ghost predicate Right(p: Plan, active: set<nat>, s: nat)
    requires Valid(p) && s < SLOTS
  {
    p.known[s] && p.applied[s] == if s in active then 0.2 else 1.0
  }

  /** An idle answer, when the planner was not merely pacing, means every ready slot is known to be at
      its wanted volume; and a call is always for the first ready slot that is not. */
  lemma AnswerMeans(p: Plan, ready: set<nat>, active: set<nat>, now: int)
    requires Valid(p)
    ensures var a := Next(p, ready, active, now).action;
            && (a.None? && now >= p.nextCallMs ==> forall s :: !Wrong(p, ready, active, s))
            && (a.None? && now >= p.nextCallMs ==> forall s: nat :: s < 32 && s in ready ==> Right(p, active, s))
            && (a.Some? ==>
                  && 0 <= a.value.slot < 32 && a.value.slot in ready && !Right(p, active, a.value.slot)
                  && a.value.volume == (if a.value.slot in active then 0.2 else 1.0)
                  && forall s: nat :: s < a.value.slot && s in ready ==> Right(p, active, s))
            && (a.Some? ==> now >= p.nextCallMs && 0 <= a.value.slot < SLOTS
                            && Wrong(p, ready, active, a.value.slot) && a.value.volume == Wanted(active, a.value.slot))
  {
    forall s: nat | s < SLOTS && s in ready ensures Right(p, active, s) <==> !Wrong(p, ready, active, s) {}
  }

  // ----- pacing over whole runs ------------------------------------------------------------------

  function StateAt(p: Plan, passes: seq<Pass>, i: nat): (q: Plan)
    requires Valid(p) && i <= |passes|
    ensures Valid(q)
  {
    if i == 0 then p else Step(StateAt(p, passes, i - 1), passes[i - 1]).plan
  }

  predicate Issues(p: Plan, passes: seq<Pass>, i: nat)
    requires Valid(p) && i < |passes|
  {
    Step(StateAt(p, passes, i), passes[i]).action.Some?
  }

  // Zoom's answer to a call does not come before the call.
  ghost predicate Ordered(passes: seq<Pass>) {
    forall i :: 0 <= i < |passes| ==> passes[i].now <= passes[i].answeredAt
  }

  lemma {:induction false} NextCallOnlyGrows(p: Plan, passes: seq<Pass>, i: nat, j: nat)
    requires Valid(p) && Ordered(passes) && i <= j <= |passes|
    ensures StateAt(p, passes, i).nextCallMs <= StateAt(p, passes, j).nextCallMs
  {
    if i < j { NextCallOnlyGrows(p, passes, i, j - 1); }
  }

  /** Over any run, two calls are at least 300 ms apart, and a call comes at least 2000 ms after Zoom's
      refusal of any earlier one. */
  lemma CallsArePaced(p: Plan, passes: seq<Pass>, i: nat, j: nat)
    requires Valid(p) && Ordered(passes) && i < j < |passes|
    requires Issues(p, passes, i) && Issues(p, passes, j)
    ensures passes[j].now >= passes[i].now + 300
    ensures !passes[i].accepted ==> passes[j].now >= passes[i].answeredAt + 2000
  {
    NextCallOnlyGrows(p, passes, i + 1, j);
    AnswerMeans(StateAt(p, passes, j), passes[j].ready, passes[j].active, passes[j].now);
  }

  /** A refusal silences the planner: nothing happens on any pass in the two seconds after it, and the first pass
      after them makes a call exactly when one is needed. */
  lemma {:induction false} FailSilences(p: Plan, failedAt: int, passes: seq<Pass>, n: nat)
    requires Valid(p) && n <= |passes|
    requires forall i :: 0 <= i < n ==> passes[i].now < failedAt + RETRY_MS
    ensures StateAt(Fail(p, failedAt), passes, n) == Fail(p, failedAt)
    ensures forall i :: 0 <= i < n ==> !Issues(Fail(p, failedAt), passes, i)
    ensures n < |passes| && passes[n].now >= failedAt + RETRY_MS ==>
      (Issues(Fail(p, failedAt), passes, n) <==> exists s :: Wrong(p, passes[n].ready, passes[n].active, s))
  {
    var failed := Fail(p, failedAt);
    if n > 0 {
      FailSilences(p, failedAt, passes, n - 1);
    }
    if n < |passes| && passes[n].now >= failedAt + RETRY_MS {
      var x := passes[n];
      assert forall s :: Wrong(p, x.ready, x.active, s) <==> Wrong(failed, x.ready, x.active, s);
      AnswerMeans(failed, x.ready, x.active, x.now);
    }
  }

  // ----- convergence -------------------------------------------------------------------------------

  function WrongSlots(p: Plan, ready: set<nat>, active: set<nat>): set<nat>
    requires Valid(p)
  {
    set s: nat | s in ready && Wrong(p, ready, active, s)
  }

  function CallsMade(p: Plan, passes: seq<Pass>, n: nat): nat
    requires Valid(p) && n <= |passes|
  {
    if n == 0 then 0 else CallsMade(p, passes, n - 1) + if Issues(p, passes, n - 1) then 1 else 0
  }

  lemma AcceptedCallCorrectsOne(p: Plan, x: Pass)
    requires Valid(p) && x.accepted
    ensures var a := Step(p, x);
            WrongSlots(a.plan, x.ready, x.active) ==
              if a.action.Some? then WrongSlots(p, x.ready, x.active) - {a.action.value.slot}
              else WrongSlots(p, x.ready, x.active)
  {
    var a := Step(p, x);
    forall s: nat
      ensures s in WrongSlots(a.plan, x.ready, x.active) <==>
        s in WrongSlots(p, x.ready, x.active) && !(a.action.Some? && s == a.action.value.slot)
    {
    }
  }

  /** With fixed masks and accepted calls, every call leaves exactly one wrong slot fewer. So no run makes
      more calls than there were wrong slots, and one that makes that many leaves none. */
  lemma {:induction false} EveryCallCounts(p: Plan, passes: seq<Pass>, ready: set<nat>, active: set<nat>, n: nat)
    requires Valid(p) && n <= |passes|
    requires forall i :: 0 <= i < |passes| ==> passes[i].ready == ready && passes[i].active == active && passes[i].accepted
    ensures |WrongSlots(StateAt(p, passes, n), ready, active)| + CallsMade(p, passes, n) == |WrongSlots(p, ready, active)|
  {
    if n > 0 {
      EveryCallCounts(p, passes, ready, active, n - 1);
      var q := StateAt(p, passes, n - 1);
      AcceptedCallCorrectsOne(q, passes[n - 1]);
      AnswerMeans(q, ready, active, passes[n - 1].now);
    }
  }

  /** And it never idles early: a pass behind the pacing window makes a call while any slot is wrong. */
  lemma NeverIdlesEarly(p: Plan, passes: seq<Pass>, i: nat)
    requires Valid(p) && i < |passes|
    requires passes[i].now >= StateAt(p, passes, i).nextCallMs
    ensures Issues(p, passes, i) <==> WrongSlots(StateAt(p, passes, i), passes[i].ready, passes[i].active) != {}
  {
    var q := StateAt(p, passes, i);
    AnswerMeans(q, passes[i].ready, passes[i].active, passes[i].now);
    var k := FirstWrong(q, passes[i].ready, passes[i].active, 0);
    if k < SLOTS { assert k in WrongSlots(q, passes[i].ready, passes[i].active); }
  }

  // ----- what is forgotten --------------------------------------------------------------------------

  /** A slot that is gone is forgotten exactly when a scan reaches it: the planner is not pacing and no
      slot below it needs a call. */
  lemma ForgottenIff(p: Plan, ready: set<nat>, active: set<nat>, now: int, s: nat)
    requires Valid(p) && s < SLOTS && s !in ready && p.known[s]
    ensures !Next(p, ready, active, now).plan.known[s] <==>
      now >= p.nextCallMs && forall t :: 0 <= t < s ==> !Wrong(p, ready, active, t)
  {
  }

  // The pass's scan gets past slot s.
  predicate ScansPast(p: Plan, x: Pass, s: nat)
    requires Valid(p)
  {
    x.now >= p.nextCallMs && forall t :: 0 <= t < s ==> !Wrong(p, x.ready, x.active, t)
  }

  lemma AbsentPass(p: Plan, x: Pass, s: nat)
    requires Valid(p) && s < SLOTS && s !in x.ready
    ensures var q := Step(p, x).plan;
            q.applied[s] == p.applied[s] && (q.known[s] <==> p.known[s] && !ScansPast(p, x, s))
  {
    if p.known[s] { ForgottenIff(p, x.ready, x.active, x.now, s); }
    AnswerMeans(p, x.ready, x.active, x.now);
  }

  /** Over any stretch in which a slot is gone, it is forgotten if and only if some pass scans past it; so when it
      comes back, the planner still holds it for correct unless one did. */
  lemma {:induction false} MissedIff(p: Plan, passes: seq<Pass>, s: nat, n: nat)
    requires Valid(p) && s < SLOTS && p.known[s] && n <= |passes|
    requires forall i :: 0 <= i < n ==> s !in passes[i].ready
    ensures StateAt(p, passes, n).applied[s] == p.applied[s]
    ensures StateAt(p, passes, n).known[s] <==> forall i :: 0 <= i < n ==> !ScansPast(StateAt(p, passes, i), passes[i], s)
    ensures forall ready, active :: s in ready && p.applied[s] == Wanted(active, s) ==>
      (Wrong(StateAt(p, passes, n), ready, active, s) <==>
        exists i :: 0 <= i < n && ScansPast(StateAt(p, passes, i), passes[i], s))
  {
    hide Step, ScansPast;
    if n > 0 {
      MissedIff(p, passes, s, n - 1);
      AbsentPass(StateAt(p, passes, n - 1), passes[n - 1], s);
    }
  }

  /** From a fresh planner: two channels are set to unity; the second vanishes while the first is being ducked, and
      comes back. Nothing is sent for it, although a new channel starts out ducked by Zoom. (The planner's own
      interface allows this; the application never takes a channel's ready bit away.) */
  lemma RecreatedChannelMissed()
    ensures var both := Pass({0, 1}, {}, 0, true, 0);
            var again := Pass({0, 1}, {}, PACE_MS, true, PACE_MS);
            var gone := Pass({0}, {0}, 2 * PACE_MS, true, 2 * PACE_MS);
            var back := Pass({0, 1}, {0}, 3 * PACE_MS, true, 3 * PACE_MS);
            var passes := [both, again, gone, back];
            && Step(StateAt(Fresh(), passes, 0), both).action == Some(VolumeAction(0, UNITY))
            && Step(StateAt(Fresh(), passes, 1), again).action == Some(VolumeAction(1, UNITY))
            && Step(StateAt(Fresh(), passes, 2), gone).action == Some(VolumeAction(0, DUCK))
            && Step(StateAt(Fresh(), passes, 3), back).action == None
  {
    var both := Pass({0, 1}, {}, 0, true, 0);
    var again := Pass({0, 1}, {}, PACE_MS, true, PACE_MS);
    var gone := Pass({0}, {0}, 2 * PACE_MS, true, 2 * PACE_MS);
    var back := Pass({0, 1}, {0}, 3 * PACE_MS, true, 3 * PACE_MS);
    var passes := [both, again, gone, back];
    hide Forget, FirstWrong;
    assert StateAt(Fresh(), passes, 0) == Fresh();
    FirstIs(Fresh(), both.ready, both.active, 0);
    ForgetNothing(Fresh().known, both.ready);
    var p1 := Plan(Fresh().applied[0 := UNITY], Fresh().known[0 := true], PACE_MS);
    assert StateAt(Fresh(), passes, 1) == p1;
    StopsAt(p1, again, 1);
    var p2 := Plan(p1.applied[1 := UNITY], p1.known[1 := true], 2 * PACE_MS);
    assert StateAt(Fresh(), passes, 2) == p2;
    StopsAt(p2, gone, 0);
    var p3 := Plan(p2.applied[0 := DUCK], p2.known, 3 * PACE_MS);
    assert StateAt(Fresh(), passes, 3) == p3;
    FirstIs(p3, back.ready, back.active, SLOTS);
  }

  // A scan that stops at k, all slots below being ready.
  lemma StopsAt(p: Plan, x: Pass, k: nat)
    requires Valid(p) && k < SLOTS && x.now >= p.nextCallMs
    requires Wrong(p, x.ready, x.active, k) && forall s :: 0 <= s < k ==> s in x.ready && !Wrong(p, x.ready, x.active, s)
    ensures Next(p, x.ready, x.active, x.now) ==
      Answer(p.(nextCallMs := x.now + PACE_MS), Some(VolumeAction(k, Wanted(x.active, k))))
  {
    FirstIs(p, x.ready, x.active, k);
    assert Forget(p.known, x.ready, k) == p.known;
  }
}
