/**
 How far apart healing passes come: the guard at src/app/main.cpp:1607-1608, over whole runs of the main loop.
 Passes keep 600 ms apart except across a change of the breakout rooms, which opens the guard at once.
 */
module HealerPacing {
  import opened Healer
  import opened TalkbackChannels

  // ----- a run of the main loop ----------------------------------------------------------------------

  function PacedAt(p: Paced, steps: seq<Step>, i: nat): Paced
    requires i <= |steps|
  {
    if i == 0 then p else TurnFrom(PacedAt(p, steps, i - 1), steps[i - 1]).paced
  }

  // The step is a pass that the guard lets through.
  ghost predicate IsPass(p: Paced, steps: seq<Step>, i: nat)
    requires i < |steps|
  {
    steps[i].Heal? && Opens(PacedAt(p, steps, i), steps[i].w, steps[i].now)
  }

  ghost predicate ChangeIn(steps: seq<Step>, from: nat, to: nat)
    requires to <= |steps|
  {
    exists k :: from <= k < to && steps[k].RoomsChanged?
  }

  ghost predicate NoPassIn(p: Paced, steps: seq<Step>, from: nat, to: nat)
    requires to <= |steps|
  {
    forall k :: from <= k < to ==> !IsPass(p, steps, k)
  }

  lemma ChangeSnoc(steps: seq<Step>, from: nat, to: nat)
    requires from <= to < |steps|
    ensures ChangeIn(steps, from, to + 1) <==> ChangeIn(steps, from, to) || steps[to].RoomsChanged?
  {
  }

  // ----- the spacing -----------------------------------------------------------------------------------

  // What the guard waits for after a pass at i, up to the next one.
  lemma {:induction false} GuardAfter(p: Paced, steps: seq<Step>, i: nat, j: nat)
    requires i < j <= |steps| && IsPass(p, steps, i) && NoPassIn(p, steps, i + 1, j)
    ensures PacedAt(p, steps, j).nextHealNs == if ChangeIn(steps, i + 1, j) then 0 else steps[i].now + PACE_NS
  {
    hide StepFrom;
    if i + 1 < j {
      GuardAfter(p, steps, i, j - 1);
      ChangeSnoc(steps, i + 1, j - 1);
      assert !IsPass(p, steps, j - 1);
    } else {
      assert !ChangeIn(steps, i + 1, j);
    }
  }

  /**
   When the next pass comes: once there is a ready channel, the first time the loop looks after the rooms have changed
   or 600 ms are over, and never before.
   */
  lemma NextPassIff(p: Paced, steps: seq<Step>, i: nat, j: nat)
    requires i < j < |steps| && IsPass(p, steps, i) && NoPassIn(p, steps, i + 1, j)
    requires steps[j].Heal? && steps[j].now >= 0
    ensures IsPass(p, steps, j) <==>
      && FirstEmpty(steps[j].w.slots) > 0
      && (ChangeIn(steps, i + 1, j) || steps[j].now >= steps[i].now + PACE_NS)
  {
    hide FirstEmpty;
    GuardAfter(p, steps, i, j);
  }

  // Without a change of rooms the guard only ever moves forward.
  lemma {:induction false} GuardAdvances(p: Paced, steps: seq<Step>, i: nat, j: nat)
    requires i <= j <= |steps| && !ChangeIn(steps, i, j)
    ensures PacedAt(p, steps, i).nextHealNs <= PacedAt(p, steps, j).nextHealNs
  {
    hide StepFrom, FirstEmpty;
    if i < j {
      ChangeSnoc(steps, i, j - 1);
      GuardAdvances(p, steps, i, j - 1);
    }
  }

  /** Any two passes of a run between which the rooms do not change are at least 600 ms apart. */
  lemma PassesApart(p: Paced, steps: seq<Step>, i: nat, j: nat)
    requires i < j < |steps| && IsPass(p, steps, i) && IsPass(p, steps, j) && !ChangeIn(steps, i + 1, j)
    ensures steps[j].now >= steps[i].now + PACE_NS
  {
    hide StepFrom, FirstEmpty;
    GuardAdvances(p, steps, i + 1, j);
  }

  // ----- the guard only leaves passes out -----------------------------------------------------------------

  // The steps that have an effect: tries the guard holds back are left out.
  function Effective(p: Paced, steps: seq<Step>): seq<Step>
    decreases |steps|
  {
    if steps == [] then []
    else
      var e := steps[0];
      (if e.Heal? && !Opens(p, e.w, e.now) then [] else [e]) + Effective(TurnFrom(p, e).paced, steps[1..])
  }

  function CallsOf(st: State, steps: seq<Step>): seq<Call>
    decreases |steps|
  {
    if steps == [] then []
    else
      var o := StepFrom(st, steps[0]);
      (if o.call == NoCall then [] else [o.call]) + CallsOf(o.state, steps[1..])
  }

  function StateAfter(st: State, steps: seq<Step>): State
    decreases |steps|
  {
    if steps == [] then st else StateAfter(StepFrom(st, steps[0]).state, steps[1..])
  }

  function PacedAfter(p: Paced, steps: seq<Step>): Paced
    decreases |steps|
  {
    if steps == [] then p else PacedAfter(TurnFrom(p, steps[0]).paced, steps[1..])
  }

  function PacedCalls(p: Paced, steps: seq<Step>): seq<Call>
    decreases |steps|
  {
    if steps == [] then []
    else
      var t := TurnFrom(p, steps[0]);
      (if t.call == NoCall then [] else [t.call]) + PacedCalls(t.paced, steps[1..])
  }

  /** The guarded run is the run of its effective steps: same state in the end, same calls. So whatever holds of every
      run of passes, housekeeping and room changes holds of the main loop. */
  lemma {:induction false} GuardOnlySkips(p: Paced, steps: seq<Step>)
    ensures StateAfter(p.heal, Effective(p, steps)) == PacedAfter(p, steps).heal
    ensures CallsOf(p.heal, Effective(p, steps)) == PacedCalls(p, steps)
    decreases |steps|
  {
    hide StepFrom, Opens;
    if steps != [] {
      var e := steps[0];
      var rest := TurnFrom(p, e).paced;
      GuardOnlySkips(rest, steps[1..]);
      if !(e.Heal? && !Opens(p, e.w, e.now)) {
        assert ([e] + Effective(rest, steps[1..]))[1..] == Effective(rest, steps[1..]);
      } else {
        assert Effective(p, steps) == Effective(p, steps[1..]);
      }
    }
  }
}
