/**
 What the healer's backoff guarantees over whole runs: src/app/main.cpp:1630-1673. Nobody is asked for again
 before their time, whatever Zoom answers and whoever comes and goes, as long as the wait is not ended: by a pass that
 finds the wish met (1623), by a housekeeping look that misses the person (1544-1554) or by a change of the breakout
 rooms (1835-1843).
 */
module HealerBackoff {
  import opened Eligibility
  import opened Healer
  import opened HealerFairness
  import opened HealerMemory
  import HealerPacing
  import opened Options

  // Zoom has not confirmed the person in that slot while they are wanted there.
  ghost predicate Unsettled(w: World, key: Key) {
    !Met(w, key)
  }

  ghost predicate Waits(backoff: map<Key, Backoff>, key: Key, until: int) {
    key in backoff && backoff[key].notBefore >= until
  }

  lemma ScanEntryKeeps(w: World, s: nat, now: int, c: Scan, m: RosterMember, key: Key, until: int)
    requires s < |w.slots| && Waits(c.backoff, key, until) && now < until
    requires m.userId == key.1 && s == key.0 ==> !(Want(w, s, m) && Have(w, s, m))
    requires key.0 == s ==> key.1 !in c.missing && c.remove != Some(key.1)
    ensures var c' := ScanEntry(w, s, now, c, m);
            Waits(c'.backoff, key, until) && (key.0 == s ==> key.1 !in c'.missing && c'.remove != Some(key.1))
  {
    hide Want, Have, SameRoom;
  }

  lemma {:induction false} ScanKeeps(w: World, s: nat, now: int, backoff: map<Key, Backoff>, n: nat, key: Key, until: int)
    requires s < |w.slots| && n <= |w.roster|
    requires Unsettled(w, key) && Waits(backoff, key, until) && now < until
    ensures var c := ScanSlot(w, s, now, backoff, n);
            Waits(c.backoff, key, until) && (key.0 == s ==> key.1 !in c.missing && c.remove != Some(key.1))
  {
    if n > 0 {
      hide ScanEntry, Waits, Want, Have;
      ScanKeeps(w, s, now, backoff, n - 1, key, until);
      ScanEntryKeeps(w, s, now, ScanSlot(w, s, now, backoff, n - 1), w.roster[n - 1], key, until);
    }
  }

  lemma ServeKeeps(w: World, s: nat, now: int, accepted: bool, c: Scan, key: Key, until: int)
    requires s < |w.slots| && Busy(c) && Waits(c.backoff, key, until)
    requires key.0 == s ==> key.1 !in c.missing && c.remove != Some(key.1)
    ensures var o := Serve(w, s, now, accepted, c); Waits(o.state.backoff, key, until) && !Asks(o.call, key)
  {
    if c.missing != [] {
      AfterInviteOthers(c.backoff, s, c.missing, Fits(w, s, c.missing) && accepted, now, key);
    }
  }

  lemma {:induction false} PassKeeps(w: World, now: int, accepted: bool, rr: nat, backoff: map<Key, Backoff>, k: nat,
                                     key: Key, until: int)
    requires k <= |w.slots| && Unsettled(w, key) && Waits(backoff, key, until) && now < until
    ensures var o := PassFrom(w, now, accepted, rr, backoff, k); Waits(o.state.backoff, key, until) && !Asks(o.call, key)
    decreases |w.slots| - k
  {
    hide Serve, Waits, Unsettled, ScanSlot, SlotAt, Busy;
    if k < |w.slots| {
      var s := SlotAt(w, rr, k);
      ScanKeeps(w, s, now, backoff, |w.roster|, key, until);
      var c := FullScan(w, s, now, backoff);
      if Busy(c) {
        ServeKeeps(w, s, now, accepted, c, key, until);
      } else {
        PassKeeps(w, now, accepted, rr, c.backoff, k + 1, key, until);
      }
    }
  }

  // ----- whole runs -----------------------------------------------------------------------------------

  ghost predicate NeverAsks(st: State, steps: seq<Step>, key: Key)
    decreases |steps|
  {
    if steps == [] then true
    else
      var o := StepFrom(st, steps[0]);
      !Asks(o.call, key) && NeverAsks(o.state, steps[1..], key)
  }

  // Every pass comes before the time, and Zoom has not confirmed the person by then.
  ghost predicate PassesBefore(steps: seq<Step>, key: Key, until: int) {
    forall i :: 0 <= i < |steps| && steps[i].Heal? ==> steps[i].now < until && Unsettled(steps[i].w, key)
  }

  // The step drops the person's wait: housekeeping misses them outside breakouts, or the rooms changed.
  predicate Drops(e: Step, key: Key) {
    match e
    case Heal(_, _, _) => false
    case Housekeep(roster, started) => !started && !OnRoster(roster, key.1)
    case RoomsChanged => true
  }

  ghost predicate NeverDropped(steps: seq<Step>, key: Key) {
    forall i :: 0 <= i < |steps| ==> !Drops(steps[i], key)
  }

  // The wait is there, unchanged, after every step.
  ghost predicate Untouched(st: State, steps: seq<Step>, key: Key)
    requires key in st.backoff
    decreases |steps|
  {
    steps == [] ||
    var next := StepFrom(st, steps[0]).state;
    key in next.backoff && next.backoff[key] == st.backoff[key] && Untouched(next, steps[1..], key)
  }

  lemma {:induction false} RunKeeps(st: State, steps: seq<Step>, key: Key, until: int)
    requires Waits(st.backoff, key, until) && PassesBefore(steps, key, until) && NeverDropped(steps, key)
    ensures NeverAsks(st, steps, key)
    decreases |steps|
  {
    if steps != [] {
      hide Unsettled, Asks, PassFrom, OnRoster;
      var e := steps[0];
      if e.Heal? { PassKeeps(e.w, e.now, e.accepted, st.rr, st.backoff, 0, key, until); }
      RunKeeps(StepFrom(st, e).state, steps[1..], key, until);
    }
  }

  lemma ScanKeepsWeaker(w: World, s: nat, now: int, before: map<Key, Backoff>, original: map<Key, Backoff>)
    requires s < |w.slots| && Weaker(before, original)
    ensures Weaker(FullScan(w, s, now, before).backoff, original)
  {
    hide ScanSlot;
    ScanIsHonest(w, s, now, before, |w.roster|);
  }

  // Every pass comes before the time; where the roster lists an id twice, the wish is not met.
  ghost predicate Timely(steps: seq<Step>, key: Key, until: int) {
    forall i :: 0 <= i < |steps| && steps[i].Heal? ==>
      steps[i].now < until && (Unsettled(steps[i].w, key) || DistinctIds(steps[i].w.roster))
  }

  // The step ends the person's wait: it is dropped, or a pass looks at the slot and finds the wish met.
  ghost predicate Ends(st: State, e: Step, key: Key) {
    Drops(e, key) || (e.Heal? && Met(e.w, key) && Reaches(e.w, st.rr, StepFrom(st, e).call, key.0))
  }

  ghost predicate NeverEnds(st: State, steps: seq<Step>, key: Key)
    decreases |steps|
  {
    steps == [] || (!Ends(st, steps[0], key) && NeverEnds(StepFrom(st, steps[0]).state, steps[1..], key))
  }

  lemma NotAskedInTime(w: World, now: int, accepted: bool, st: State, key: Key)
    requires key in st.backoff && now < st.backoff[key].notBefore && (Unsettled(w, key) || DistinctIds(w.roster))
    ensures !Asks(Pass(w, now, accepted, st).call, key)
  {
    hide Met, PassFrom, DistinctIds;
    if Met(w, key) {
      MetIsNotAsked(w, now, accepted, st, key);
    } else {
      PassKeeps(w, now, accepted, st.rr, st.backoff, 0, key, st.backoff[key].notBefore);
    }
  }

  /**
   Exactly how long a wait lasts. Until its time it survives the run, unchanged, if and only if no pass looks at the slot and
   finds the person wanted and there, the rooms never change, and the person is on the roster whenever housekeeping
   looks outside breakouts.
   */
  lemma {:induction false} WaitSurvivesIff(st: State, steps: seq<Step>, key: Key)
    requires key in st.backoff && Timely(steps, key, st.backoff[key].notBefore)
    ensures Untouched(st, steps, key) <==> NeverEnds(st, steps, key)
    decreases |steps|
  {
    if steps != [] {
      hide Unsettled, Ends, Pass, DistinctIds;
      var e := steps[0];
      StepEnds(st, e, key);
      assert Timely(steps[1..], key, st.backoff[key].notBefore);
      if !Ends(st, e, key) { WaitSurvivesIff(StepFrom(st, e).state, steps[1..], key); }
    }
  }

  lemma StepEnds(st: State, e: Step, key: Key)
    requires key in st.backoff
    requires e.Heal? ==> e.now < st.backoff[key].notBefore && (Unsettled(e.w, key) || DistinctIds(e.w.roster))
    ensures var next := StepFrom(st, e).state.backoff;
            if Ends(st, e, key) then key !in next else key in next && next[key] == st.backoff[key]
  {
    hide Unsettled, Pass, OnRoster, Met, DistinctIds, Reaches;
    if e.Heal? {
      NotAskedInTime(e.w, e.now, e.accepted, st, key);
      PassForgets(e.w, e.now, e.accepted, st, key);
    }
  }

  // While nobody asks about the person no entry appears.
  lemma {:induction false} NoEntryAppears(st: State, steps: seq<Step>, key: Key)
    requires key !in st.backoff && NeverAsks(st, steps, key)
    ensures key !in HealerPacing.StateAfter(st, steps).backoff
    decreases |steps|
  {
    if steps != [] {
      hide Pass, OnRoster, Met, Reaches, Asks;
      var e := steps[0];
      if e.Heal? { PassForgets(e.w, e.now, e.accepted, st, key); }
      NoEntryAppears(StepFrom(st, e).state, steps[1..], key);
    }
  }

  /**
   A met wish is remembered no longer: once a pass has served the slot or called nobody, with the person wanted and
   there, they are due the moment that changes - to be removed, or invited again - at any time, until asked about.
   */
  lemma MetThenDue(w: World, now: int, accepted: bool, st: State, key: Key, steps: seq<Step>, w': World, later: int, i: nat)
    requires DistinctIds(w.roster) && Met(w, key)
    requires var call := Pass(w, now, accepted, st).call; Serves(call, key.0) || call == NoCall
    requires NeverAsks(Pass(w, now, accepted, st).state, steps, key)
    requires key.0 < |w'.slots| && i < |w'.roster| && w'.roster[i].userId == key.1
    requires ToRemove(w', key.0, w'.roster[i]) || ToInvite(w', key.0, w'.roster[i])
    ensures HasWork(w', key.0, later, HealerPacing.StateAfter(Pass(w, now, accepted, st).state, steps).backoff)
  {
    hide Pass, Met, ToRemove, ToInvite, DistinctIds;
    MetAreForgotten(w, now, accepted, st, key);
    NoEntryAppears(Pass(w, now, accepted, st).state, steps, key);
    assert DueEntry(w', key.0, later, HealerPacing.StateAfter(Pass(w, now, accepted, st).state, steps).backoff, i);
  }

  /**
   Otherwise the wait is gone: somebody missing at one housekeeping look, and wanted again under the same
   id, is due at once, however recently they were asked.
   */
  lemma AbsenceForgets(st: State, roster: seq<RosterMember>, w: World, now: int, s: nat, i: nat)
    requires s < |w.slots| && i < |w.roster| && ToInvite(w, s, w.roster[i]) && !OnRoster(roster, w.roster[i].userId)
    ensures HasWork(w, s, now, StepFrom(st, Housekeep(roster, false)).state.backoff)
  {
    hide ToInvite, OnRoster;
    assert DueEntry(w, s, now, KeepPresent(st.backoff, roster, false), i);
  }

  /**
   And once the rooms change, with the person there all along, whoever a pass has just called Zoom about is due
   again at once, at any time and in every world and state: invited or removed, accepted or refused.
   */
  lemma FlushForgets(w: World, now: int, accepted: bool, later: int, st: State)
    requires Pass(w, now, accepted, st).call != NoCall
    ensures var o := Pass(w, now, accepted, st);
            && (exists key :: Asks(o.call, key))
            && (forall key :: Asks(o.call, key) ==> HasWork(w, key.0, later, StepFrom(o.state, RoomsChanged).state.backoff))
  {
    hide PassFrom, ScanSlot, SlotAt, AfterInvite, ToInvite, ToRemove;
    var call := Pass(w, now, accepted, st).call;
    var j, c, before := PassShape(w, now, accepted, st.rr, st.backoff, st.backoff, 0);
    if j < |w.slots| {
      var s := SlotAt(w, st.rr, j);
      ScanIsHonest(w, s, now, before, |w.roster|);
      assert call.Invite? ==> Asks(call, (s, c.missing[0]));
      assert call.Removal? ==> Asks(call, (s, c.remove.value));
      forall key | Asks(call, key) ensures HasWork(w, key.0, later, map[]) {
        var i :| Entry(w, |w.roster|, i, key.1) && (ToInvite(w, s, w.roster[i]) || ToRemove(w, s, w.roster[i]));
        assert DueEntry(w, s, later, map[], i);
      }
    }
  }

  // ----- what a call leaves behind --------------------------------------------------------------------

  lemma {:induction false} InvitedWait(backoff: map<Key, Backoff>, s: nat, userIds: seq<nat>, ok: bool, now: int, u: nat)
    requires u in userIds
    ensures Waits(AfterInvite(backoff, s, userIds, ok, now), (s, u), now + 10 * SECOND)
  {
    hide RefusalWait;
    var n := |userIds| - 1;
    var before := AfterInvite(backoff, s, userIds[..n], ok, now);
    RefusalLadder(Attempts(before, (s, userIds[n])) + 1);
    if u != userIds[n] {
      assert u in userIds[..n];
      InvitedWait(backoff, s, userIds[..n], ok, now, u);
    }
  }

  // A call starts a wait: ten seconds at least for an invitation, thirty for a refused removal.
  lemma CallBacksOff(w: World, now: int, accepted: bool, st: State, key: Key)
    requires var call := Pass(w, now, accepted, st).call; Asks(call, key) && (call.Removal? ==> !accepted)
    ensures var o := Pass(w, now, accepted, st);
            Waits(o.state.backoff, key, now + if o.call.Removal? then 30 * SECOND else 10 * SECOND)
  {
    hide Waits, AfterInvite, FullScan, PassFrom, SlotAt;
    var j, c, before := PassShape(w, now, accepted, st.rr, st.backoff, st.backoff, 0);
    if j < |w.slots| { ServedWaits(w, SlotAt(w, st.rr, j), now, accepted, c, key); }
  }

  lemma ServedWaits(w: World, s: nat, now: int, accepted: bool, c: Scan, key: Key)
    requires s < |w.slots| && Busy(c)
    requires var call := Serve(w, s, now, accepted, c).call; Asks(call, key) && (call.Removal? ==> !accepted)
    ensures var o := Serve(w, s, now, accepted, c);
            Waits(o.state.backoff, key, now + if o.call.Removal? then 30 * SECOND else 10 * SECOND)
  {
    if c.missing != [] {
      hide AfterInvite;
      InvitedWait(c.backoff, s, c.missing, Fits(w, s, c.missing) && accepted, now, key.1);
    }
  }

  /**
   Whoever a pass invites, whatever Zoom answers, is asked for again by no pass of the next ten seconds,
   until Zoom has confirmed them, as long as housekeeping does not find them gone and the rooms do not change; and
   a refused removal is not repeated for thirty.
   */
  lemma NotAskedAgainSoon(w: World, now: int, accepted: bool, st: State, key: Key, steps: seq<Step>)
    requires var call := Pass(w, now, accepted, st).call; Asks(call, key) && (call.Removal? ==> !accepted)
    requires PassesBefore(steps, key, now + if Pass(w, now, accepted, st).call.Removal? then 30 * SECOND else 10 * SECOND)
    requires NeverDropped(steps, key)
    ensures NeverAsks(Pass(w, now, accepted, st).state, steps, key)
  {
    hide Pass, Asks, Waits, PassesBefore, NeverDropped, NeverAsks;
    CallBacksOff(w, now, accepted, st, key);
    var call := Pass(w, now, accepted, st).call;
    RunKeeps(Pass(w, now, accepted, st).state, steps, key, now + if call.Removal? then 30 * SECOND else 10 * SECOND);
  }

  // ----- removals --------------------------------------------------------------------------------------

  // The person may be asked for from now on.
  ghost predicate DueFrom(backoff: map<Key, Backoff>, key: Key, now: int) {
    key in backoff ==> backoff[key].notBefore <= now
  }

  lemma {:induction false} ChosenIsDue(w: World, s: nat, now: int, backoff: map<Key, Backoff>, n: nat)
    requires s < |w.slots| && n <= |w.roster|
    ensures var c := ScanSlot(w, s, now, backoff, n); c.remove.Some? ==> DueFrom(c.backoff, (s, c.remove.value), now)
  {
    if n > 0 {
      hide Want, Have, SameRoom;
      ChosenIsDue(w, s, now, backoff, n - 1);
    }
  }

  /** A removal starts a wait, of thirty seconds, if and only if it was refused. */
  lemma RemovalWaitsIff(w: World, now: int, accepted: bool, st: State)
    requires Pass(w, now, accepted, st).call.Removal?
    ensures var o := Pass(w, now, accepted, st); var key := (o.call.slot, o.call.userId);
            && (Waits(o.state.backoff, key, now + 30 * SECOND) <==> !accepted)
            && (accepted ==> DueFrom(o.state.backoff, key, now))
  {
    hide PassFrom, ScanSlot, SlotAt, AfterInvite;
    var j, c, before := PassShape(w, now, accepted, st.rr, st.backoff, st.backoff, 0);
    if j < |w.slots| { ChosenIsDue(w, SlotAt(w, st.rr, j), now, before, |w.roster|); }
  }

  /** So until Zoom confirms it, an accepted removal is due again at once, in every world and state. */
  lemma AcceptedRemovalRepeats(w: World, now: int, later: int, st: State)
    requires Pass(w, now, true, st).call.Removal? && later >= now
    ensures var o := Pass(w, now, true, st); HasWork(w, o.call.slot, later, o.state.backoff)
  {
    hide PassFrom, Want, Have, SameRoom, SlotAt;
    var i := RemovedEntry(w, now, true, st);
    RemovalWaitsIff(w, now, true, st);
    assert DueEntry(w, Pass(w, now, true, st).call.slot, later, Pass(w, now, true, st).state.backoff, i);
  }

  lemma RemovedEntry(w: World, now: int, accepted: bool, st: State) returns (i: nat)
    requires Pass(w, now, accepted, st).call.Removal?
    ensures var call := Pass(w, now, accepted, st).call;
            && call.slot < |w.slots| && i < |w.roster| && w.roster[i].userId == call.userId
            && ToRemove(w, call.slot, w.roster[i])
  {
    hide PassFrom, ScanSlot, SlotAt, AfterInvite, ToRemove;
    var j, c, before := PassShape(w, now, accepted, st.rr, st.backoff, st.backoff, 0);
    i := 0;
    if j < |w.slots| {
      var s := SlotAt(w, st.rr, j);
      ScanIsHonest(w, s, now, before, |w.roster|);
      var k :| Entry(w, |w.roster|, k, c.remove.value) && ToRemove(w, s, w.roster[k]);
      i := k;
    }
  }

  // Passes that serve other slots leave this slot's people due.
  lemma OtherSlotsLeaveDue(w: World, now: int, accepted: bool, st: State, key: Key, since: int)
    requires DueFrom(st.backoff, key, since)
    requires !Serves(Pass(w, now, accepted, st).call, key.0)
    ensures DueFrom(Pass(w, now, accepted, st).state.backoff, key, since)
  {
    hide PassFrom, FullScan, SlotAt, AfterInvite;
    var j, c, before := PassShape(w, now, accepted, st.rr, st.backoff, st.backoff, 0);
    if j < |w.slots| {
      var s := SlotAt(w, st.rr, j);
      ScanKeepsWeaker(w, s, now, before, st.backoff);
      ServeShape(w, s, now, accepted, c);
      if c.missing != [] {
        AfterInviteOthers(c.backoff, s, c.missing, Fits(w, s, c.missing) && accepted, now, key);
      }
    }
  }

  ghost predicate EverServes(st: State, steps: seq<Step>, s: nat)
    decreases |steps|
  {
    if steps == [] then false
    else
      var o := StepFrom(st, steps[0]);
      Serves(o.call, s) || EverServes(o.state, steps[1..], s)
  }

  // Zoom has not confirmed anything yet: every pass sees the same world, no earlier than this.
  ghost predicate Unconfirmed(steps: seq<Step>, w: World, since: int) {
    forall i :: 0 <= i < |steps| && steps[i].Heal? ==> steps[i].w == w && steps[i].now >= since
  }

  lemma {:induction false} DueIsServed(st: State, steps: seq<Step>, w: World, s: nat, i: nat, since: int)
    requires s < |w.slots| && i < |w.roster| && ToRemove(w, s, w.roster[i])
    requires DueFrom(st.backoff, (s, w.roster[i].userId), since)
    requires Unconfirmed(steps, w, since) && ServedOrIdle(st, steps, s)
    ensures EverServes(st, steps, s)
    decreases |steps|
  {
    hide PassFrom, ToRemove, ToInvite;
    var e := steps[0];
    assert Unconfirmed(steps[1..], w, since);
    if e.Heal? {
      assert DueEntry(w, s, e.now, st.backoff, i);
      if !Serves(StepFrom(st, e).call, s) {
        OtherSlotsLeaveDue(w, e.now, e.accepted, st, (s, w.roster[i].userId), since);
        DueIsServed(StepFrom(st, e).state, steps[1..], w, s, i, since);
      }
    } else {
      DueIsServed(StepFrom(st, e).state, steps[1..], w, s, i, since);
    }
  }

  /** An unconfirmed removal brings the healer back to the slot within one tour of passes. */
  lemma BackWithinATour(w: World, now: int, st: State, steps: seq<Step>)
    requires Pass(w, now, true, st).call.Removal?
    requires Unconfirmed(steps, w, now) && Heals(steps) >= |w.slots|
    ensures var o := Pass(w, now, true, st); EverServes(o.state, steps, o.call.slot)
  {
    hide Pass, ServedOrIdle, EverServes, ToRemove;
    var o := Pass(w, now, true, st);
    var i := RemovedEntry(w, now, true, st);
    RemovalWaitsIff(w, now, true, st);
    NoSlotStarves(o.state, steps, |w.slots|, o.call.slot);
    DueIsServed(o.state, steps, w, o.call.slot, i, now);
  }
}
