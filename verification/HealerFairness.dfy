/**
 What one healing pass may do, and that no slot starves: src/app/main.cpp:1600-1678.
 Nothing is assumed about the environment: roster, intent, rooms, membership, clock and Zoom's
 answers may be different on every pass.
 */
module HealerFairness {
  import opened Eligibility
  import opened Healer
  import Modulo
  import opened Options
  import Powers

  // ----- scanning --------------------------------------------------------------------------------

  // Forgetting backoff entries only makes more people due.
  ghost predicate Weaker(b: map<Key, Backoff>, original: map<Key, Backoff>) {
    forall k :: k in b ==> k in original && b[k] == original[k]
  }

  ghost predicate Entry(w: World, n: nat, i: int, userId: nat) {
    0 <= i < n <= |w.roster| && w.roster[i].userId == userId
  }

  lemma {:induction false} ScanIsHonest(w: World, s: nat, now: int, backoff: map<Key, Backoff>, n: nat)
    requires s < |w.slots| && n <= |w.roster|
    ensures var c := ScanSlot(w, s, now, backoff, n);
            && Weaker(c.backoff, backoff)
            && (forall u :: u in c.missing ==> exists i :: Entry(w, n, i, u) && ToInvite(w, s, w.roster[i]))
            && (c.remove.Some? ==> exists i :: Entry(w, n, i, c.remove.value) && ToRemove(w, s, w.roster[i]))
  {
    if n > 0 {
      ScanIsHonest(w, s, now, backoff, n - 1);
      var before, c := ScanSlot(w, s, now, backoff, n - 1), ScanSlot(w, s, now, backoff, n);
      var m := w.roster[n - 1];
      forall u | u in c.missing ensures exists i :: Entry(w, n, i, u) && ToInvite(w, s, w.roster[i]) {
        if u in before.missing {
          var i :| Entry(w, n - 1, i, u) && ToInvite(w, s, w.roster[i]);
          assert Entry(w, n, i, u);
        } else {
          assert Entry(w, n, n - 1, u);
        }
      }
      if c.remove.Some? {
        if before.remove.Some? {
          var i :| Entry(w, n - 1, i, before.remove.value) && ToRemove(w, s, w.roster[i]);
          assert Entry(w, n, i, c.remove.value);
        } else {
          assert Entry(w, n, n - 1, c.remove.value);
        }
      }
    }
  }

  // Somebody at this slot is to be invited or removed and not backed off.
  ghost predicate HasWork(w: World, s: nat, now: int, backoff: map<Key, Backoff>) {
    s < |w.slots| && exists i :: 0 <= i < |w.roster| && DueEntry(w, s, now, backoff, i)
  }

  ghost predicate DueEntry(w: World, s: nat, now: int, backoff: map<Key, Backoff>, i: nat)
    requires s < |w.slots| && i < |w.roster|
  {
    (ToInvite(w, s, w.roster[i]) || ToRemove(w, s, w.roster[i])) && Due(backoff, s, w.roster[i].userId, now)
  }

  lemma {:induction false} ScanFindsWork(w: World, s: nat, now: int, original: map<Key, Backoff>,
                                         backoff: map<Key, Backoff>, i: nat, n: nat)
    requires s < |w.slots| && i < n <= |w.roster|
    requires Weaker(backoff, original) && DueEntry(w, s, now, original, i)
    ensures Busy(ScanSlot(w, s, now, backoff, n))
  {
    ScanIsHonest(w, s, now, backoff, n - 1);
    if i < n - 1 { ScanFindsWork(w, s, now, original, backoff, i, n - 1); }
  }

  // ----- one pass ----------------------------------------------------------------------------------

  predicate Serves(call: Call, s: nat) {
    match call
    case NoCall => false
    case Invite(slot, _) => slot == s
    case Removal(slot, _) => slot == s
  }

  // The pass served the j-th slot of its tour, or found nothing to do anywhere.
  lemma {:induction false} PassShape(w: World, now: int, accepted: bool, rr: nat, original: map<Key, Backoff>,
                                     backoff: map<Key, Backoff>, k: nat)
    returns (j: nat, c: Scan, before: map<Key, Backoff>)
    requires k <= |w.slots| && Weaker(backoff, original)
    ensures k <= j <= |w.slots|
    ensures forall i: nat :: k <= i < j ==> !HasWork(w, SlotAt(w, rr, i), now, original)
    ensures Weaker(before, original)
    ensures j == |w.slots| ==> PassFrom(w, now, accepted, rr, backoff, k) == Outcome(State(before, rr), NoCall)
    ensures j < |w.slots| ==>
      && c == FullScan(w, SlotAt(w, rr, j), now, before) && Busy(c)
      && PassFrom(w, now, accepted, rr, backoff, k) == Serve(w, SlotAt(w, rr, j), now, accepted, c)
    decreases |w.slots| - k
  {
    j, before, c := k, backoff, Scan(backoff, [], None);
    if k < |w.slots| {
      var s := SlotAt(w, rr, k);
      c := FullScan(w, s, now, backoff);
      if !Busy(c) {
        ScanIsHonest(w, s, now, backoff, |w.roster|);
        if HasWork(w, s, now, original) {
          var i :| 0 <= i < |w.roster| && DueEntry(w, s, now, original, i);
          ScanFindsWork(w, s, now, original, backoff, i, |w.roster|);
        }
        j, c, before := PassShape(w, now, accepted, rr, original, c.backoff, k + 1);
      }
    }
  }

  ghost predicate Invitable(w: World, s: nat, u: nat)
    requires s < |w.slots|
  {
    (s, u) in w.intent && u !in w.slots[s].members &&
    exists i :: Entry(w, |w.roster|, i, u) && IsTalkbackEligible(w.roster[i], w.station) && SameRoom(w, w.roster[i])
  }

  /** Whoever a pass invites is on the roster, eligible, intended for that slot, not yet a member of it
      and in the station's room; whoever it removes is a member there, in the room, and not wanted. */
  lemma CallIsJustified(w: World, now: int, accepted: bool, st: State)
    ensures match Pass(w, now, accepted, st).call
      case NoCall => true
      case Invite(s, userIds) =>
        && s < |w.slots| && userIds != []
        && forall u :: u in userIds ==> Invitable(w, s, u)
      case Removal(s, u) =>
        && s < |w.slots| && u in w.slots[s].members
        && exists i :: Entry(w, |w.roster|, i, u) && SameRoom(w, w.roster[i]) && !Want(w, s, w.roster[i])
  {
    var j, c, before := PassShape(w, now, accepted, st.rr, st.backoff, st.backoff, 0);
    if j < |w.slots| {
      var s := SlotAt(w, st.rr, j);
      ScanIsHonest(w, s, now, before, |w.roster|);
      if c.missing != [] {
        forall u | u in c.missing ensures Invitable(w, s, u) {
          var i :| Entry(w, |w.roster|, i, u) && ToInvite(w, s, w.roster[i]);
          assert Entry(w, |w.roster|, i, u);
        }
      } else {
        var i :| Entry(w, |w.roster|, i, c.remove.value) && ToRemove(w, s, w.roster[i]);
        assert Entry(w, |w.roster|, i, c.remove.value);
      }
    }
  }

  /** A pass makes no call only when no slot has anybody due. */
  lemma IdleMeansNothingDue(w: World, now: int, accepted: bool, st: State)
    ensures Pass(w, now, accepted, st).call == NoCall ==> forall s: nat :: !HasWork(w, s, now, st.backoff)
  {
    var j, c, before := PassShape(w, now, accepted, st.rr, st.backoff, st.backoff, 0);
    if j == |w.slots| {
      forall s: nat | s < |w.slots| ensures !HasWork(w, s, now, st.backoff) {
        var k := TourIndex(w, st.rr, s);
        assert SlotAt(w, st.rr, k) == s;
      }
    }
  }

  // ----- the tour ------------------------------------------------------------------------------------

  // Every slot comes up on a tour, whatever slot it starts at.
  lemma TourOffset(n: nat, rr: nat, s: nat) returns (k: nat)
    requires s < n
    ensures k < n && (rr + k) % n == s
  {
    var q, r := Modulo.Decompose(rr, n);
    k := if r <= s then s - r else s + n - r;
    Modulo.Add(rr, k, n);
    Modulo.Small(s, n);
    Modulo.Wrap(s, n);
  }

  lemma TourIndex(w: World, rr: nat, s: nat) returns (k: nat)
    requires s < |w.slots|
    ensures k < |w.slots| && SlotAt(w, rr, k) == s
  {
    k := TourOffset(|w.slots|, rr, s);
  }

  // Serving an earlier slot of the tour brings every later one closer to the front of the next.
  lemma TourAdvances(w: World, w': World, rr: nat, j: nat, k: nat)
    requires |w'.slots| == |w.slots| && j < k < |w.slots|
    ensures SlotAt(w', SlotAt(w, rr, j) + 1, k - j - 1) == SlotAt(w, rr, k)
  {
    Modulo.Add(rr + j, k - j, |w.slots|);
  }

  // ----- runs ------------------------------------------------------------------------------------------

  function Heals(steps: seq<Step>): nat {
    if steps == [] then 0 else (if steps[0].Heal? then 1 else 0) + Heals(steps[1..])
  }

  ghost predicate SlotCount(steps: seq<Step>, n: nat) {
    forall i :: 0 <= i < |steps| && steps[i].Heal? ==> |steps[i].w.slots| == n
  }

  // Some pass served the slot, or found nothing due at it.
  ghost predicate ServedOrIdle(st: State, steps: seq<Step>, s: nat)
    decreases |steps|
  {
    if steps == [] then false
    else
      var o := StepFrom(st, steps[0]);
      || (steps[0].Heal? && (Serves(o.call, s) || !HasWork(steps[0].w, s, steps[0].now, st.backoff)))
      || ServedOrIdle(o.state, steps[1..], s)
  }

  lemma {:induction false} FairFrom(st: State, steps: seq<Step>, n: nat, s: nat, k: nat)
    requires 0 < n && s < n && k < n && k < Heals(steps)
    requires SlotCount(steps, n) && (st.rr + k) % n == s
    ensures ServedOrIdle(st, steps, s)
    decreases |steps|
  {
    hide HasWork, PassFrom, FullScan, Serve, KeepPresent;
    var e := steps[0];
    var o := StepFrom(st, e);
    assert SlotCount(steps[1..], n);
    if e.Heal? {
      var j, c, before := PassShape(e.w, e.now, e.accepted, st.rr, st.backoff, st.backoff, 0);
      assert SlotAt(e.w, st.rr, k) == s;
      if HasWork(e.w, s, e.now, st.backoff) && j < k {
        ServeShape(e.w, SlotAt(e.w, st.rr, j), e.now, e.accepted, c);
        TourAdvances(e.w, e.w, st.rr, j, k);
        FairFrom(o.state, steps[1..], n, s, k - j - 1);
      } else if j == k {
        ServeShape(e.w, SlotAt(e.w, st.rr, j), e.now, e.accepted, c);
      }
    } else {
      FairFrom(o.state, steps[1..], n, s, k);
    }
  }

  lemma ServeShape(w: World, s: nat, now: int, accepted: bool, c: Scan)
    requires s < |w.slots| && Busy(c)
    ensures var o := Serve(w, s, now, accepted, c); Serves(o.call, s) && o.state.rr == s + 1
  {
    hide AfterInvite, Fits;
  }

  /** Fairness. Over any run holding n passes on n slots, every slot is served, unless on some pass it had
      nobody due - whatever else is waiting, whatever Zoom answers, whatever changes in between, and
      whoever housekeeping forgets. */
  lemma NoSlotStarves(st: State, steps: seq<Step>, n: nat, s: nat)
    requires s < n <= Heals(steps) && SlotCount(steps, n)
    ensures ServedOrIdle(st, steps, s)
  {
    var k := TourOffset(n, st.rr, s);
    FairFrom(st, steps, n, s, k);
  }

  // ----- backoff ----------------------------------------------------------------------------------------

  // With distinct ids a scan forgets nobody it collects, so only people due beforehand are collected.
  lemma {:induction false} ScanRespectsBackoff(w: World, s: nat, now: int, backoff: map<Key, Backoff>, n: nat)
    requires s < |w.slots| && n <= |w.roster| && DistinctIds(w.roster)
    ensures var c := ScanSlot(w, s, now, backoff, n);
            && (forall i :: n <= i < |w.roster| ==> ((s, w.roster[i].userId) in backoff ==>
                  (s, w.roster[i].userId) in c.backoff && c.backoff[(s, w.roster[i].userId)] == backoff[(s, w.roster[i].userId)]))
            && (forall u :: u in c.missing ==> Due(backoff, s, u, now))
            && (c.remove.Some? ==> Due(backoff, s, c.remove.value, now))
  {
    if n > 0 { ScanRespectsBackoff(w, s, now, backoff, n - 1); }
  }

  // A tour that finds nothing at other slots leaves this slot's entries alone.
  lemma {:induction false} ScanOwnSlotOnly(w: World, s: nat, now: int, backoff: map<Key, Backoff>, n: nat, key: Key)
    requires s < |w.slots| && n <= |w.roster| && key.0 != s && key in backoff
    ensures var b := ScanSlot(w, s, now, backoff, n).backoff; key in b && b[key] == backoff[key]
  {
    if n > 0 { ScanOwnSlotOnly(w, s, now, backoff, n - 1, key); }
  }

  lemma RefusalLadder(attempts: nat)
    requires attempts >= 1
    ensures RefusalWait(attempts) ==
      if attempts == 1 then 10 * SECOND else if attempts == 2 then 20 * SECOND
      else if attempts == 3 then 40 * SECOND else 60 * SECOND
  {
    assert Powers.Pow2(1) == 2;
    assert Powers.Pow2(2) == 4;
    assert Powers.Pow2(3) == 8;
    assert Powers.Pow2(4) == 16;
  }

  lemma {:induction false} AfterInviteOthers(backoff: map<Key, Backoff>, s: nat, userIds: seq<nat>, ok: bool, now: int, key: Key)
    requires key.0 != s || key.1 !in userIds
    ensures var b := AfterInvite(backoff, s, userIds, ok, now);
            (key in b <==> key in backoff) && (key in b ==> b[key] == backoff[key])
  {
    if userIds != [] {
      AfterInviteOthers(backoff, s, userIds[..|userIds| - 1], ok, now, key);
      assert userIds[|userIds| - 1] in userIds;
    }
  }

  /** A person whose invite is refused for the k-th time in a row waits 10, 20, 40, then 60 seconds -
      never five, the count being advanced before it is used. An accepted invite resets the count. */
  lemma {:induction false} InviteBackoff(backoff: map<Key, Backoff>, s: nat, userIds: seq<nat>, ok: bool, now: int, i: nat)
    requires i < |userIds| && forall a, b :: 0 <= a < b < |userIds| ==> userIds[a] != userIds[b]
    ensures var b := AfterInvite(backoff, s, userIds, ok, now); var key := (s, userIds[i]);
            key in b && b[key] == if ok then Backoff(0, now + 10 * SECOND)
                                  else Backoff(Attempts(backoff, key) + 1, now + RefusalWait(Attempts(backoff, key) + 1))
  {
    var n := |userIds| - 1;
    if i == n {
      assert userIds[n] !in userIds[..n];
      AfterInviteOthers(backoff, s, userIds[..n], ok, now, (s, userIds[n]));
    } else {
      InviteBackoff(backoff, s, userIds[..n], ok, now, i);
      assert (s, userIds[i]) != (s, userIds[n]);
    }
  }
}
