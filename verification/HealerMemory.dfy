/**
 What a healing pass does to every entry of the backoff table, exactly: src/app/main.cpp:1609-1677. A pass looks at the
 slots of its tour up to the one it serves; there it forgets whoever is wanted and present; and it writes the
 entries of those it called about.
 */
module HealerMemory {
  import opened Eligibility
  import opened Healer
  import opened HealerFairness
  import Modulo
  import opened Options
  import opened RoomPlan

  // ----- how far a pass gets --------------------------------------------------------------------------

  // The place of a slot on a tour of n slots that starts at rr.
  function Place(n: nat, rr: nat, s: nat): nat
    requires s < n
  {
    (s + n - rr % n) % n
  }

  lemma PlaceIs(n: nat, rr: nat, k: nat)
    requires k < n
    ensures Place(n, rr, (rr + k) % n) == k
  {
    var q, r := Modulo.Decompose(rr, n);
    Modulo.Add(rr, k, n);
    if r + k < n {
      Modulo.Small(r + k, n);
      Modulo.Wrap(k, n);
    } else {
      Modulo.Wrap(r + k - n, n);
      Modulo.Small(r + k - n, n);
    }
    Modulo.Small(k, n);
  }

  // The pass looked at this slot: nothing was due anywhere, or it comes no later than the slot served.
  predicate Reaches(w: World, rr: nat, call: Call, s: nat) {
    s < |w.slots| &&
    match call
    case NoCall => true
    case Invite(slot, _) => slot < |w.slots| && Place(|w.slots|, rr, s) <= Place(|w.slots|, rr, slot)
    case Removal(slot, _) => slot < |w.slots| && Place(|w.slots|, rr, s) <= Place(|w.slots|, rr, slot)
  }

  // The roster shows the person, wanted at that slot, and Zoom has confirmed them there.
  ghost predicate Met(w: World, key: Key) {
    key.0 < |w.slots| && MetAmong(w, key, |w.roster|)
  }

  ghost predicate MetAmong(w: World, key: Key, n: nat)
    requires key.0 < |w.slots| && n <= |w.roster|
  {
    exists i :: 0 <= i < n && w.roster[i].userId == key.1 && Want(w, key.0, w.roster[i]) && Have(w, key.0, w.roster[i])
  }

  // The call is about this person at this slot.
  predicate Asks(call: Call, key: Key) {
    match call
    case NoCall => false
    case Invite(s, userIds) => s == key.0 && key.1 in userIds
    case Removal(s, userId) => s == key.0 && userId == key.1
  }

  // ----- one slot -----------------------------------------------------------------------------------------

  // An entry is as it was, or gone.
  ghost predicate KeptUnless(b: map<Key, Backoff>, after: map<Key, Backoff>, key: Key, gone: bool) {
    && (key in after <==> key in b && !gone)
    && (key in after ==> after[key] == b[key])
  }

  lemma MetSnoc(w: World, key: Key, n: nat)
    requires key.0 < |w.slots| && n < |w.roster|
    ensures MetAmong(w, key, n + 1) <==>
      MetAmong(w, key, n)
      || (w.roster[n].userId == key.1 && Want(w, key.0, w.roster[n]) && Have(w, key.0, w.roster[n]))
  {
    hide Want, Have;
  }

  lemma {:induction false} ScanForgets(w: World, s: nat, now: int, backoff: map<Key, Backoff>, n: nat, key: Key)
    requires s < |w.slots| && n <= |w.roster|
    ensures KeptUnless(backoff, ScanSlot(w, s, now, backoff, n).backoff, key, key.0 == s && MetAmong(w, key, n))
  {
    if n > 0 {
      hide Want, Have, SameRoom, MetAmong;
      ScanForgets(w, s, now, backoff, n - 1, key);
      if key.0 == s { MetSnoc(w, key, n - 1); }
    } else if key.0 == s {
      assert !MetAmong(w, key, 0);
    }
  }

  lemma ServeLeaves(w: World, s: nat, now: int, accepted: bool, c: Scan, key: Key)
    requires s < |w.slots| && Busy(c) && !Asks(Serve(w, s, now, accepted, c).call, key)
    ensures KeptUnless(c.backoff, Serve(w, s, now, accepted, c).state.backoff, key, false)
  {
    if c.missing != [] {
      hide AfterInvite, Fits;
      AfterInviteOthers(c.backoff, s, c.missing, Fits(w, s, c.missing) && accepted, now, key);
    }
  }

  // ----- one pass -----------------------------------------------------------------------------------------

  lemma {:induction false} PassFromForgets(w: World, now: int, accepted: bool, rr: nat, backoff: map<Key, Backoff>, k: nat,
                                           key: Key)
    requires k <= |w.slots| && key.0 < |w.slots|
    requires !Asks(PassFrom(w, now, accepted, rr, backoff, k).call, key)
    ensures var o := PassFrom(w, now, accepted, rr, backoff, k);
            KeptUnless(backoff, o.state.backoff, key,
                       Reaches(w, rr, o.call, key.0) && k <= Place(|w.slots|, rr, key.0) && Met(w, key))
    ensures var call := PassFrom(w, now, accepted, rr, backoff, k).call;
            call.Invite? || call.Removal? ==> call.slot < |w.slots| && k <= Place(|w.slots|, rr, call.slot)
    decreases |w.slots| - k
  {
    hide Serve, ScanSlot, Place, MetAmong;
    if k < |w.slots| {
      var s := SlotAt(w, rr, k);
      var c := FullScan(w, s, now, backoff);
      PlaceIs(|w.slots|, rr, k);
      ScanForgets(w, s, now, backoff, |w.roster|, key);
      SamePlace(|w.slots|, rr, s, key.0);
      if Busy(c) {
        ServesSlot(w, s, now, accepted, c);
        ServeLeaves(w, s, now, accepted, c, key);
      } else {
        PassFromForgets(w, now, accepted, rr, c.backoff, k + 1, key);
      }
    } else {
      PlaceBelow(|w.slots|, rr, key.0);
    }
  }

  lemma PlaceBelow(n: nat, rr: nat, s: nat)
    requires s < n
    ensures Place(n, rr, s) < n
  {
  }

  lemma SamePlace(n: nat, rr: nat, s: nat, t: nat)
    requires s < n && t < n
    ensures Place(n, rr, s) == Place(n, rr, t) <==> s == t
  {
    hide Place;
    if Place(n, rr, s) == Place(n, rr, t) {
      var k := TourOffset(n, rr, s);
      var j := TourOffset(n, rr, t);
      PlaceIs(n, rr, k);
      PlaceIs(n, rr, j);
    }
  }

  lemma ServesSlot(w: World, s: nat, now: int, accepted: bool, c: Scan)
    requires s < |w.slots| && Busy(c)
    ensures var call := Serve(w, s, now, accepted, c).call; (call.Invite? || call.Removal?) && call.slot == s
  {
    hide AfterInvite, Fits;
  }

  /**
   Exactly what a pass leaves of the table, apart from those it calls about: an entry goes if and only if the pass
   looked at its slot and found the person wanted and there; every other one stays as it was, and none appears.
   */
  lemma PassForgets(w: World, now: int, accepted: bool, st: State, key: Key)
    requires !Asks(Pass(w, now, accepted, st).call, key)
    ensures var o := Pass(w, now, accepted, st);
            KeptUnless(st.backoff, o.state.backoff, key, Reaches(w, st.rr, o.call, key.0) && Met(w, key))
  {
    hide PassFrom, MetAmong, Place;
    if key.0 < |w.slots| {
      PassFromForgets(w, now, accepted, st.rr, st.backoff, 0, key);
    } else {
      BeyondBank(w, now, accepted, st.rr, st.backoff, 0, key);
    }
  }

  lemma {:induction false} BeyondBank(w: World, now: int, accepted: bool, rr: nat, backoff: map<Key, Backoff>, k: nat, key: Key)
    requires k <= |w.slots| <= key.0
    ensures KeptUnless(backoff, PassFrom(w, now, accepted, rr, backoff, k).state.backoff, key, false)
    decreases |w.slots| - k
  {
    hide Serve, ScanSlot;
    if k < |w.slots| {
      var s := SlotAt(w, rr, k);
      var c := FullScan(w, s, now, backoff);
      ScanForgets(w, s, now, backoff, |w.roster|, key);
      if Busy(c) {
        ServesSlot(w, s, now, accepted, c);
        ServeLeaves(w, s, now, accepted, c, key);
      } else {
        BeyondBank(w, now, accepted, rr, c.backoff, k + 1, key);
      }
    }
  }

  /** So after a pass that serves a slot, or calls nobody, whoever is wanted and present there has no entry. */
  lemma MetAreForgotten(w: World, now: int, accepted: bool, st: State, key: Key)
    requires DistinctIds(w.roster) && Met(w, key)
    requires var call := Pass(w, now, accepted, st).call; Serves(call, key.0) || call == NoCall
    ensures key !in Pass(w, now, accepted, st).state.backoff
  {
    hide Pass, Place;
    MetIsNotAsked(w, now, accepted, st, key);
    PassForgets(w, now, accepted, st, key);
  }

  lemma MetIsWanted(w: World, key: Key, i: nat)
    requires DistinctIds(w.roster) && Met(w, key) && i < |w.roster| && w.roster[i].userId == key.1
    ensures Want(w, key.0, w.roster[i]) && Have(w, key.0, w.roster[i])
  {
    hide Want, Have;
  }

  lemma MetIsNotAsked(w: World, now: int, accepted: bool, st: State, key: Key)
    requires DistinctIds(w.roster) && Met(w, key)
    ensures !Asks(Pass(w, now, accepted, st).call, key)
  {
    hide Pass, SameRoom, MetAmong, DistinctIds;
    CallIsJustified(w, now, accepted, st);
    forall i | Entry(w, |w.roster|, i, key.1) ensures Want(w, key.0, w.roster[i]) && Have(w, key.0, w.roster[i]) {
      MetIsWanted(w, key, i);
    }
  }

  // ----- whom a call is about -----------------------------------------------------------------------------

  // What a call about somebody makes of their entry, given their refusals so far.
  function Rewritten(b: map<Key, Backoff>, key: Key, call: Call, ok: bool, now: int): map<Key, Backoff> {
    var refusals := if key in b then b[key].attempts + 1 else 1;
    match call
    case NoCall => b
    case Invite(_, _) =>
      b[key := if ok then Backoff(0, now + 10 * SECOND) else Backoff(refusals, now + RefusalWait(refusals))]
    case Removal(_, _) => if ok then b else b[key := Backoff(refusals, now + 30 * SECOND)]
  }

  // Zoom was asked and agreed.
  predicate Granted(w: World, call: Call, accepted: bool) {
    accepted && (call.Invite? ==> call.slot < |w.slots| && Fits(w, call.slot, call.userIds))
  }

  lemma {:induction false} MissingOnce(w: World, s: nat, now: int, backoff: map<Key, Backoff>, n: nat)
    requires DistinctIds(w.roster) && s < |w.slots| && n <= |w.roster|
    ensures var ids := ScanSlot(w, s, now, backoff, n).missing;
            forall a, b :: 0 <= a < b < |ids| ==> ids[a] != ids[b]
  {
    if n > 0 {
      hide ToInvite, ToRemove, Want, Have;
      MissingOnce(w, s, now, backoff, n - 1);
      ScanIsHonest(w, s, now, backoff, n - 1);
      var ids := ScanSlot(w, s, now, backoff, n - 1).missing;
      assert forall a :: 0 <= a < |ids| ==> ids[a] in ids;
    }
  }

  lemma CalledNotMet(w: World, s: nat, now: int, backoff: map<Key, Backoff>, u: nat)
    requires DistinctIds(w.roster) && s < |w.slots|
    requires var c := FullScan(w, s, now, backoff); u in c.missing || c.remove == Some(u)
    ensures !MetAmong(w, (s, u), |w.roster|)
  {
    hide ScanSlot, SameRoom;
    ScanIsHonest(w, s, now, backoff, |w.roster|);
    var i :| Entry(w, |w.roster|, i, u) && (ToInvite(w, s, w.roster[i]) || ToRemove(w, s, w.roster[i]));
  }

  lemma ServeRewrites(w: World, s: nat, now: int, accepted: bool, backoff: map<Key, Backoff>, key: Key)
    requires DistinctIds(w.roster) && s < |w.slots| && Busy(FullScan(w, s, now, backoff))
    requires Asks(Serve(w, s, now, accepted, FullScan(w, s, now, backoff)).call, key)
    ensures var o := Serve(w, s, now, accepted, FullScan(w, s, now, backoff));
            KeptUnless(Rewritten(backoff, key, o.call, Granted(w, o.call, accepted), now), o.state.backoff, key, false)
  {
    hide ScanSlot, MetAmong, RefusalWait, Fits;
    var c := FullScan(w, s, now, backoff);
    ScanForgets(w, s, now, backoff, |w.roster|, key);
    CalledNotMet(w, s, now, backoff, key.1);
    if c.missing != [] {
      MissingOnce(w, s, now, backoff, |w.roster|);
      var i :| 0 <= i < |c.missing| && c.missing[i] == key.1;
      InviteBackoff(c.backoff, s, c.missing, Fits(w, s, c.missing) && accepted, now, i);
    }
  }

  lemma {:induction false} PassFromRewrites(w: World, now: int, accepted: bool, rr: nat, backoff: map<Key, Backoff>, k: nat,
                                            key: Key)
    requires DistinctIds(w.roster) && k <= |w.slots| && Asks(PassFrom(w, now, accepted, rr, backoff, k).call, key)
    ensures var o := PassFrom(w, now, accepted, rr, backoff, k);
            KeptUnless(Rewritten(backoff, key, o.call, Granted(w, o.call, accepted), now), o.state.backoff, key, false)
    decreases |w.slots| - k
  {
    hide Serve, ScanSlot, MetAmong, Granted, RefusalWait, Asks, DistinctIds;
    if k < |w.slots| {
      var s := SlotAt(w, rr, k);
      var c := FullScan(w, s, now, backoff);
      if Busy(c) {
        ServeRewrites(w, s, now, accepted, backoff, key);
      } else {
        PassFromRewrites(w, now, accepted, rr, c.backoff, k + 1, key);
        CalledElsewhere(w, now, accepted, rr, backoff, c.backoff, k, key);
      }
    } else {
      NobodyAsked(key);
    }
  }

  lemma NobodyAsked(key: Key)
    ensures !Asks(NoCall, key)
  {
  }

  // The slots a pass finds nothing due at hold nothing of those it calls about.
  lemma CalledElsewhere(w: World, now: int, accepted: bool, rr: nat, backoff: map<Key, Backoff>, after: map<Key, Backoff>,
                        k: nat, key: Key)
    requires DistinctIds(w.roster) && k < |w.slots| && after == FullScan(w, SlotAt(w, rr, k), now, backoff).backoff
    requires Asks(PassFrom(w, now, accepted, rr, after, k + 1).call, key)
    ensures KeptUnless(backoff, after, key, false)
  {
    hide PassFrom, ScanSlot, MetAmong;
    var s := SlotAt(w, rr, k);
    ScanForgets(w, s, now, backoff, |w.roster|, key);
    CalledIsNotMet(w, now, accepted, rr, after, k + 1, key);
  }

  lemma CalledIsNotMet(w: World, now: int, accepted: bool, rr: nat, backoff: map<Key, Backoff>, k: nat, key: Key)
    requires DistinctIds(w.roster) && k <= |w.slots| && Asks(PassFrom(w, now, accepted, rr, backoff, k).call, key)
    ensures key.0 < |w.slots| && !MetAmong(w, key, |w.roster|)
  {
    hide ScanSlot, MetAmong, PassFrom, DistinctIds;
    var j, c, before := PassShape(w, now, accepted, rr, backoff, backoff, k);
    if j < |w.slots| {
      ServesSlot(w, SlotAt(w, rr, j), now, accepted, c);
      AskedOfScan(w, SlotAt(w, rr, j), now, accepted, c, key);
      CalledNotMet(w, SlotAt(w, rr, j), now, before, key.1);
    }
  }

  lemma AskedOfScan(w: World, s: nat, now: int, accepted: bool, c: Scan, key: Key)
    requires s < |w.slots| && Busy(c) && Asks(Serve(w, s, now, accepted, c).call, key)
    ensures key.0 == s && (key.1 in c.missing || c.remove == Some(key.1))
  {
    hide AfterInvite, Fits;
  }

  /**
   And of those it calls about: an invitation writes a wait of ten seconds, or after the k-th refusal in a row 10, 20, 40
   and then 60; a refused removal writes thirty; an accepted one leaves the entry alone.
   */
  lemma PassRewrites(w: World, now: int, accepted: bool, st: State, key: Key)
    requires DistinctIds(w.roster) && Asks(Pass(w, now, accepted, st).call, key)
    ensures var o := Pass(w, now, accepted, st);
            KeptUnless(Rewritten(st.backoff, key, o.call, Granted(w, o.call, accepted), now), o.state.backoff, key, false)
  {
    hide PassFrom, RefusalWait, Granted, Asks;
    PassFromRewrites(w, now, accepted, st.rr, st.backoff, 0, key);
  }

  // ----- who is called about --------------------------------------------------------------------------------

  // The first n entries of the roster, in order, that are to be invited and due.
  function DueToInvite(w: World, s: nat, now: int, backoff: map<Key, Backoff>, n: nat): seq<nat>
    requires s < |w.slots| && n <= |w.roster|
  {
    if n == 0 then []
    else
      var m := w.roster[n - 1];
      DueToInvite(w, s, now, backoff, n - 1) + if ToInvite(w, s, m) && Due(backoff, s, m.userId, now) then [m.userId] else []
  }

  function FirstToRemove(w: World, s: nat, now: int, backoff: map<Key, Backoff>, n: nat): Option<nat>
    requires s < |w.slots| && n <= |w.roster|
  {
    if n == 0 then None
    else
      var m := w.roster[n - 1];
      var before := FirstToRemove(w, s, now, backoff, n - 1);
      if before.None? && ToRemove(w, s, m) && Due(backoff, s, m.userId, now) then Some(m.userId) else before
  }

  // The station and the person are in one room, as far as the breakout list tells.
  ghost predicate Together(w: World, name: string) {
    w.rooms.started ==> FoundIn(w.rooms.rooms, name, w.rooms.myRoom)
  }

  /** Who is to be called about, and due: from the roster entry, the intent, the confirmed members, the rooms and the
      waits themselves. */
  lemma DueMeans(w: World, s: nat, now: int, backoff: map<Key, Backoff>, m: RosterMember)
    requires s < |w.slots|
    ensures var wanted := m.supportsTalkback && m.name != w.station && (s, m.userId) in w.intent;
            var there := m.userId in w.slots[s].members;
            var open := Together(w, m.name) && ((s, m.userId) in backoff ==> backoff[(s, m.userId)].notBefore <= now);
            && (ToInvite(w, s, m) && Due(backoff, s, m.userId, now) <==> wanted && !there && open)
            && (ToRemove(w, s, m) && Due(backoff, s, m.userId, now) <==> !wanted && there && open)
  {
    hide FoundIn, RoomOfName;
    RoomOfNameIs(w.rooms.rooms, m.name, w.rooms.myRoom);
  }

  lemma DueUnless(b: map<Key, Backoff>, after: map<Key, Backoff>, s: nat, u: nat, now: int)
    requires KeptUnless(b, after, (s, u), false)
    ensures Due(after, s, u, now) <==> Due(b, s, u, now)
  {
  }

  lemma {:induction false} ScanCollects(w: World, s: nat, now: int, backoff: map<Key, Backoff>, n: nat)
    requires DistinctIds(w.roster) && s < |w.slots| && n <= |w.roster|
    ensures var c := ScanSlot(w, s, now, backoff, n);
            c.missing == DueToInvite(w, s, now, backoff, n) && c.remove == FirstToRemove(w, s, now, backoff, n)
  {
    if n > 0 {
      hide ToInvite, ToRemove, Due, DistinctIds, Want, Have;
      ScanCollects(w, s, now, backoff, n - 1);
      var c, m := ScanSlot(w, s, now, backoff, n - 1), w.roster[n - 1];
      ScanForgets(w, s, now, backoff, n - 1, (s, m.userId));
      OwnEntry(w, s, n - 1);
      DueUnless(backoff, c.backoff, s, m.userId, now);
      EntryCollects(w, s, now, c, m);
    }
  }

  lemma OwnEntry(w: World, s: nat, n: nat)
    requires DistinctIds(w.roster) && s < |w.slots| && n < |w.roster|
    ensures !MetAmong(w, (s, w.roster[n].userId), n)
  {
    hide Want, Have;
  }

  lemma EntryCollects(w: World, s: nat, now: int, c: Scan, m: RosterMember)
    requires s < |w.slots|
    ensures var c' := ScanEntry(w, s, now, c, m); var due := Due(c.backoff, s, m.userId, now);
            && c'.missing == c.missing + (if ToInvite(w, s, m) && due then [m.userId] else [])
            && c'.remove == if c.remove.None? && ToRemove(w, s, m) && due then Some(m.userId) else c.remove
  {
    hide SameRoom;
  }

  // It invites everybody due there, in roster order; only when there is nobody to invite does it remove one, the first due.
  ghost predicate Complete(w: World, now: int, backoff: map<Key, Backoff>, call: Call) {
    && (call.Invite? ==>
          call.slot < |w.slots| && call.userIds == DueToInvite(w, call.slot, now, backoff, |w.roster|))
    && (call.Removal? ==>
          && call.slot < |w.slots| && DueToInvite(w, call.slot, now, backoff, |w.roster|) == []
          && FirstToRemove(w, call.slot, now, backoff, |w.roster|) == Some(call.userId))
  }

  /**
   A call is for the first slot of the tour with anybody due; it invites everybody due there in roster order, and only when
   there is nobody to invite removes one, the first due in roster order.
   */
  lemma CallIsComplete(w: World, now: int, accepted: bool, st: State)
    requires DistinctIds(w.roster)
    ensures Complete(w, now, st.backoff, Pass(w, now, accepted, st).call)
  {
    hide PassFrom, DueToInvite, FirstToRemove, DistinctIds;
    CompleteFrom(w, now, accepted, st.rr, st.backoff, st.backoff, 0);
  }

  // The slots still ahead have the entries the pass began with.
  ghost predicate AheadAsBefore(w: World, rr: nat, original: map<Key, Backoff>, b: map<Key, Backoff>, k: nat) {
    forall key: Key :: key.0 < |w.slots| && k <= Place(|w.slots|, rr, key.0) ==> KeptUnless(original, b, key, false)
  }

  lemma {:induction false} CompleteFrom(w: World, now: int, accepted: bool, rr: nat, original: map<Key, Backoff>,
                                        backoff: map<Key, Backoff>, k: nat)
    requires DistinctIds(w.roster) && k <= |w.slots| && AheadAsBefore(w, rr, original, backoff, k)
    ensures Complete(w, now, original, PassFrom(w, now, accepted, rr, backoff, k).call)
    decreases |w.slots| - k
  {
    if k < |w.slots| {
      hide AfterInvite, Fits, ScanSlot, Place, DueToInvite, FirstToRemove, KeptUnless, DistinctIds, AheadAsBefore;
      var s := SlotAt(w, rr, k);
      var c := FullScan(w, s, now, backoff);
      ScanCollects(w, s, now, backoff, |w.roster|);
      SlotAsBefore(w, rr, original, backoff, k, now, |w.roster|);
      if !Busy(c) {
        ScanLeavesAhead(w, rr, original, backoff, k, now);
        CompleteFrom(w, now, accepted, rr, original, c.backoff, k + 1);
      }
    }
  }

  lemma {:induction false} SlotAsBefore(w: World, rr: nat, original: map<Key, Backoff>, b: map<Key, Backoff>, k: nat, now: int,
                                        n: nat)
    requires k < |w.slots| && AheadAsBefore(w, rr, original, b, k) && n <= |w.roster|
    ensures var s := SlotAt(w, rr, k);
            && DueToInvite(w, s, now, b, n) == DueToInvite(w, s, now, original, n)
            && FirstToRemove(w, s, now, b, n) == FirstToRemove(w, s, now, original, n)
  {
    if n > 0 {
      hide ToInvite, ToRemove, Due, Place;
      SlotAsBefore(w, rr, original, b, k, now, n - 1);
      var s, u := SlotAt(w, rr, k), w.roster[n - 1].userId;
      PlaceIs(|w.slots|, rr, k);
      var key: Key := (s, u);
      assert key.0 < |w.slots| && k <= Place(|w.slots|, rr, key.0);
      DueUnless(original, b, s, u, now);
    }
  }

  lemma ScanLeavesAhead(w: World, rr: nat, original: map<Key, Backoff>, b: map<Key, Backoff>, k: nat, now: int)
    requires k < |w.slots| && AheadAsBefore(w, rr, original, b, k)
    ensures AheadAsBefore(w, rr, original, FullScan(w, SlotAt(w, rr, k), now, b).backoff, k + 1)
  {
    hide ScanSlot, Place, MetAmong;
    var s := SlotAt(w, rr, k);
    PlaceIs(|w.slots|, rr, k);
    forall key: Key | key.0 < |w.slots| && k + 1 <= Place(|w.slots|, rr, key.0)
      ensures KeptUnless(original, FullScan(w, s, now, b).backoff, key, false)
    {
      ScanForgets(w, s, now, b, |w.roster|, key);
      assert KeptUnless(original, b, key, false);
    }
  }
}
