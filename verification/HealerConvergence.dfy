/**
 Healing converges: with a fixed roster and intent, no breakouts, and a Zoom that accepts and
 confirms every call before the next pass, src/app/main.cpp:1607-1678 makes exactly as many calls
 as there are slots with somebody missing plus unwanted members, and then none.
 */
module HealerConvergence {
  import opened Eligibility
  import opened Healer
  import opened HealerFairness
  import opened Options
  import opened TalkbackChannels

  // ----- who is missing, who is extra -----------------------------------------------------------

  function MissingIds(w: World, s: nat, n: nat): seq<nat>
    requires s < |w.slots| && n <= |w.roster|
  {
    if n == 0 then []
    else MissingIds(w, s, n - 1) + if ToInvite(w, s, w.roster[n - 1]) then [w.roster[n - 1].userId] else []
  }

  function ExtraIds(w: World, s: nat, n: nat): seq<nat>
    requires s < |w.slots| && n <= |w.roster|
  {
    if n == 0 then []
    else ExtraIds(w, s, n - 1) + if ToRemove(w, s, w.roster[n - 1]) then [w.roster[n - 1].userId] else []
  }

  // Calls one slot still needs: one if anybody is missing, and one for each unwanted member.
  function SlotPending(w: World, s: nat): nat
    requires s < |w.slots|
  {
    (if MissingIds(w, s, |w.roster|) != [] then 1 else 0) + |ExtraIds(w, s, |w.roster|)|
  }

  function Pending(w: World, n: nat): nat
    requires n <= |w.slots|
  {
    if n == 0 then 0 else Pending(w, n - 1) + SlotPending(w, n - 1)
  }

  // ----- the standing assumptions ---------------------------------------------------------------

  function WantedIds(w: World, s: nat): set<nat> {
    set i | 0 <= i < |w.roster| && Want(w, s, w.roster[i]) :: w.roster[i].userId
  }

  // Fixed roster with distinct ids, no breakouts, every slot ready, ten seats are enough.
  ghost predicate Calm(w: World) {
    && DistinctIds(w.roster)
    && !w.rooms.started
    && (forall s :: 0 <= s < |w.slots| ==> w.slots[s].ready)
    && (forall s :: 0 <= s < |w.slots| ==> |w.slots[s].members + WantedIds(w, s)| <= MAX_MEMBERS)
  }

  // Only invitations that were granted are still on the clock.
  ghost predicate OnlyGranted(w: World, backoff: map<Key, Backoff>) {
    forall k :: k in backoff ==> Granted(w, k)
  }

  ghost predicate Granted(w: World, k: Key) {
    k.0 < |w.slots| && k.1 in w.slots[k.0].members &&
    exists i :: 0 <= i < |w.roster| && w.roster[i].userId == k.1 && Want(w, k.0, w.roster[i])
  }

  // Everybody on the roster is in exactly the channels where they are intended and eligible.
  ghost predicate Healed(w: World) {
    forall s, i :: 0 <= s < |w.slots| && 0 <= i < |w.roster| ==> (Have(w, s, w.roster[i]) <==> Want(w, s, w.roster[i]))
  }

  function IdSet(ids: seq<nat>): set<nat> {
    set u | u in ids
  }

  // Zoom's confirmation of an accepted call.
  function Confirmed(w: World, call: Call): World
    requires call.Invite? ==> call.slot < |w.slots|
    requires call.Removal? ==> call.slot < |w.slots|
  {
    match call
    case NoCall => w
    case Invite(s, userIds) =>
      w.(slots := w.slots[s := WithMembers(w.slots[s], w.slots[s].members + IdSet(userIds))])
    case Removal(s, u) =>
      w.(slots := w.slots[s := WithMembers(w.slots[s], w.slots[s].members - {u})])
  }

  // ----- scanning a calm world ---------------------------------------------------------------------

  lemma SameIdSameEntry(w: World, i: nat, j: nat)
    requires DistinctIds(w.roster) && i < |w.roster| && j < |w.roster| && w.roster[i].userId == w.roster[j].userId
    ensures i == j
  {
  }

  lemma NeverBackedOff(w: World, s: nat, backoff: map<Key, Backoff>, i: nat)
    requires Calm(w) && OnlyGranted(w, backoff) && s < |w.slots| && i < |w.roster|
    requires ToInvite(w, s, w.roster[i]) || ToRemove(w, s, w.roster[i])
    ensures (s, w.roster[i].userId) !in backoff
  {
    var k := (s, w.roster[i].userId);
    if k in backoff {
      var j :| 0 <= j < |w.roster| && w.roster[j].userId == k.1 && Want(w, k.0, w.roster[j]);
      SameIdSameEntry(w, i, j);
    }
  }

  function FirstOf(ids: seq<nat>): Option<nat> {
    if ids == [] then None else Some(ids[0])
  }

  lemma FirstSnoc(ids: seq<nat>, u: nat)
    ensures FirstOf(ids + [u]) == if ids == [] then Some(u) else FirstOf(ids)
  {
  }

  // Nobody the healer would act on is backed off, so a scan collects all of them.
  lemma {:induction false} CalmMissing(w: World, s: nat, now: int, backoff: map<Key, Backoff>, n: nat)
    requires Calm(w) && OnlyGranted(w, backoff) && s < |w.slots| && n <= |w.roster|
    ensures var c := ScanSlot(w, s, now, backoff, n);
            c.missing == MissingIds(w, s, n) && Weaker(c.backoff, backoff)
  {
    hide Calm, OnlyGranted, ToRemove;
    if n > 0 {
      CalmMissing(w, s, now, backoff, n - 1);
      if ToInvite(w, s, w.roster[n - 1]) { NeverBackedOff(w, s, backoff, n - 1); }
    }
  }

  lemma {:induction false} CalmRemove(w: World, s: nat, now: int, backoff: map<Key, Backoff>, n: nat)
    requires Calm(w) && OnlyGranted(w, backoff) && s < |w.slots| && n <= |w.roster|
    ensures ScanSlot(w, s, now, backoff, n).remove == FirstOf(ExtraIds(w, s, n))
  {
    hide Calm, OnlyGranted;
    if n > 0 {
      CalmRemove(w, s, now, backoff, n - 1);
      CalmMissing(w, s, now, backoff, n - 1);
      var before, m := ScanSlot(w, s, now, backoff, n - 1), w.roster[n - 1];
      if ToRemove(w, s, m) {
        NeverBackedOff(w, s, backoff, n - 1);
        FirstSnoc(ExtraIds(w, s, n - 1), m.userId);
        assert ScanEntry(w, s, now, before, m).remove == if before.remove.Some? then before.remove else Some(m.userId);
      } else {
        assert ExtraIds(w, s, n) == ExtraIds(w, s, n - 1);
        assert ScanEntry(w, s, now, before, m).remove == before.remove;
      }
    }
  }

  lemma CalmScan(w: World, s: nat, now: int, backoff: map<Key, Backoff>, n: nat)
    requires Calm(w) && OnlyGranted(w, backoff) && s < |w.slots| && n <= |w.roster|
    ensures var c := ScanSlot(w, s, now, backoff, n);
            c.missing == MissingIds(w, s, n) && c.remove == FirstOf(ExtraIds(w, s, n)) && Weaker(c.backoff, backoff)
  {
    CalmMissing(w, s, now, backoff, n);
    CalmRemove(w, s, now, backoff, n);
  }

  lemma WeakerStaysGranted(w: World, b: map<Key, Backoff>, original: map<Key, Backoff>)
    requires Weaker(b, original) && OnlyGranted(w, original)
    ensures OnlyGranted(w, b)
  {
  }

  // What a pass does in a calm world: it serves the first slot of its tour with anything pending.
  lemma CalmPass(w: World, now: int, st: State) returns (s: nat, c: Scan)
    requires Calm(w) && OnlyGranted(w, st.backoff)
    ensures var o := Pass(w, now, true, st);
            if o.call == NoCall then
              OnlyGranted(w, o.state.backoff) && forall t :: 0 <= t < |w.slots| ==> SlotPending(w, t) == 0
            else
              && s < |w.slots| && SlotPending(w, s) > 0 && OnlyGranted(w, c.backoff)
              && c.missing == MissingIds(w, s, |w.roster|) && c.remove == FirstOf(ExtraIds(w, s, |w.roster|))
              && o == Serve(w, s, now, true, c)
  {
    var j, before;
    j, c, before := PassShape(w, now, true, st.rr, st.backoff, st.backoff, 0);
    WeakerStaysGranted(w, before, st.backoff);
    if j < |w.slots| {
      s := SlotAt(w, st.rr, j);
      CalmScan(w, s, now, before, |w.roster|);
      WeakerStaysGranted(w, c.backoff, before);
    } else {
      s := 0;
      IdleMeansNothingDue(w, now, true, st);
      forall t: nat | t < |w.slots| ensures SlotPending(w, t) == 0 {
        NothingDueNothingPending(w, t, now, st.backoff, |w.roster|);
      }
    }
  }

  lemma {:induction false} NothingDueNothingPending(w: World, s: nat, now: int, backoff: map<Key, Backoff>, n: nat)
    requires Calm(w) && OnlyGranted(w, backoff) && s < |w.slots| && n <= |w.roster|
    requires !HasWork(w, s, now, backoff)
    ensures MissingIds(w, s, n) == [] && ExtraIds(w, s, n) == []
  {
    if n > 0 {
      NothingDueNothingPending(w, s, now, backoff, n - 1);
      var m := w.roster[n - 1];
      if ToInvite(w, s, m) || ToRemove(w, s, m) {
        NeverBackedOff(w, s, backoff, n - 1);
        assert DueEntry(w, s, now, backoff, n - 1);
      }
    }
  }

  // ----- one confirmed call takes one off the count ---------------------------------------------------

  lemma {:induction false} MissingContent(w: World, s: nat, n: nat)
    requires s < |w.slots| && n <= |w.roster|
    ensures forall u :: u in MissingIds(w, s, n) <==> exists i :: Entry(w, n, i, u) && ToInvite(w, s, w.roster[i])
  {
    if n > 0 {
      MissingContent(w, s, n - 1);
      forall u ensures u in MissingIds(w, s, n) <==> exists i :: Entry(w, n, i, u) && ToInvite(w, s, w.roster[i]) {
        if exists i :: Entry(w, n, i, u) && ToInvite(w, s, w.roster[i]) {
          var i :| Entry(w, n, i, u) && ToInvite(w, s, w.roster[i]);
          if i < n - 1 { assert Entry(w, n - 1, i, u); }
        }
        if u in MissingIds(w, s, n - 1) {
          var i :| Entry(w, n - 1, i, u) && ToInvite(w, s, w.roster[i]);
          assert Entry(w, n, i, u);
        } else if u in MissingIds(w, s, n) {
          assert Entry(w, n, n - 1, u);
        }
      }
    }
  }

  // Slots other than the one served need what they needed.
  lemma {:induction false} OtherSlots(w: World, w': World, t: nat, n: nat)
    requires w' == w.(slots := w'.slots) && |w'.slots| == |w.slots|
    requires t < |w.slots| && w'.slots[t] == w.slots[t] && n <= |w.roster|
    ensures MissingIds(w', t, n) == MissingIds(w, t, n) && ExtraIds(w', t, n) == ExtraIds(w, t, n)
  {
    if n > 0 { OtherSlots(w, w', t, n - 1); }
  }

  lemma {:induction false} PendingAfter(w: World, w': World, s: nat, n: nat)
    requires w' == w.(slots := w'.slots) && |w'.slots| == |w.slots|
    requires s < |w.slots| && (forall t :: 0 <= t < |w.slots| && t != s ==> w'.slots[t] == w.slots[t])
    requires SlotPending(w', s) + 1 == SlotPending(w, s)
    requires n <= |w.slots|
    ensures Pending(w, n) == Pending(w', n) + if s < n then 1 else 0
  {
    if n > 0 {
      PendingAfter(w, w', s, n - 1);
      if n - 1 != s { OtherSlots(w, w', n - 1, |w.roster|); }
    }
  }

  lemma EntryAfterInvite(w: World, s: nat, members: set<nat>, i: nat)
    requires DistinctIds(w.roster) && s < |w.slots| && i < |w.roster|
    requires !w.rooms.started && members == w.slots[s].members + IdSet(MissingIds(w, s, |w.roster|))
    ensures var w' := w.(slots := w.slots[s := WithMembers(w.slots[s], members)]);
            !ToInvite(w', s, w.roster[i]) && (ToRemove(w', s, w.roster[i]) <==> ToRemove(w, s, w.roster[i]))
  {
    MissingContent(w, s, |w.roster|);
    var m := w.roster[i];
    assert Entry(w, |w.roster|, i, m.userId);
    if m.userId in MissingIds(w, s, |w.roster|) {
      var j :| Entry(w, |w.roster|, j, m.userId) && ToInvite(w, s, w.roster[j]);
      SameIdSameEntry(w, i, j);
    }
  }

  // After everybody missing has joined nobody is missing, and the newcomers are all wanted.
  lemma {:induction false} InviteServes(w: World, s: nat, members: set<nat>, n: nat)
    requires DistinctIds(w.roster) && !w.rooms.started && s < |w.slots| && n <= |w.roster|
    requires members == w.slots[s].members + IdSet(MissingIds(w, s, |w.roster|))
    ensures var w' := w.(slots := w.slots[s := WithMembers(w.slots[s], members)]);
            MissingIds(w', s, n) == [] && ExtraIds(w', s, n) == ExtraIds(w, s, n)
  {
    hide ToInvite, ToRemove, IdSet, WithMembers, DistinctIds;
    if n > 0 {
      InviteServes(w, s, members, n - 1);
      EntryAfterInvite(w, s, members, n - 1);
    }
  }

  lemma {:induction false} ExtraContent(w: World, s: nat, n: nat, u: nat)
    requires s < |w.slots| && n <= |w.roster| && u in ExtraIds(w, s, n)
    ensures exists i :: Entry(w, n, i, u) && ToRemove(w, s, w.roster[i])
  {
    if u in ExtraIds(w, s, n - 1) {
      ExtraContent(w, s, n - 1, u);
      var i :| Entry(w, n - 1, i, u) && ToRemove(w, s, w.roster[i]);
      assert Entry(w, n, i, u);
    } else {
      assert Entry(w, n, n - 1, u);
    }
  }

  // Removing the k-th entry's person takes exactly that entry out of the extras.
  lemma {:induction false} RemovalServes(w: World, s: nat, k: nat, n: nat)
    requires DistinctIds(w.roster) && !w.rooms.started && s < |w.slots| && n <= |w.roster| && k < |w.roster|
    requires ToRemove(w, s, w.roster[k])
    ensures var u := w.roster[k].userId;
            var w' := w.(slots := w.slots[s := WithMembers(w.slots[s], w.slots[s].members - {u})]);
            && MissingIds(w', s, n) == MissingIds(w, s, n)
            && |ExtraIds(w, s, n)| == |ExtraIds(w', s, n)| + if k < n then 1 else 0
  {
    if n > 0 {
      RemovalServes(w, s, k, n - 1);
      if n - 1 != k { assert w.roster[n - 1].userId != w.roster[k].userId; }
    }
  }

  // ----- seats ------------------------------------------------------------------------------------------

  lemma SnocSize(ids: seq<nat>, u: nat)
    requires u !in ids
    ensures |IdSet(ids + [u])| == |IdSet(ids)| + 1
  {
    assert IdSet(ids + [u]) == IdSet(ids) + {u};
  }

  lemma {:induction false} MissingAreDistinct(w: World, s: nat, n: nat)
    requires DistinctIds(w.roster) && s < |w.slots| && n <= |w.roster|
    ensures |IdSet(MissingIds(w, s, n))| == |MissingIds(w, s, n)|
  {
    if n > 0 {
      MissingAreDistinct(w, s, n - 1);
      var ids, more := MissingIds(w, s, n - 1), MissingIds(w, s, n);
      var m := w.roster[n - 1];
      if ToInvite(w, s, m) {
        MissingContent(w, s, n - 1);
        assert forall i :: 0 <= i < n - 1 ==> w.roster[i].userId != m.userId;
        SnocSize(ids, m.userId);
      } else {
        assert more == ids;
      }
    }
  }

  lemma MissingAreWanted(w: World, s: nat)
    requires s < |w.slots|
    ensures forall u :: u in MissingIds(w, s, |w.roster|) ==> u in WantedIds(w, s) && u !in w.slots[s].members
  {
    MissingContent(w, s, |w.roster|);
    forall u | u in MissingIds(w, s, |w.roster|) ensures u in WantedIds(w, s) && u !in w.slots[s].members {
      var i :| Entry(w, |w.roster|, i, u) && ToInvite(w, s, w.roster[i]);
    }
  }

  // Ten seats for members and wanted together are ten seats for the invitation.
  lemma InvitationFits(w: World, s: nat)
    requires Calm(w) && s < |w.slots|
    ensures Fits(w, s, MissingIds(w, s, |w.roster|))
  {
    var ids := MissingIds(w, s, |w.roster|);
    var newcomers := IdSet(ids);
    var members := w.slots[s].members;
    MissingAreDistinct(w, s, |w.roster|);
    MissingAreWanted(w, s);
    assert members !! newcomers;
    assert |members + newcomers| == |members| + |newcomers|;
    SubsetSize(members + newcomers, members + WantedIds(w, s));
  }

  // ----- one pass, confirmed -----------------------------------------------------------------------------

  ghost predicate Progress(w: World, w': World, now: int, st: State) {
    var o := Pass(w, now, true, st);
    && Calm(w') && |w'.slots| == |w.slots| && w' == w.(slots := w'.slots)
    && OnlyGranted(w', o.state.backoff)
    && Pending(w', |w'.slots|) + 1 == Pending(w, |w.slots|)
  }

  lemma CalmStays(w: World, s: nat, members: set<nat>)
    requires Calm(w) && s < |w.slots|
    requires members <= w.slots[s].members + WantedIds(w, s)
    ensures Calm(w.(slots := w.slots[s := WithMembers(w.slots[s], members)]))
  {
    var w' := w.(slots := w.slots[s := WithMembers(w.slots[s], members)]);
    forall t | 0 <= t < |w'.slots| ensures |w'.slots[t].members + WantedIds(w', t)| <= MAX_MEMBERS {
      assert WantedIds(w', t) == WantedIds(w, t);
      SubsetSize(w'.slots[t].members + WantedIds(w', t), w.slots[t].members + WantedIds(w, t));
    }
  }

  lemma {:induction false} AfterInviteKeys(backoff: map<Key, Backoff>, s: nat, userIds: seq<nat>, ok: bool, now: int)
    ensures forall k :: k in AfterInvite(backoff, s, userIds, ok, now) <==> k in backoff || (k.0 == s && k.1 in userIds)
  {
    if userIds != [] { AfterInviteKeys(backoff, s, userIds[..|userIds| - 1], ok, now); }
  }

  lemma ConfirmedInvite(w: World, s: nat, now: int, st: State, c: Scan)
    requires Calm(w) && s < |w.slots| && OnlyGranted(w, c.backoff)
    requires c.missing == MissingIds(w, s, |w.roster|) && c.missing != []
    requires Pass(w, now, true, st) == Serve(w, s, now, true, c)
    ensures Progress(w, Confirmed(w, Invite(s, c.missing)), now, st)
  {
    var newcomers := IdSet(c.missing);
    var members := w.slots[s].members + newcomers;
    var w' := Confirmed(w, Invite(s, c.missing));
    InvitationFits(w, s);
    MissingAreWanted(w, s);
    CalmStays(w, s, members);
    InviteServes(w, s, members, |w.roster|);
    PendingAfter(w, w', s, |w.slots|);
    AfterInviteKeys(c.backoff, s, c.missing, true, now);
    forall k | k in AfterInvite(c.backoff, s, c.missing, true, now) ensures Granted(w', k) {
      GrantedAfterInvite(w, s, c, k);
    }
  }

  lemma GrantedAfterInvite(w: World, s: nat, c: Scan, k: Key)
    requires s < |w.slots| && OnlyGranted(w, c.backoff) && c.missing == MissingIds(w, s, |w.roster|)
    requires k in c.backoff || (k.0 == s && k.1 in c.missing)
    ensures Granted(Confirmed(w, Invite(s, c.missing)), k)
  {
    var w' := Confirmed(w, Invite(s, c.missing));
    if k in c.backoff {
      assert Granted(w, k);
      var i :| 0 <= i < |w.roster| && w.roster[i].userId == k.1 && Want(w, k.0, w.roster[i]);
      assert Want(w', k.0, w'.roster[i]);
    } else {
      MissingContent(w, s, |w.roster|);
      var i :| Entry(w, |w.roster|, i, k.1) && ToInvite(w, s, w.roster[i]);
      assert Want(w', s, w'.roster[i]);
    }
  }

  lemma ConfirmedRemoval(w: World, s: nat, now: int, st: State, c: Scan)
    requires Calm(w) && s < |w.slots| && OnlyGranted(w, c.backoff)
    requires c.missing == MissingIds(w, s, |w.roster|) == []
    requires c.remove == FirstOf(ExtraIds(w, s, |w.roster|)) && c.remove.Some?
    requires Pass(w, now, true, st) == Serve(w, s, now, true, c)
    ensures Progress(w, Confirmed(w, Removal(s, c.remove.value)), now, st)
  {
    hide Want, Have, ToInvite, ToRemove, Granted, IdSet;
    var u := c.remove.value;
    var w' := Confirmed(w, Removal(s, u));
    ExtraContent(w, s, |w.roster|, u);
    var k :| Entry(w, |w.roster|, k, u) && ToRemove(w, s, w.roster[k]);
    CalmStays(w, s, w.slots[s].members - {u});
    RemovalServes(w, s, k, |w.roster|);
    PendingAfter(w, w', s, |w.slots|);
    forall key | key in c.backoff ensures Granted(w', key) { GrantedAfterRemoval(w, s, k, key); }
    assert OnlyGranted(w', c.backoff);
  }

  // Whoever is removed was not wanted, so was never granted an invitation there.
  lemma GrantedAfterRemoval(w: World, s: nat, k: nat, key: Key)
    requires DistinctIds(w.roster) && s < |w.slots| && k < |w.roster| && ToRemove(w, s, w.roster[k]) && Granted(w, key)
    ensures Granted(Confirmed(w, Removal(s, w.roster[k].userId)), key)
  {
    var w' := Confirmed(w, Removal(s, w.roster[k].userId));
    var i :| 0 <= i < |w.roster| && w.roster[i].userId == key.1 && Want(w, key.0, w.roster[i]);
    assert w.roster[i].userId == w.roster[k].userId ==> i == k;
    assert Want(w', key.0, w'.roster[i]);
  }

  // ----- to the end -----------------------------------------------------------------------------------------

  // Passes at the given times, each call accepted and confirmed before the next.
  function HealFor(w: World, st: State, nows: seq<int>): (World, State)
    decreases |nows|
  {
    if nows == [] then (w, st)
    else
      var o := Pass(w, nows[0], true, st);
      if (o.call.Invite? || o.call.Removal?) && o.call.slot < |w.slots|
      then HealFor(Confirmed(w, o.call), o.state, nows[1..])
      else HealFor(w, o.state, nows[1..])
  }

  lemma {:induction false} PendingZero(w: World, n: nat)
    requires n <= |w.slots|
    ensures Pending(w, n) == 0 <==> forall t :: 0 <= t < n ==> SlotPending(w, t) == 0
  {
    hide SlotPending;
    if n > 0 { PendingZero(w, n - 1); }
  }

  lemma {:induction false} NothingPendingEntry(w: World, s: nat, n: nat, i: nat)
    requires s < |w.slots| && i < n <= |w.roster|
    requires MissingIds(w, s, n) == [] && ExtraIds(w, s, n) == []
    ensures !ToInvite(w, s, w.roster[i]) && !ToRemove(w, s, w.roster[i])
  {
    if i < n - 1 { NothingPendingEntry(w, s, n - 1, i); }
  }

  lemma NothingPendingMeansHealed(w: World)
    requires !w.rooms.started && Pending(w, |w.slots|) == 0
    ensures Healed(w)
  {
    PendingZero(w, |w.slots|);
    forall s, i | 0 <= s < |w.slots| && 0 <= i < |w.roster|
      ensures Have(w, s, w.roster[i]) <==> Want(w, s, w.roster[i])
    {
      assert SlotPending(w, s) == 0;
      NothingPendingEntry(w, s, |w.roster|, i);
    }
  }

  lemma HealedLeavesNobody(w: World, s: nat, i: nat)
    requires Healed(w) && s < |w.slots| && i < |w.roster|
    ensures Have(w, s, w.roster[i]) <==> Want(w, s, w.roster[i])
  {
  }

  // With nothing pending every pass is idle, whatever Zoom would have answered.
  lemma NothingPendingMeansIdle(w: World, now: int, accepted: bool, st: State)
    requires Healed(w)
    ensures Pass(w, now, accepted, st).call == NoCall
  {
    var j, c, before := PassShape(w, now, accepted, st.rr, st.backoff, st.backoff, 0);
    if j < |w.slots| {
      var s := SlotAt(w, st.rr, j);
      HealedScansIdle(w, s, now, before, |w.roster|);
    }
  }

  lemma {:induction false} HealedScansIdle(w: World, s: nat, now: int, backoff: map<Key, Backoff>, n: nat)
    requires Healed(w) && s < |w.slots| && n <= |w.roster|
    ensures !Busy(ScanSlot(w, s, now, backoff, n))
  {
    if n > 0 {
      HealedScansIdle(w, s, now, backoff, n - 1);
      HealedLeavesNobody(w, s, n - 1);
    }
  }

  /** Each pass takes exactly one off the pending count until it is zero. */
  lemma {:induction false} HealingCountsDown(w: World, st: State, nows: seq<int>)
    requires Calm(w) && OnlyGranted(w, st.backoff)
    ensures var end := HealFor(w, st, nows);
            && Calm(end.0) && |end.0.slots| == |w.slots| && end.0 == w.(slots := end.0.slots)
            && OnlyGranted(end.0, end.1.backoff)
            && Pending(end.0, |w.slots|) == if |nows| <= Pending(w, |w.slots|) then Pending(w, |w.slots|) - |nows| else 0
    decreases |nows|
  {
    if nows != [] {
      var o := Pass(w, nows[0], true, st);
      var s, c := CalmPass(w, nows[0], st);
      if o.call == NoCall {
        PendingZero(w, |w.slots|);
        HealingCountsDown(w, o.state, nows[1..]);
      } else {
        if c.missing != [] {
          ConfirmedInvite(w, s, nows[0], st, c);
        } else {
          ConfirmedRemoval(w, s, nows[0], st, c);
        }
        PendingZero(w, |w.slots|);
        HealingCountsDown(Confirmed(w, o.call), o.state, nows[1..]);
      }
    }
  }

  /** Convergence. From an empty backoff table, after as many passes as there are slots with somebody
      missing plus unwanted members, everybody on the roster is in exactly the channels where they are
      intended and eligible, and no later pass calls Zoom. */
  lemma HealingConverges(w: World, rr: nat, nows: seq<int>)
    requires Calm(w) && |nows| >= Pending(w, |w.slots|)
    ensures var end := HealFor(w, State(map[], rr), nows);
            && Healed(end.0)
            && forall now, accepted, st :: Pass(end.0, now, accepted, st).call == NoCall
  {
    HealingCountsDown(w, State(map[], rr), nows);
    var end := HealFor(w, State(map[], rr), nows);
    NothingPendingMeansHealed(end.0);
    forall now, accepted, st ensures Pass(end.0, now, accepted, st).call == NoCall {
      NothingPendingMeansIdle(end.0, now, accepted, st);
    }
  }
}
