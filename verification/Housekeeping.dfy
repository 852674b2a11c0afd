/**
 The housekeeping pass over the intent table: src/app/main.cpp:1531-1596. It forgets people shown to be
 ineligible, then, unless breakouts run, people who are not there, and then places newcomers.
 */
module Housekeeping {
  import opened AutoAssign
  import opened Eligibility
  import opened TalkbackChannels

  // ----- the reference -----------------------------------------------------------------------------

  function Pruned(v: View, t: Table): Table {
    Table(set p | p in t.intent && !KnownIneligible(v.roster, v.station, p.1) && (v.started || OnRoster(v.roster, p.1)),
          set u | u in t.autoAssigned && !KnownIneligible(v.roster, v.station, u))
  }

  function HousePass(v: View, t: Table): Table {
    Assign(v, Pruned(v, t))
  }

  // ----- the pass ------------------------------------------------------------------------------------

  method ForgetAbsent(roster: seq<RosterMember>, intent: set<Key>) returns (intent': set<Key>)
    ensures intent' == set p | p in intent && OnRoster(roster, p.1)
  {
    var present := Present(roster);
    intent' := intent;
    var todo := intent;
    while todo != {}
      invariant todo <= intent && intent' <= intent
      invariant forall p :: p in intent ==> (p in intent' <==> p in todo || OnRoster(roster, p.1))
      decreases todo
    {
      hide OnRoster;
      var p :| p in todo;
      todo := todo - {p};
      if p.1 !in present { intent' := intent' - {p}; }
    }
  }

  /** One housekeeping pass. */
  method Housekeep(v: View, t: Table) returns (t': Table)
    ensures t' == HousePass(v, t)
  {
    hide Assign, KnownIneligible, OnRoster;
    var intent, autoAssigned := PruneIneligibleTalkbackIntent(v.roster, v.station, t.intent, t.autoAssigned);
    if !v.started { intent := ForgetAbsent(v.roster, intent); }
    assert Table(intent, autoAssigned) == Pruned(v, t);
    t' := AssignNewcomers(v, Table(intent, autoAssigned));
  }

  // ----- who is a newcomer -----------------------------------------------------------------------------

  // The person shows up, eligible, among the first n entries.
  ghost predicate ShowsUp(v: View, n: nat, u: nat)
    requires n <= |v.roster|
  {
    exists i :: 0 <= i < n && v.roster[i].userId == u && IsTalkbackEligible(v.roster[i], v.station)
  }

  lemma ShowsUpSnoc(v: View, n: nat, u: nat)
    requires n < |v.roster|
    ensures ShowsUp(v, n + 1, u) <==>
              ShowsUp(v, n, u) || (v.roster[n].userId == u && IsTalkbackEligible(v.roster[n], v.station))
  {
  }

  // Everybody intended is marked.
  ghost predicate Marked(t: Table) {
    forall p :: p in t.intent ==> p.1 in t.autoAssigned
  }

  // Nobody has two channels.
  ghost predicate OneChannelEach(t: Table) {
    forall p, q :: p in t.intent && q in t.intent && p.1 == q.1 ==> p.0 == q.0
  }

  ghost predicate Tidy(t: Table) {
    Marked(t) && OneChannelEach(t)
  }

  // Eligible people on the roster who are not marked.
  ghost predicate Newcomer(v: View, t: Table, n: nat, u: nat)
    requires n <= |v.roster|
  {
    u !in t.autoAssigned && ShowsUp(v, n, u)
  }

  lemma AssignOneTidy(v: View, t: Table, m: RosterMember)
    requires Tidy(t)
    ensures Tidy(AssignOne(v, t, m))
  {
    hide Least, IsTalkbackEligible;
  }

  ghost predicate Assigned(intent: set<Key>, u: nat) {
    exists s: nat :: (s, u) in intent
  }

  // Newcomers are marked and nobody else; the others keep what they have.
  lemma AssignOneMarks(v: View, t: Table, m: RosterMember, u: nat)
    requires Tidy(t)
    ensures var t' := AssignOne(v, t, m); var placed := m.userId == u && IsTalkbackEligible(m, v.station);
            && (u in t'.autoAssigned <==> u in t.autoAssigned || placed)
            && (u in t.autoAssigned || !placed ==> forall s: nat :: (s, u) in t'.intent <==> (s, u) in t.intent)
            && (u !in t.autoAssigned && placed ==> (Assigned(t'.intent, u) <==> Least(v, t.intent, |v.slots|).Some?))
  {
    hide Least, IsTalkbackEligible;
    var pick := Least(v, t.intent, |v.slots|);
    if pick.Some? && m.userId == u { assert (pick.value, u) in t.intent + {(pick.value, u)}; }
  }

  lemma {:induction false} AssignFirstMeans(v: View, t: Table, n: nat, u: nat)
    requires n <= |v.roster| && Tidy(t)
    ensures var t' := AssignFirst(v, t, n);
            && Tidy(t')
            && (u in t'.autoAssigned <==> u in t.autoAssigned || ShowsUp(v, n, u))
            && (!Newcomer(v, t, n, u) ==> forall s: nat :: (s, u) in t'.intent <==> (s, u) in t.intent)
            && (Newcomer(v, t, n, u) ==> (Assigned(t'.intent, u) <==> SomeReady(v)))
  {
    if n == 0 {
      assert !ShowsUp(v, 0, u);
    } else {
      hide AssignOne, SomeReady, ShowsUp, Marked, OneChannelEach;
      AssignFirstMeans(v, t, n - 1, u);
      var before := AssignFirst(v, t, n - 1);
      ShowsUpSnoc(v, n - 1, u);
      AssignOneTidy(v, before, v.roster[n - 1]);
      AssignOneMarks(v, before, v.roster[n - 1], u);
      PickIffReady(v, before.intent);
    }
  }

  lemma PrunedTidy(v: View, t: Table)
    requires Tidy(t)
    ensures Tidy(Pruned(v, t))
  {
    hide KnownIneligible, OnRoster;
  }

  /** No run of passes ever gives anybody a second channel, or leaves anybody intended unmarked. */
  lemma HousePassTidy(v: View, t: Table)
    requires Tidy(t)
    ensures Tidy(HousePass(v, t))
  {
    hide Tidy, Pruned;
    PrunedTidy(v, t);
    AssignFirstMeans(v, Pruned(v, t), |v.roster|, 0);
  }

  /**
   Every eligible person the station sees for the first time is given a channel, and one only, on that pass.
   Some channel is always ready then: bring-up does not succeed before one is, and none ever stops being ready.
   */
  lemma NewcomersAreAssigned(v: View, t: Table, u: nat)
    requires Tidy(t) && u !in t.autoAssigned && ShowsUp(v, |v.roster|, u)
    requires WellAssigned(v.slots) && FirstEmpty(v.slots) > 0
    ensures var t' := HousePass(v, t); Assigned(t'.intent, u) && u in t'.autoAssigned && Tidy(t')
  {
    hide KnownIneligible, ShowsUp;
    assert v.slots[0].ready;
    PrunedTidy(v, t);
    AssignFirstMeans(v, Pruned(v, t), |v.roster|, u);
  }

  // ----- who keeps their channel -------------------------------------------------------------------------

  // The pass takes this person's channels: shown ineligible, or not there outside breakouts.
  ghost predicate Lost(v: View, u: nat) {
    KnownIneligible(v.roster, v.station, u) || (!v.started && !OnRoster(v.roster, u))
  }

  lemma OneVerdict(v: View, u: nat)
    requires DistinctIds(v.roster) && KnownIneligible(v.roster, v.station, u)
    ensures !ShowsUp(v, |v.roster|, u)
  {
    hide IsTalkbackEligible;
  }

  ghost predicate SameChannels(t: Table, t': Table, u: nat) {
    forall s: nat :: (s, u) in t.intent <==> (s, u) in t'.intent
  }

  /** One pass, one person already seen: they keep everything, or lose everything; and the mark goes only with
      proof that they are ineligible. */
  lemma SeenKeepOrLose(v: View, t: Table, u: nat)
    requires Tidy(t) && u in t.autoAssigned && DistinctIds(v.roster)
    ensures var t' := HousePass(v, t);
            && (if Lost(v, u) then !Assigned(t'.intent, u) else SameChannels(t, t', u))
            && (u in t'.autoAssigned <==> !KnownIneligible(v.roster, v.station, u))
  {
    hide KnownIneligible, OnRoster, ShowsUp, SomeReady, DistinctIds;
    var p := Pruned(v, t);
    PrunedTidy(v, t);
    AssignFirstMeans(v, p, |v.roster|, u);
    if KnownIneligible(v.roster, v.station, u) { OneVerdict(v, u); }
  }

  function HouseRun(t: Table, views: seq<View>): Table
    decreases |views|
  {
    if views == [] then t else HouseRun(HousePass(views[0], t), views[1..])
  }

  ghost predicate AllDistinct(views: seq<View>) {
    forall i :: 0 <= i < |views| ==> DistinctIds(views[i].roster)
  }

  // The person's channels are the same after every pass of the run.
  ghost predicate KeptThroughout(t: Table, views: seq<View>, u: nat)
    decreases |views|
  {
    views == [] ||
    (SameChannels(t, HousePass(views[0], t), u) && KeptThroughout(HousePass(views[0], t), views[1..], u))
  }

  ghost predicate EverLost(views: seq<View>, u: nat)
    decreases |views|
  {
    views != [] && (Lost(views[0], u) || EverLost(views[1..], u))
  }

  /** Somebody with a channel keeps it, and gets no other, through a whole run if and only if no pass of it finds
      them ineligible, or missing while no breakouts run. */
  lemma {:induction false} KeptIff(t: Table, views: seq<View>, u: nat)
    requires Tidy(t) && u in t.autoAssigned && Assigned(t.intent, u) && AllDistinct(views)
    ensures KeptThroughout(t, views, u) <==> !EverLost(views, u)
    decreases |views|
  {
    if views != [] {
      hide Tidy, HousePass, Lost, DistinctIds;
      HousePassTidy(views[0], t);
      LostMeans(views[0], u);
      SeenKeepOrLose(views[0], t, u);
      var next := HousePass(views[0], t);
      assert AllDistinct(views[1..]);
      if !Lost(views[0], u) {
        KeptIff(next, views[1..], u);
      }
    }
  }

  lemma LostMeans(v: View, u: nat)
    ensures KnownIneligible(v.roster, v.station, u) ==> Lost(v, u)
  {
  }

  // Some pass of the run places the person anew.
  ghost predicate PlacedDuring(t: Table, views: seq<View>, u: nat)
    decreases |views|
  {
    views != [] &&
    ((!Assigned(Pruned(views[0], t).intent, u) && Assigned(HousePass(views[0], t).intent, u))
     || PlacedDuring(HousePass(views[0], t), views[1..], u))
  }

  ghost predicate SeenLater(views: seq<View>, u: nat)
    decreases |views|
  {
    views != [] && (ShowsUp(views[0], |views[0].roster|, u) || SeenLater(views[1..], u))
  }

  // A pass shows the person ineligible, and a later one eligible again.
  ghost predicate RuledOutThenBack(views: seq<View>, u: nat)
    decreases |views|
  {
    views != [] &&
    (if KnownIneligible(views[0].roster, views[0].station, u) then SeenLater(views[1..], u)
     else RuledOutThenBack(views[1..], u))
  }

  ghost predicate Usual(views: seq<View>) {
    forall i :: 0 <= i < |views| ==> DistinctIds(views[i].roster) && SomeReady(views[i])
  }

  lemma {:induction false} UnseenIsPlacedIff(t: Table, views: seq<View>, u: nat)
    requires Tidy(t) && u !in t.autoAssigned && Usual(views)
    ensures PlacedDuring(t, views, u) <==> SeenLater(views, u)
    decreases |views|
  {
    if views != [] {
      hide Tidy, ShowsUp, KnownIneligible, OnRoster, DistinctIds, SomeReady, Assign;
      var v := views[0];
      UnseenPass(v, t, u);
      HousePassTidy(v, t);
      assert Usual(views[1..]);
      if !ShowsUp(v, |v.roster|, u) { UnseenIsPlacedIff(HousePass(v, t), views[1..], u); }
    }
  }

  lemma UnseenPass(v: View, t: Table, u: nat)
    requires Tidy(t) && u !in t.autoAssigned && SomeReady(v) && DistinctIds(v.roster)
    ensures var t' := HousePass(v, t);
            && !Assigned(Pruned(v, t).intent, u)
            && (Assigned(t'.intent, u) <==> ShowsUp(v, |v.roster|, u))
            && (u in t'.autoAssigned <==> ShowsUp(v, |v.roster|, u))
  {
    hide ShowsUp, SomeReady, KnownIneligible, OnRoster, DistinctIds;
    PrunedTidy(v, t);
    AssignFirstMeans(v, Pruned(v, t), |v.roster|, u);
  }

  lemma SeenPass(v: View, t: Table, u: nat)
    requires Tidy(t) && u in t.autoAssigned && DistinctIds(v.roster)
    ensures Assigned(HousePass(v, t).intent, u) ==> Assigned(Pruned(v, t).intent, u)
  {
    hide ShowsUp, SomeReady, KnownIneligible, OnRoster, DistinctIds;
    PrunedTidy(v, t);
    AssignFirstMeans(v, Pruned(v, t), |v.roster|, u);
    if KnownIneligible(v.roster, v.station, u) { OneVerdict(v, u); }
  }

  /** Somebody already seen is placed automatically again if and only if one pass of the run shows them ineligible
      and a later one eligible: being away, however often, never has that effect. */
  lemma {:induction false} PlacedAgainIff(t: Table, views: seq<View>, u: nat)
    requires Tidy(t) && u in t.autoAssigned && Usual(views)
    ensures PlacedDuring(t, views, u) <==> RuledOutThenBack(views, u)
    decreases |views|
  {
    if views != [] {
      hide Tidy, ShowsUp, KnownIneligible, OnRoster, DistinctIds, SomeReady, Assign, Pruned, Lost;
      var v := views[0];
      SeenPass(v, t, u);
      SeenKeepOrLose(v, t, u);
      HousePassTidy(v, t);
      assert Usual(views[1..]);
      if KnownIneligible(v.roster, v.station, u) {
        UnseenIsPlacedIff(HousePass(v, t), views[1..], u);
      } else {
        PlacedAgainIff(HousePass(v, t), views[1..], u);
      }
    }
  }
}
