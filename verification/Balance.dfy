/**
 How even automatic assignment keeps the channels: src/app/main.cpp:1531-1596. Newcomers fill the emptiest
 ready slot first; what they even out, and when they are too few to, is exact.
 */
module Balance {
  import opened AutoAssign
  import opened Eligibility
  import opened Housekeeping
  import opened Options
  import opened TalkbackChannels

  // ----- sizes and gaps ------------------------------------------------------------------------------

  // Nobody sits in a channel they are not intended for: what healing leads to from empty channels.
  ghost predicate MembersIntended(slots: seq<ChannelState>, intent: set<Key>) {
    forall s :: 0 <= s < |slots| ==> slots[s].members <= IntentAt(intent, s)
  }

  ghost predicate ReadySet(slots: seq<ChannelState>, ready: seq<bool>) {
    |slots| == |ready| && forall s :: 0 <= s < |ready| ==> slots[s].ready == ready[s]
  }

  function Size(intent: set<Key>, s: nat): nat {
    |IntentAt(intent, s)|
  }

  // Ready slots differ by at most one person.
  ghost predicate Even(intent: set<Key>, ready: seq<bool>) {
    forall s, r :: 0 <= s < |ready| && 0 <= r < |ready| && ready[s] && ready[r] ==> Size(intent, s) <= Size(intent, r) + 1
  }

  // The size of the fullest ready slot.
  function Fullest(intent: set<Key>, ready: seq<bool>): (m: nat)
    ensures forall s :: 0 <= s < |ready| && ready[s] ==> Size(intent, s) <= m
  {
    if ready == [] then 0
    else
      var n := |ready| - 1;
      var before := Fullest(intent, ready[..n]);
      assert forall s :: 0 <= s < n && ready[s] ==> ready[..n][s];
      if ready[n] && Size(intent, n) > before then Size(intent, n) else before
  }

  lemma {:induction false} FullestIsReached(intent: set<Key>, ready: seq<bool>)
    ensures Fullest(intent, ready) == 0
            || exists s :: 0 <= s < |ready| && ready[s] && Size(intent, s) == Fullest(intent, ready)
    decreases |ready|
  {
    if ready != [] {
      hide IntentAt;
      var n := |ready| - 1;
      FullestIsReached(intent, ready[..n]);
      if s :| 0 <= s < n && ready[..n][s] && Size(intent, s) == Fullest(intent, ready[..n]) { assert ready[s]; }
    }
  }

  // How many people a slot is short of one less than m.
  function Short(size: nat, m: nat): nat {
    if size + 1 < m then m - 1 - size else 0
  }

  // How many people the ready slots are short of one less than m, all together.
  function Gap(intent: set<Key>, ready: seq<bool>, m: nat): nat {
    if ready == [] then 0
    else
      var n := |ready| - 1;
      Gap(intent, ready[..n], m) + if ready[n] then Short(Size(intent, n), m) else 0
  }

  // How many people would have to be added, each to the emptiest slot, to even the slots out.
  function Deficit(intent: set<Key>, ready: seq<bool>): nat {
    Gap(intent, ready, Fullest(intent, ready))
  }

  lemma {:induction false} NoGapMeans(intent: set<Key>, ready: seq<bool>, m: nat)
    ensures Gap(intent, ready, m) == 0 <==> forall s :: 0 <= s < |ready| && ready[s] ==> Size(intent, s) + 1 >= m
    decreases |ready|
  {
    if ready != [] {
      hide Size;
      var n := |ready| - 1;
      NoGapMeans(intent, ready[..n], m);
      if Gap(intent, ready, m) == 0 {
        forall s | 0 <= s < |ready| && ready[s] ensures Size(intent, s) + 1 >= m {
          if s < n { assert ready[..n][s]; }
        }
      }
      assert forall s :: 0 <= s < n && ready[..n][s] ==> ready[s];
    }
  }

  /** Even is the same as nobody missing. */
  lemma EvenIffNoDeficit(intent: set<Key>, ready: seq<bool>)
    ensures Even(intent, ready) <==> Deficit(intent, ready) == 0
  {
    hide Size, Fullest, Gap;
    FullestIsReached(intent, ready);
    NoGapMeans(intent, ready, Fullest(intent, ready));
  }

  // ----- adding one ---------------------------------------------------------------------------------------

  lemma AddedTo(t: Table, s: nat, u: nat, r: nat)
    requires forall p :: p in t.intent ==> p.1 != u
    ensures Size(t.intent + {(s, u)}, r) == Size(t.intent, r) + if r == s then 1 else 0
  {
    IntentSnoc(t.intent, (s, u), r);
    assert u !in IntentAt(t.intent, r);
  }

  // One slot has one person more, the others what they had.
  ghost predicate OneMore(intent: set<Key>, intent': set<Key>, s: nat) {
    forall r: nat :: Size(intent', r) == Size(intent, r) + if r == s then 1 else 0
  }

  ghost predicate Emptiest(intent: set<Key>, ready: seq<bool>, s: nat) {
    s < |ready| && ready[s] && forall r :: 0 <= r < |ready| && ready[r] ==> Size(intent, s) <= Size(intent, r)
  }

  lemma {:induction false} GapAfter(intent: set<Key>, intent': set<Key>, ready: seq<bool>, m: nat, s: nat)
    requires OneMore(intent, intent', s) && Size(intent, s) + 1 < m && (s < |ready| ==> ready[s])
    ensures Gap(intent, ready, m) == Gap(intent', ready, m) + if s < |ready| then 1 else 0
    decreases |ready|
  {
    if ready != [] {
      hide Size;
      var n := |ready| - 1;
      GapAfter(intent, intent', ready[..n], m, s);
    }
  }

  lemma SameFullest(intent: set<Key>, intent': set<Key>, ready: seq<bool>, s: nat)
    requires OneMore(intent, intent', s) && Size(intent, s) + 1 < Fullest(intent, ready)
    ensures Fullest(intent', ready) == Fullest(intent, ready)
  {
    hide Size;
    FullestIsReached(intent, ready);
    FullestIsReached(intent', ready);
    var r :| 0 <= r < |ready| && ready[r] && Size(intent, r) == Fullest(intent, ready);
    assert Size(intent', r) >= Fullest(intent, ready);
    if q :| 0 <= q < |ready| && ready[q] && Size(intent', q) == Fullest(intent', ready) {
      assert Size(intent, q) <= Fullest(intent, ready);
    }
  }

  // Each person put on the emptiest slot fills one gap, and opens none when there is none.
  lemma AddingFillsOne(intent: set<Key>, intent': set<Key>, ready: seq<bool>, s: nat)
    requires Emptiest(intent, ready, s) && OneMore(intent, intent', s)
    ensures Deficit(intent', ready) == if Deficit(intent, ready) == 0 then 0 else Deficit(intent, ready) - 1
  {
    hide Size, Gap, Fullest;
    var m := Fullest(intent, ready);
    if Deficit(intent, ready) == 0 {
      EvenIffNoDeficit(intent, ready);
      AddingKeepsEven(intent, intent', ready, s);
      EvenIffNoDeficit(intent', ready);
    } else {
      NoGapMeans(intent, ready, m);
      SameFullest(intent, intent', ready, s);
      GapAfter(intent, intent', ready, m, s);
    }
  }

  lemma AddingKeepsEven(intent: set<Key>, intent': set<Key>, ready: seq<bool>, s: nat)
    requires Even(intent, ready) && Emptiest(intent, ready, s) && OneMore(intent, intent', s)
    ensures Even(intent', ready)
  {
    hide Size;
  }

  // ----- the scan picks the emptiest -------------------------------------------------------------------------

  lemma LoadIsSize(v: View, intent: set<Key>, s: nat)
    requires s < |v.slots| && MembersIntended(v.slots, intent)
    ensures Load(v, intent, s) == Size(intent, s)
  {
    assert EligibleMembers(v.slots[s].members, v.roster, v.station) + IntentAt(intent, s) == IntentAt(intent, s);
  }

  lemma PicksEmptiest(v: View, intent: set<Key>, ready: seq<bool>)
    requires ReadySet(v.slots, ready) && MembersIntended(v.slots, intent) && SomeReady(v)
    ensures var pick := Least(v, intent, |v.slots|); pick.Some? && Emptiest(intent, ready, pick.value)
  {
    hide Load, Size, MembersIntended;
    LeastIsLeast(v, intent, |v.slots|);
    PickIffReady(v, intent);
    forall r | 0 <= r < |ready| ensures Load(v, intent, r) == Size(intent, r) { LoadIsSize(v, intent, r); }
  }

  lemma AddingKeepsMembers(v: View, intent: set<Key>, p: Key)
    requires MembersIntended(v.slots, intent)
    ensures MembersIntended(v.slots, intent + {p})
  {
    forall s | 0 <= s < |v.slots| ensures v.slots[s].members <= IntentAt(intent + {p}, s) { IntentSnoc(intent, p, s); }
  }

  function Minus(d: nat, k: nat): nat {
    if d <= k then 0 else d - k
  }

  // One roster entry: nothing, or one more on the emptiest slot.
  lemma AssignOneFills(v: View, t: Table, m: RosterMember, ready: seq<bool>)
    requires ReadySet(v.slots, ready) && SomeReady(v) && MembersIntended(v.slots, t.intent) && Tidy(t)
    ensures var t' := AssignOne(v, t, m); var added := IsTalkbackEligible(m, v.station) && m.userId !in t.autoAssigned;
            && MembersIntended(v.slots, t'.intent) && Tidy(t')
            && Deficit(t'.intent, ready) == Minus(Deficit(t.intent, ready), if added then 1 else 0)
            && t'.autoAssigned == t.autoAssigned + if added then {m.userId} else {}
  {
    hide Deficit, MembersIntended, Least, IsTalkbackEligible, Size, ReadySet, SomeReady;
    AssignOneTidy(v, t, m);
    if IsTalkbackEligible(m, v.station) && m.userId !in t.autoAssigned {
      PicksEmptiest(v, t.intent, ready);
      var s := Least(v, t.intent, |v.slots|).value;
      var more := t.intent + {(s, m.userId)};
      forall r: nat ensures Size(more, r) == Size(t.intent, r) + if r == s then 1 else 0 { AddedTo(t, s, m.userId, r); }
      AddingFillsOne(t.intent, more, ready, s);
      AddingKeepsMembers(v, t.intent, (s, m.userId));
    }
  }

  // Everybody the first n entries newly mark.
  function Added(v: View, t: Table, n: nat): set<nat>
    requires n <= |v.roster|
  {
    AssignFirst(v, t, n).autoAssigned - t.autoAssigned
  }

  lemma {:induction false} AssignFills(v: View, t: Table, n: nat, ready: seq<bool>)
    requires n <= |v.roster| && ReadySet(v.slots, ready) && SomeReady(v) && MembersIntended(v.slots, t.intent) && Tidy(t)
    ensures var t' := AssignFirst(v, t, n);
            && MembersIntended(v.slots, t'.intent) && Tidy(t') && t.autoAssigned <= t'.autoAssigned
            && Deficit(t'.intent, ready) == Minus(Deficit(t.intent, ready), |Added(v, t, n)|)
  {
    if n > 0 {
      hide AssignOne, Deficit, MembersIntended, Tidy, SomeReady, ReadySet, Added, IsTalkbackEligible;
      AssignFills(v, t, n - 1, ready);
      var before, m := AssignFirst(v, t, n - 1), v.roster[n - 1];
      AssignOneFills(v, before, m, ready);
      AddedNext(v, t, n, IsTalkbackEligible(m, v.station) && m.userId !in before.autoAssigned);
    } else {
      assert Added(v, t, 0) == {};
    }
  }

  lemma AddedNext(v: View, t: Table, n: nat, added: bool)
    requires 0 < n <= |v.roster| && t.autoAssigned <= AssignFirst(v, t, n - 1).autoAssigned
    requires var before, u := AssignFirst(v, t, n - 1).autoAssigned, v.roster[n - 1].userId;
             AssignFirst(v, t, n).autoAssigned == before + (if added then {u} else {}) && (added ==> u !in before)
    ensures |Added(v, t, n)| == |Added(v, t, n - 1)| + if added then 1 else 0
  {
    hide AssignFirst;
    assert Added(v, t, n) == Added(v, t, n - 1) + if added then {v.roster[n - 1].userId} else {};
  }

  // ----- one pass ---------------------------------------------------------------------------------------------

  // What one pass may rely on: the ready slots, at least one, and people only where they are intended.
  ghost predicate Settled(v: View, t: Table, ready: seq<bool>) {
    ReadySet(v.slots, ready) && SomeReady(v) && MembersIntended(v.slots, Pruned(v, t).intent)
  }

  // The people the pass places.
  function Newcomers(v: View, t: Table): set<nat> {
    HousePass(v, t).autoAssigned - Pruned(v, t).autoAssigned
  }

  /** They are exactly the eligible people on the roster whom the prune leaves without a mark. */
  lemma NewcomersAre(v: View, t: Table, u: nat)
    requires Tidy(t)
    ensures u in Newcomers(v, t) <==> Newcomer(v, Pruned(v, t), |v.roster|, u)
  {
    hide ShowsUp, SomeReady;
    PrunedTidy(v, t);
    AssignFirstMeans(v, Pruned(v, t), |v.roster|, u);
  }

  /**
   People leaving or turning ineligible can leave the slots uneven, and nobody is moved to even them out. After
   a pass they are even exactly when it places at least as many newcomers as the prune left places to fill.
   */
  lemma EvenAfterIff(v: View, t: Table, ready: seq<bool>)
    requires Tidy(t) && Settled(v, t, ready)
    ensures Even(HousePass(v, t).intent, ready) <==> |Newcomers(v, t)| >= Deficit(Pruned(v, t).intent, ready)
  {
    hide Deficit, Even, MembersIntended, ReadySet, SomeReady, Pruned, Tidy;
    PrunedTidy(v, t);
    AssignFills(v, Pruned(v, t), |v.roster|, ready);
    EvenIffNoDeficit(HousePass(v, t).intent, ready);
  }

  // ----- whole runs ---------------------------------------------------------------------------------------------

  // Nobody the station has seen is ruled out, or gone outside breakouts.
  ghost predicate NobodyLost(v: View, t: Table) {
    forall u :: u in t.autoAssigned ==> !Lost(v, u)
  }

  lemma NothingPruned(v: View, t: Table)
    requires Tidy(t) && NobodyLost(v, t)
    ensures Pruned(v, t) == t
  {
    hide KnownIneligible, OnRoster;
    var p := Pruned(v, t);
    forall u | u in t.autoAssigned ensures u in p.autoAssigned { assert !Lost(v, u); }
    forall k | k in t.intent ensures k in p.intent { assert !Lost(v, k.1); }
    assert p.intent == t.intent && p.autoAssigned == t.autoAssigned;
  }

  // One pass that takes nothing from anybody.
  lemma SteadyPass(v: View, t: Table, ready: seq<bool>)
    requires Tidy(t) && Even(t.intent, ready) && Settled(v, t, ready) && NobodyLost(v, t)
    ensures var t' := HousePass(v, t); Pruned(v, t) == t && Tidy(t') && Even(t'.intent, ready) && t.intent <= t'.intent
  {
    hide Even, Deficit, Tidy, NobodyLost, Pruned, MembersIntended, ReadySet, SomeReady;
    NothingPruned(v, t);
    EvenIffNoDeficit(t.intent, ready);
    EvenAfterIff(v, t, ready);
    HousePassTidy(v, t);
    AssigningAdds(v, t, |v.roster|);
  }

  lemma {:induction false} AssigningAdds(v: View, t: Table, n: nat)
    requires n <= |v.roster|
    ensures t.intent <= AssignFirst(v, t, n).intent
  {
    if n > 0 {
      hide Least, IsTalkbackEligible;
      AssigningAdds(v, t, n - 1);
    }
  }

  ghost predicate SteadyRun(t: Table, views: seq<View>, ready: seq<bool>)
    decreases |views|
  {
    views != [] ==>
      && Settled(views[0], t, ready) && NobodyLost(views[0], t)
      && SteadyRun(HousePass(views[0], t), views[1..], ready)
  }

  lemma {:induction false} RunKeepsEven(t: Table, views: seq<View>, ready: seq<bool>)
    requires Tidy(t) && Even(t.intent, ready) && SteadyRun(t, views, ready)
    ensures Tidy(HouseRun(t, views)) && Even(HouseRun(t, views).intent, ready)
    decreases |views|
  {
    if views != [] {
      hide Even, Deficit, Tidy, Settled, NobodyLost, HousePass, Pruned;
      SteadyPass(views[0], t, ready);
      RunKeepsEven(HousePass(views[0], t), views[1..], ready);
    }
  }

  const NOBODY := Table({}, {})

  /** From nothing assigned, while nobody seen leaves or turns ineligible: ready channels differ by at most one
      person, nobody shares a channel while a ready one is empty, and nobody is on two channels. */
  lemma AssignmentIsFair(views: seq<View>, ready: seq<bool>)
    requires SteadyRun(NOBODY, views, ready)
    ensures var t := HouseRun(NOBODY, views);
            && Even(t.intent, ready) && OneChannelEach(t)
            && (forall s, r :: 0 <= s < |ready| && 0 <= r < |ready| && ready[s] && ready[r] && Size(t.intent, r) == 0 ==>
                  Size(t.intent, s) <= 1)
  {
    hide SteadyRun, HouseRun;
    forall s: nat ensures Size({}, s) == 0 { assert IntentAt({}, s) == {}; }
    RunKeepsEven(NOBODY, views, ready);
  }

  // ----- a run that ends uneven ---------------------------------------------------------------------------------

  function Person(u: nat): RosterMember {
    RosterMember(u, "talent", false, true)
  }

  // Two ready channels that nobody has joined yet.
  function Evening(ids: seq<nat>): View {
    View(seq(|ids|, i requires 0 <= i < |ids| => Person(ids[i])), "station", false,
         [ChannelState("a", true, 0, {}), ChannelState("b", true, 0, {})])
  }

  lemma PickOfTwo(ids: seq<nat>, intent: set<Key>)
    ensures Least(Evening(ids), intent, 2) == Some(if Size(intent, 0) <= Size(intent, 1) then 0 else 1)
  {
    hide Size, Load, EligibleMembers;
    var v := Evening(ids);
    LeastIsLeast(v, intent, 2);
    LoadIsSize(v, intent, 0);
    LoadIsSize(v, intent, 1);
  }

  // The k-th arrival goes to the emptier channel, the first of equals.
  lemma Arrival(ids: seq<nat>, t: Table, u: nat)
    requires u !in t.autoAssigned && Marked(t)
    ensures var s := if Size(t.intent, 0) <= Size(t.intent, 1) then 0 else 1;
            var t' := AssignOne(Evening(ids), t, Person(u));
            && t' == Table(t.intent + {(s, u)}, t.autoAssigned + {u}) && Marked(t')
            && Size(t'.intent, s) == Size(t.intent, s) + 1 && Size(t'.intent, 1 - s) == Size(t.intent, 1 - s)
  {
    hide Size, Least;
    PickOfTwo(ids, t.intent);
    AddedTo(t, 0, u, 0);
    AddedTo(t, 0, u, 1);
    AddedTo(t, 1, u, 0);
    AddedTo(t, 1, u, 1);
  }

  const FOUR: Table := Table({(0, 1), (1, 2), (0, 3), (1, 4)}, {1, 2, 3, 4})

  lemma NextArrival(ids: seq<nat>, k: nat)
    requires k < |ids|
    ensures AssignFirst(Evening(ids), NOBODY, 0) == NOBODY
    ensures AssignFirst(Evening(ids), NOBODY, k + 1) == AssignOne(Evening(ids), AssignFirst(Evening(ids), NOBODY, k), Person(ids[k]))
  {
    hide AssignOne;
  }

  lemma FourArrive()
    ensures HousePass(Evening([1, 2, 3, 4]), NOBODY) == FOUR
  {
    hide Size, AssignOne, AssignFirst, KnownIneligible, OnRoster;
    var ids := [1, 2, 3, 4];
    var v := Evening(ids);
    assert Pruned(v, NOBODY) == NOBODY;
    NobodyAnywhere();
    NextArrival(ids, 0);
    Arrival(ids, NOBODY, 1);
    NextArrival(ids, 1);
    Arrival(ids, AssignFirst(v, NOBODY, 1), 2);
    NextArrival(ids, 2);
    Arrival(ids, AssignFirst(v, NOBODY, 2), 3);
    NextArrival(ids, 3);
    Arrival(ids, AssignFirst(v, NOBODY, 3), 4);
    assert AssignFirst(v, NOBODY, 4).intent == FOUR.intent;
  }

  lemma NobodyAnywhere()
    ensures Size({}, 0) == 0 == Size({}, 1)
  {
    assert IntentAt({}, 0) == {} == IntentAt({}, 1);
  }

  lemma TwoLeave()
    ensures HousePass(Evening([2, 4]), FOUR) == Table({(1, 2), (1, 4)}, {1, 2, 3, 4})
  {
    var v := Evening([2, 4]);
    assert v.roster[0] == Person(2) && v.roster[1] == Person(4);
    assert OnRoster(v.roster, 2) && OnRoster(v.roster, 4) && !OnRoster(v.roster, 1) && !OnRoster(v.roster, 3);
    var p := Pruned(v, FOUR);
    assert p.intent == {(1, 2), (1, 4)} && p.autoAssigned == {1, 2, 3, 4};
    assert AssignFirst(v, p, 1) == p;
  }

  /** Four arrive and are spread over two channels; the two on the first one leave; the pass that sees it moves
      nobody, and leaves none and two. */
  lemma DeparturesUnbalance()
    ensures var intent := HouseRun(NOBODY, [Evening([1, 2, 3, 4]), Evening([2, 4])]).intent;
            Size(intent, 0) == 0 && Size(intent, 1) == 2 && !Even(intent, [true, true])
  {
    hide HousePass, Evening;
    FourArrive();
    TwoLeave();
    var one, two := Evening([1, 2, 3, 4]), Evening([2, 4]);
    assert [one, two][1..] == [two];
    assert HouseRun(NOBODY, [one, two]) == HouseRun(FOUR, [two]) == HouseRun(HousePass(two, FOUR), []);
    var intent: set<Key> := {(1, 2), (1, 4)};
    assert IntentAt(intent, 0) == {};
    assert 2 in IntentAt(intent, 1) && 4 in IntentAt(intent, 1) by { assert (1, 2) in intent && (1, 4) in intent; }
    assert IntentAt(intent, 1) == {2, 4};
    assert Size(intent, 1) == 2 && Size(intent, 0) == 0;
    assert [true, true][0] && [true, true][1];
  }
}
