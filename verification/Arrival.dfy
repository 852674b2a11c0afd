/**
 Everybody who arrives ends up in a channel of their own: runs of the main loop (src/app/main.cpp:1531-1678) in
 which Zoom takes every call and confirms it before the next pass. A round is one housekeeping pass, which
 places whoever is new, and the healing passes up to the next.
 */
module Arrival {
  import opened AutoAssign
  import opened Balance
  import opened Eligibility
  import opened Healer
  import opened HealerConvergence
  import opened HealerFairness
  import opened Housekeeping
  import opened RoomPlan
  import opened Station
  import opened TalkbackChannels

  const NO_ROOMS := BreakoutState(false, "", [])

  datatype Round = Round(roster: seq<RosterMember>, nows: seq<int>)

  // ----- prompt runs ---------------------------------------------------------------------------------

  function Calls(w: World, call: Call): bool {
    (call.Invite? || call.Removal?) && call.slot < |w.slots|
  }

  // A pass, taken and confirmed.
  function Prompt(station: string, d: Desk, roster: seq<RosterMember>, now: int): Desk {
    var w := WorldOf(station, d, roster, NO_ROOMS);
    var o := Pass(w, now, true, d.heal);
    Desk(d.table, if Calls(w, o.call) then Confirmed(w, o.call).slots else d.slots, o.state,
         d.asked + AskedBy(w, o.call, true))
  }

  function PromptPasses(station: string, d: Desk, roster: seq<RosterMember>, nows: seq<int>): Desk
    decreases |nows|
  {
    if nows == [] then d else PromptPasses(station, Prompt(station, d, roster, nows[0]), roster, nows[1..])
  }

  function AfterRound(station: string, d: Desk, r: Round): Desk {
    PromptPasses(station, MoveFrom(station, d, Look(r.roster, false)), r.roster, r.nows)
  }

  function AfterRounds(station: string, d: Desk, rounds: seq<Round>): Desk {
    if rounds == [] then d
    else AfterRound(station, AfterRounds(station, d, rounds[..|rounds| - 1]), rounds[|rounds| - 1])
  }

  // ----- they are runs of the station -----------------------------------------------------------------

  // Zoom's confirmation of a call, person by person.
  function Confirmations(call: Call): seq<Move> {
    match call
    case NoCall => []
    case Invite(s, userIds) => seq(|userIds|, i requires 0 <= i < |userIds| => Joins(s, userIds[i]))
    case Removal(s, u) => [Leaves(s, u)]
  }

  lemma {:induction false} JoinsPlay(station: string, d: Desk, s: nat, userIds: seq<nat>)
    requires s < |d.slots| && userIds != [] && forall u :: u in userIds ==> (s, u) in d.asked
    ensures var moves := Confirmations(Invite(s, userIds));
            && Steady(station, d, moves)
            && Play(station, d, moves) == d.(slots := WithSlot(d.slots, s, d.slots[s].members + IdSet(userIds)))
    decreases |userIds|
  {
    hide IdSet;
    var moves := Confirmations(Invite(s, userIds));
    var next := MoveFrom(station, d, moves[0]);
    FirstId(d.slots[s].members, userIds);
    assert moves[1..] == Confirmations(Invite(s, userIds[1..]));
    if |userIds| > 1 {
      JoinsPlay(station, next, s, userIds[1..]);
      SlotTwice(d.slots, s, d.slots[s].members + {userIds[0]}, d.slots[s].members + IdSet(userIds));
    } else {
      assert Play(station, next, moves[1..]) == next;
    }
  }

  lemma FirstId(members: set<nat>, ids: seq<nat>)
    requires ids != []
    ensures members + IdSet(ids) == members + {ids[0]} + IdSet(ids[1..])
    ensures |ids| == 1 ==> members + IdSet(ids) == members + {ids[0]}
  {
    assert IdSet(ids) == {ids[0]} + IdSet(ids[1..]);
  }

  lemma SlotTwice(slots: seq<ChannelState>, s: nat, first: set<nat>, second: set<nat>)
    requires s < |slots|
    ensures WithSlot(WithSlot(slots, s, first), s, second) == WithSlot(slots, s, second)
  {
  }

  lemma {:induction false} PlayOn(station: string, d: Desk, first: seq<Move>, second: seq<Move>)
    requires Steady(station, d, first) && Steady(station, Play(station, d, first), second)
    ensures Steady(station, d, first + second)
    ensures Play(station, d, first + second) == Play(station, Play(station, d, first), second)
    decreases |first|
  {
    hide MoveFrom, LosesNobody, Enabled;
    if first == [] {
      assert first + second == second;
    } else {
      assert (first + second)[1..] == first[1..] + second;
      PlayOn(station, MoveFrom(station, d, first[0]), first[1..], second);
    }
  }

  lemma OneMove(station: string, d: Desk, e: Move)
    requires Enabled(d, e) && LosesNobody(station, d, e)
    ensures Steady(station, d, [e]) && Play(station, d, [e]) == MoveFrom(station, d, e)
  {
    hide MoveFrom, LosesNobody, Enabled;
    assert [e][1..] == [];
  }

  // A pass taken and confirmed is a pass followed by its confirmations, each a move of the station.
  lemma PromptIsPlayed(station: string, d: Desk, roster: seq<RosterMember>, now: int) returns (moves: seq<Move>)
    requires var w := WorldOf(station, d, roster, NO_ROOMS); var call := Pass(w, now, true, d.heal).call;
             call.Invite? && call.slot < |w.slots| ==> Fits(w, call.slot, call.userIds)
    ensures Steady(station, d, moves) && Play(station, d, moves) == Prompt(station, d, roster, now)
  {
    hide Pass, Fits, Steady, Play;
    var w := WorldOf(station, d, roster, NO_ROOMS);
    var call := Pass(w, now, true, d.heal).call;
    var first := Mend(roster, NO_ROOMS, now, true);
    CallIsJustified(w, now, true, d.heal);
    OneMove(station, d, first);
    var next := MoveFrom(station, d, first);
    match call
    case NoCall =>
      moves := [first];
    case Invite(s, userIds) =>
      JoinsPlay(station, next, s, userIds);
      PlayOn(station, d, [first], Confirmations(call));
      moves := [first] + Confirmations(call);
    case Removal(s, u) =>
      OneMove(station, next, Leaves(s, u));
      PlayOn(station, d, [first], Confirmations(call));
      moves := [first] + Confirmations(call);
  }

  // ----- prompt passes are healing ----------------------------------------------------------------------

  // The healer in a calm world with nothing refused: what convergence asks for.
  ghost predicate Ready(station: string, d: Desk, roster: seq<RosterMember>) {
    var w := WorldOf(station, d, roster, NO_ROOMS); Calm(w) && OnlyGranted(w, d.heal.backoff)
  }

  lemma PromptStaysReady(station: string, d: Desk, roster: seq<RosterMember>, now: int)
    requires Ready(station, d, roster)
    ensures var w := WorldOf(station, d, roster, NO_ROOMS); var call := Pass(w, now, true, d.heal).call;
            && (call.Invite? && call.slot < |w.slots| ==> Fits(w, call.slot, call.userIds))
            && Ready(station, Prompt(station, d, roster, now), roster)
  {
    hide Pass, Calm, OnlyGranted, Fits, MissingIds, ExtraIds, SlotPending, Pending;
    var w := WorldOf(station, d, roster, NO_ROOMS);
    var o := Pass(w, now, true, d.heal);
    var s, c := CalmPass(w, now, d.heal);
    if o.call != NoCall {
      if c.missing != [] {
        InvitationFits(w, s);
        ConfirmedInvite(w, s, now, d.heal, c);
      } else {
        BusyWithoutMissing(w, s);
        ConfirmedRemoval(w, s, now, d.heal, c);
      }
      assert WorldOf(station, Prompt(station, d, roster, now), roster, NO_ROOMS) == Confirmed(w, o.call);
    }
  }

  lemma BusyWithoutMissing(w: World, s: nat)
    requires s < |w.slots| && SlotPending(w, s) > 0 && MissingIds(w, s, |w.roster|) == []
    ensures FirstOf(ExtraIds(w, s, |w.roster|)).Some?
  {
  }

  lemma {:induction false} PassesAreHealing(station: string, d: Desk, roster: seq<RosterMember>, nows: seq<int>)
    ensures var end := HealFor(WorldOf(station, d, roster, NO_ROOMS), d.heal, nows);
            var d' := PromptPasses(station, d, roster, nows);
            d'.table == d.table && d'.heal == end.1 && WorldOf(station, d', roster, NO_ROOMS) == end.0
    decreases |nows|
  {
    hide Pass, AskedBy;
    if nows != [] { PassesAreHealing(station, Prompt(station, d, roster, nows[0]), roster, nows[1..]); }
  }

  lemma {:induction false} PassesArePlayed(station: string, d: Desk, roster: seq<RosterMember>, nows: seq<int>)
    returns (moves: seq<Move>)
    requires Ready(station, d, roster)
    ensures Steady(station, d, moves) && Play(station, d, moves) == PromptPasses(station, d, roster, nows)
    ensures Ready(station, PromptPasses(station, d, roster, nows), roster)
    decreases |nows|
  {
    hide Ready, Prompt, Steady, Play, Pass, Fits;
    if nows == [] {
      moves := [];
      NothingPlayed(station, d);
    } else {
      PromptStaysReady(station, d, roster, nows[0]);
      var first := PromptIsPlayed(station, d, roster, nows[0]);
      var rest := PassesArePlayed(station, Prompt(station, d, roster, nows[0]), roster, nows[1..]);
      PlayOn(station, d, first, rest);
      moves := first + rest;
    }
  }

  lemma NothingPlayed(station: string, d: Desk)
    ensures Steady(station, d, []) && Play(station, d, []) == d
  {
  }

  // ----- ten seats a channel are enough ---------------------------------------------------------------------

  function SizesBelow(intent: set<Key>, n: nat): nat {
    if n == 0 then 0 else SizesBelow(intent, n - 1) + Size(intent, n - 1)
  }

  lemma SizeSnoc(intent: set<Key>, p: Key, s: nat)
    requires p !in intent
    ensures Size(intent + {p}, s) == Size(intent, s) + if s == p.0 then 1 else 0
  {
    IntentSnoc(intent, p, s);
    InAt(intent, p.0, p.1);
  }

  lemma {:induction false} SizesSnoc(intent: set<Key>, p: Key, n: nat)
    requires p !in intent
    ensures SizesBelow(intent + {p}, n) == SizesBelow(intent, n) + if p.0 < n then 1 else 0
  {
    hide Size;
    if n > 0 {
      SizesSnoc(intent, p, n - 1);
      SizeSnoc(intent, p, n - 1);
    }
  }

  lemma {:induction false} NoSizes(n: nat)
    ensures SizesBelow({}, n) == 0
  {
    if n > 0 {
      NoSizes(n - 1);
      assert IntentAt({}, n - 1) == {};
    }
  }

  // Nobody has two channels, so the channels together hold no more than are marked.
  lemma {:induction false} SizesFit(intent: set<Key>, marked: set<nat>, n: nat)
    requires Tidy(Table(intent, marked))
    ensures SizesBelow(intent, n) <= |marked|
    decreases |intent|
  {
    if intent == {} {
      NoSizes(n);
    } else {
      var p :| p in intent;
      SizesFit(intent - {p}, marked - {p.1}, n);
      SizesSnoc(intent - {p}, p, n);
      assert intent - {p} + {p} == intent;
    }
  }

  lemma {:induction false} SizesAtLeast(intent: set<Key>, n: nat, s: nat)
    requires forall r :: 0 <= r < n ==> Size(intent, r) >= MAX_MEMBERS
    requires Size(intent, s) > MAX_MEMBERS
    ensures SizesBelow(intent, n) >= MAX_MEMBERS * n + if s < n then 1 else 0
  {
    hide Size;
    if n > 0 { SizesAtLeast(intent, n - 1, s); }
  }

  function All(n: nat): (ready: seq<bool>)
    ensures |ready| == n && forall s :: 0 <= s < n ==> ready[s]
  {
    seq(n, _ => true)
  }

  /** With even loads, and ten people a channel at most all together, no channel is asked to hold more than ten. */
  lemma SeatsSuffice(t: Table, n: nat, s: nat)
    requires Tidy(t) && Even(t.intent, All(n)) && |t.autoAssigned| <= MAX_MEMBERS * n && s < n
    ensures Size(t.intent, s) <= MAX_MEMBERS
  {
    hide Size, Tidy;
    SizesFit(t.intent, t.autoAssigned, n);
    if Size(t.intent, s) > MAX_MEMBERS {
      assert forall r :: 0 <= r < n ==> Size(t.intent, s) <= Size(t.intent, r) + 1;
      SizesAtLeast(t.intent, n, s);
    }
  }

  // ----- who is there, and where ----------------------------------------------------------------------------

  function EligibleIds(station: string, roster: seq<RosterMember>): set<nat> {
    set i | 0 <= i < |roster| && IsTalkbackEligible(roster[i], station) :: roster[i].userId
  }

  // Everybody marked has a channel, and no channel is beyond the bank.
  ghost predicate Housed(t: Table, n: nat) {
    && (forall p :: p in t.intent ==> p.0 < n)
    && (forall u :: u in t.autoAssigned ==> Assigned(t.intent, u))
  }

  // Exactly the eligible people of this roster have been placed, and nothing is out of order.
  ghost predicate Served(station: string, d: Desk, roster: seq<RosterMember>) {
    && DistinctIds(roster) && Orderly(d, All(|d.slots|)) && Housed(d.table, |d.slots|)
    && d.table.autoAssigned == EligibleIds(station, roster)
    && OnlyGranted(WorldOf(station, d, roster, NO_ROOMS), d.heal.backoff)
  }

  lemma EligibleShows(v: View, u: nat)
    ensures u in EligibleIds(v.station, v.roster) <==> ShowsUp(v, |v.roster|, u)
  {
  }

  lemma {:induction false} AssigningInRange(v: View, t: Table, n: nat)
    requires n <= |v.roster| && forall p :: p in t.intent ==> p.0 < |v.slots|
    ensures forall p :: p in AssignFirst(v, t, n).intent ==> p.0 < |v.slots|
  {
    if n > 0 {
      hide IsTalkbackEligible;
      AssigningInRange(v, t, n - 1);
    }
  }

  // Who was eligible before is eligible still, so nobody is lost.
  lemma NobodyMissed(v: View, t: Table)
    requires DistinctIds(v.roster) && t.autoAssigned <= EligibleIds(v.station, v.roster)
    ensures NobodyLost(v, t)
  {
    hide EligibleIds, KnownIneligible, DistinctIds, OnRoster;
    forall u | u in t.autoAssigned ensures !Lost(v, u) {
      EligibleShows(v, u);
      if KnownIneligible(v.roster, v.station, u) { OneVerdict(v, u); }
      Shown(v, u);
    }
  }

  lemma Shown(v: View, u: nat)
    requires ShowsUp(v, |v.roster|, u)
    ensures OnRoster(v.roster, u)
  {
  }

  // The look houses everybody who is new.
  lemma LookHouses(v: View, t: Table)
    requires DistinctIds(v.roster) && Tidy(t) && Housed(t, |v.slots|) && SomeReady(v) && Pruned(v, t) == t
    requires t.autoAssigned <= EligibleIds(v.station, v.roster)
    ensures var t' := HousePass(v, t); Housed(t', |v.slots|) && t'.autoAssigned == EligibleIds(v.station, v.roster)
  {
    hide EligibleIds, DistinctIds, ShowsUp, SomeReady, Tidy, Pruned, Assign;
    var t' := HousePass(v, t);
    forall u ensures u in t'.autoAssigned <==> u in EligibleIds(v.station, v.roster) {
      HousedOne(v, t, u);
      EligibleShows(v, u);
    }
    forall u | u in t'.autoAssigned ensures Assigned(t'.intent, u) { HousedOne(v, t, u); }
    RangeKept(v, t);
  }

  lemma RangeKept(v: View, t: Table)
    requires Housed(t, |v.slots|) && Pruned(v, t) == t
    ensures forall p :: p in HousePass(v, t).intent ==> p.0 < |v.slots|
  {
    hide Pruned, AssignFirst;
    AssigningInRange(v, t, |v.roster|);
  }

  lemma HousedOne(v: View, t: Table, u: nat)
    requires Tidy(t) && Housed(t, |v.slots|) && SomeReady(v) && Pruned(v, t) == t
    ensures var t' := HousePass(v, t);
            && (u in t'.autoAssigned <==> u in t.autoAssigned || ShowsUp(v, |v.roster|, u))
            && (u in t'.autoAssigned ==> Assigned(t'.intent, u))
  {
    hide ShowsUp, SomeReady, Tidy, Pruned;
    AssignFirstMeans(v, t, |v.roster|, u);
    if u in t.autoAssigned {
      var s: nat :| (s, u) in t.intent;
      assert (s, u) in HousePass(v, t).intent;
    }
  }

  // Whoever was granted a seat while eligible on the old roster is granted it on the new one.
  lemma StillGranted(w: World, w': World, backoff: map<Key, Backoff>, backoff': map<Key, Backoff>)
    requires OnlyGranted(w, backoff) && w'.slots == w.slots && w'.station == w.station && w.intent <= w'.intent
    requires EligibleIds(w.station, w.roster) <= EligibleIds(w.station, w'.roster)
    requires forall k :: k in backoff' ==> k in backoff
    ensures OnlyGranted(w', backoff')
  {
    forall k | k in backoff' ensures Granted(w', k) {
      assert Granted(w, k);
      var i :| 0 <= i < |w.roster| && w.roster[i].userId == k.1 && Want(w, k.0, w.roster[i]);
      assert k.1 in EligibleIds(w.station, w.roster);
      var j :| 0 <= j < |w'.roster| && IsTalkbackEligible(w'.roster[j], w.station) && w'.roster[j].userId == k.1;
      assert Want(w', k.0, w'.roster[j]);
    }
  }

  // ----- one round ---------------------------------------------------------------------------------------------

  function Seats(d: Desk): nat {
    MAX_MEMBERS * |d.slots|
  }

  lemma AllReady(d: Desk)
    requires Orderly(d, All(|d.slots|))
    ensures forall s :: 0 <= s < |d.slots| ==> d.slots[s].ready
    ensures |d.slots| > 0
  {
    hide Tidy, Even, MembersIntended;
    var ready := All(|d.slots|);
    assert SomeSlot(ready);
    var s :| 0 <= s < |ready| && ready[s];
  }

  lemma LookServes(station: string, d: Desk, before: seq<RosterMember>, roster: seq<RosterMember>)
    requires Served(station, d, before) && DistinctIds(roster)
    requires EligibleIds(station, before) <= EligibleIds(station, roster)
    ensures var e := Look(roster, false);
            LosesNobody(station, d, e) && Served(station, MoveFrom(station, d, e), roster)
  {
    hide Orderly, Housed, EligibleIds, DistinctIds, OnlyGranted, NobodyLost, Tidy, HousePass, Pruned, OnRoster;
    var v := ViewOf(station, d, roster, false);
    NobodyMissed(v, d.table);
    MoveKeeps(station, d, Look(roster, false), All(|d.slots|));
    LookKeepsEachChannel(station, d, roster);
    var d' := MoveFrom(station, d, Look(roster, false));
    StillGranted(WorldOf(station, d, before, NO_ROOMS), WorldOf(station, d', roster, NO_ROOMS),
                 d.heal.backoff, d'.heal.backoff);
  }

  lemma LookKeepsEachChannel(station: string, d: Desk, roster: seq<RosterMember>)
    requires Orderly(d, All(|d.slots|)) && Housed(d.table, |d.slots|) && DistinctIds(roster)
    requires NobodyLost(ViewOf(station, d, roster, false), d.table)
    requires d.table.autoAssigned <= EligibleIds(station, roster)
    ensures var t' := HousePass(ViewOf(station, d, roster, false), d.table);
            Housed(t', |d.slots|) && t'.autoAssigned == EligibleIds(station, roster) && d.table.intent <= t'.intent
  {
    hide Housed, EligibleIds, DistinctIds, NobodyLost, HousePass, Pruned, Tidy, Even, MembersIntended;
    var v := ViewOf(station, d, roster, false);
    AllReady(d);
    assert SomeReady(v) by { assert v.slots[0].ready; }
    LookKeeps(station, d, roster, false, All(|d.slots|));
    NothingPruned(v, d.table);
    LookHouses(v, d.table);
  }

  lemma WantedIntended(w: World, s: nat)
    ensures WantedIds(w, s) <= IntentAt(w.intent, s)
  {
    forall u | u in WantedIds(w, s) ensures u in IntentAt(w.intent, s) { InAt(w.intent, s, u); }
  }

  lemma ServedIsCalm(station: string, d: Desk, roster: seq<RosterMember>)
    requires Served(station, d, roster) && |EligibleIds(station, roster)| <= Seats(d)
    ensures Ready(station, d, roster)
  {
    hide Housed, EligibleIds, DistinctIds, OnlyGranted, Tidy, Even, WantedIds, IntentAt;
    var w := WorldOf(station, d, roster, NO_ROOMS);
    AllReady(d);
    forall s | 0 <= s < |w.slots| ensures |w.slots[s].members + WantedIds(w, s)| <= MAX_MEMBERS {
      WantedIntended(w, s);
      SeatsSuffice(d.table, |d.slots|, s);
      SubsetSize(w.slots[s].members + WantedIds(w, s), IntentAt(w.intent, s));
    }
  }

  // A round from a served roster to the next: it is played, and serves everybody on the new one.
  lemma RoundServes(station: string, d: Desk, before: seq<RosterMember>, r: Round) returns (moves: seq<Move>)
    requires Served(station, d, before) && DistinctIds(r.roster)
    requires EligibleIds(station, before) <= EligibleIds(station, r.roster)
    requires |EligibleIds(station, r.roster)| <= Seats(d)
    ensures var d' := AfterRound(station, d, r);
            && Steady(station, d, moves) && Play(station, d, moves) == d'
            && Served(station, d', r.roster) && |d'.slots| == |d.slots|
  {
    hide Orderly, Housed, EligibleIds, DistinctIds, OnlyGranted, Calm, Steady, Play, PromptPasses, LosesNobody;
    var look := Look(r.roster, false);
    var looked := MoveFrom(station, d, look);
    LookServes(station, d, before, r.roster);
    OneMove(station, d, look);
    ServedIsCalm(station, looked, r.roster);
    var rest := PassesArePlayed(station, looked, r.roster, r.nows);
    PassesAreHealing(station, looked, r.roster, r.nows);
    HealingCountsDown(WorldOf(station, looked, r.roster, NO_ROOMS), looked.heal, r.nows);
    PlayOn(station, d, [look], rest);
    PlayKeeps(station, looked, rest, All(|d.slots|));
    moves := [look] + rest;
  }

  // ----- all rounds ---------------------------------------------------------------------------------------------

  // People arrive, and whoever has been eligible stays so; there are never more of them than seats.
  ghost predicate Growing(station: string, rounds: seq<Round>, seats: nat) {
    && (forall i :: 0 <= i < |rounds| ==>
          DistinctIds(rounds[i].roster) && |EligibleIds(station, rounds[i].roster)| <= seats)
    && (forall i, j :: 0 <= i < j < |rounds| ==>
          EligibleIds(station, rounds[i].roster) <= EligibleIds(station, rounds[j].roster))
  }

  function LastRoster(rounds: seq<Round>): seq<RosterMember> {
    if rounds == [] then [] else rounds[|rounds| - 1].roster
  }

  lemma FreshIsServed(station: string, slots: seq<ChannelState>)
    requires Opening(slots, All(|slots|))
    ensures Served(station, Fresh(slots), [])
  {
    hide Opening, Orderly;
    FreshIsOrderly(slots, All(|slots|));
    assert EligibleIds(station, []) == {};
  }

  lemma {:induction false} RoundsServe(station: string, slots: seq<ChannelState>, rounds: seq<Round>)
    returns (moves: seq<Move>)
    requires Opening(slots, All(|slots|)) && Growing(station, rounds, MAX_MEMBERS * |slots|)
    ensures var d := AfterRounds(station, Fresh(slots), rounds);
            && Steady(station, Fresh(slots), moves) && Play(station, Fresh(slots), moves) == d
            && Served(station, d, LastRoster(rounds)) && |d.slots| == |slots|
    decreases |rounds|
  {
    hide Opening, Served, EligibleIds, DistinctIds, Steady, Play, AfterRound;
    if rounds == [] {
      moves := [];
      FreshIsServed(station, slots);
      NothingPlayed(station, Fresh(slots));
    } else {
      var n := |rounds| - 1;
      var before := AfterRounds(station, Fresh(slots), rounds[..n]);
      var first := RoundsServe(station, slots, rounds[..n]);
      if n == 0 { NobodyEligible(station, rounds[n].roster); }
      var last := RoundServes(station, before, LastRoster(rounds[..n]), rounds[n]);
      PlayOn(station, Fresh(slots), first, last);
      moves := first + last;
    }
  }

  lemma NobodyEligible(station: string, roster: seq<RosterMember>)
    ensures EligibleIds(station, []) <= EligibleIds(station, roster)
  {
  }

  // ----- everybody is in ------------------------------------------------------------------------------------------

  // Nobody in a channel is unwanted there, so a slot needs one call at most.
  lemma {:induction false} NoExtras(station: string, d: Desk, roster: seq<RosterMember>, s: nat, n: nat)
    requires Served(station, d, roster) && s < |d.slots| && n <= |roster|
    ensures ExtraIds(WorldOf(station, d, roster, NO_ROOMS), s, n) == []
  {
    hide Served, Want, Have;
    if n > 0 {
      NoExtras(station, d, roster, s, n - 1);
      HadIsWanted(station, d, roster, s, n - 1);
    }
  }

  lemma HadIsWanted(station: string, d: Desk, roster: seq<RosterMember>, s: nat, i: nat)
    requires Served(station, d, roster) && s < |d.slots| && i < |roster|
    ensures var w := WorldOf(station, d, roster, NO_ROOMS); Have(w, s, roster[i]) ==> Want(w, s, roster[i])
  {
    hide Even, OnlyGranted, Housed;
    var u := roster[i].userId;
    if u in d.slots[s].members {
      OrderlyMeans(d, All(|d.slots|));
      assert (s, u) in d.table.intent;
      assert u in EligibleIds(station, roster);
      var j :| 0 <= j < |roster| && IsTalkbackEligible(roster[j], station) && roster[j].userId == u;
      SameIdSameEntry(WorldOf(station, d, roster, NO_ROOMS), i, j);
    }
  }

  lemma {:induction false} OneCallEach(w: World, n: nat)
    requires n <= |w.slots| && forall s :: 0 <= s < |w.slots| ==> ExtraIds(w, s, |w.roster|) == []
    ensures Pending(w, n) <= n
  {
    if n > 0 { OneCallEach(w, n - 1); }
  }

  // Whoever is eligible is in their channel once the healer has nothing left to do.
  lemma HealedIsIn(station: string, d: Desk, roster: seq<RosterMember>, s: nat, u: nat)
    requires Served(station, d, roster) && Healed(WorldOf(station, d, roster, NO_ROOMS)) && s < |d.slots|
    ensures u in d.slots[s].members <==> (s, u) in d.table.intent
  {
    hide Even, OnlyGranted, Housed, DistinctIds;
    OrderlyMeans(d, All(|d.slots|));
    if (s, u) in d.table.intent {
      assert u in EligibleIds(station, roster);
      var j :| 0 <= j < |roster| && IsTalkbackEligible(roster[j], station) && roster[j].userId == u;
      HealedLeavesNobody(WorldOf(station, d, roster, NO_ROOMS), s, j);
    }
  }

  // Everybody of these people is in one channel and no more, nobody else is in any, and the channels are even.
  ghost predicate EverybodyIn(d: Desk, who: set<nat>) {
    && (forall u :: u in who <==> exists s :: 0 <= s < |d.slots| && u in d.slots[s].members)
    && (forall s, r, u :: 0 <= s < |d.slots| && 0 <= r < |d.slots| && u in d.slots[s].members && u in d.slots[r].members ==>
          s == r)
    && (forall s, r :: 0 <= s < |d.slots| && 0 <= r < |d.slots| ==> |d.slots[s].members| <= |d.slots[r].members| + 1)
    && (forall s :: 0 <= s < |d.slots| ==> |d.slots[s].members| <= MAX_MEMBERS)
  }

  lemma ServedAndHealed(station: string, d: Desk, roster: seq<RosterMember>)
    requires Served(station, d, roster) && Healed(WorldOf(station, d, roster, NO_ROOMS))
    requires |EligibleIds(station, roster)| <= Seats(d)
    ensures EverybodyIn(d, EligibleIds(station, roster))
  {
    hide Healed, EligibleIds, DistinctIds, OnlyGranted, Tidy, IntentAt;
    OrderlyMeans(d, All(|d.slots|));
    forall s | 0 <= s < |d.slots| ensures d.slots[s].members == IntentAt(d.table.intent, s) {
      forall u ensures u in d.slots[s].members <==> u in IntentAt(d.table.intent, s) {
        HealedIsIn(station, d, roster, s, u);
        InAt(d.table.intent, s, u);
      }
    }
    forall s | 0 <= s < |d.slots| ensures |d.slots[s].members| <= MAX_MEMBERS { SeatsSuffice(d.table, |d.slots|, s); }
    forall s, r | 0 <= s < |d.slots| && 0 <= r < |d.slots|
      ensures |d.slots[s].members| <= |d.slots[r].members| + 1
    {
      assert Size(d.table.intent, s) <= Size(d.table.intent, r) + 1;
    }
    forall u ensures u in d.table.autoAssigned <==> exists s :: 0 <= s < |d.slots| && u in d.slots[s].members {
      PlacedIsIn(station, d, roster, u);
    }
  }

  lemma PlacedIsIn(station: string, d: Desk, roster: seq<RosterMember>, u: nat)
    requires Served(station, d, roster) && Healed(WorldOf(station, d, roster, NO_ROOMS))
    ensures u in d.table.autoAssigned <==> exists s :: 0 <= s < |d.slots| && u in d.slots[s].members
  {
    hide Healed, EligibleIds, DistinctIds, OnlyGranted, Even, MembersIntended;
    if u in d.table.autoAssigned {
      var s: nat :| (s, u) in d.table.intent;
      HealedIsIn(station, d, roster, s, u);
    }
    if s :| 0 <= s < |d.slots| && u in d.slots[s].members { HealedIsIn(station, d, roster, s, u); }
  }

  /**
   Arrival. However people arrive, round after round, as long as they fit, ten to a channel, and Zoom takes and
   confirms every call: one pass a channel after the last arrival, everybody eligible is in one channel and no other,
   nobody else is in any, the channels differ by one person at most, and no later pass calls Zoom. Every such run is a
   run of the station.
   */
  lemma EverybodyArrives(station: string, slots: seq<ChannelState>, rounds: seq<Round>) returns (moves: seq<Move>)
    requires Opening(slots, All(|slots|)) && Growing(station, rounds, MAX_MEMBERS * |slots|)
    requires rounds != [] && |rounds[|rounds| - 1].nows| >= |slots|
    ensures var d, roster := AfterRounds(station, Fresh(slots), rounds), LastRoster(rounds);
            && EverybodyIn(d, EligibleIds(station, roster))
            && (forall now, accepted, st :: Pass(WorldOf(station, d, roster, NO_ROOMS), now, accepted, st).call == NoCall)
            && Steady(station, Fresh(slots), moves) && Play(station, Fresh(slots), moves) == d
  {
    hide Opening, EligibleIds, DistinctIds, Served, Steady, Play, Healed, Pass;
    moves := RoundsServe(station, slots, rounds);
    var d, roster := AfterRounds(station, Fresh(slots), rounds), LastRoster(rounds);
    LastRoundHeals(station, slots, rounds);
    ServedAndHealed(station, d, roster);
    forall now, accepted, st ensures Pass(WorldOf(station, d, roster, NO_ROOMS), now, accepted, st).call == NoCall {
      NothingPendingMeansIdle(WorldOf(station, d, roster, NO_ROOMS), now, accepted, st);
    }
  }

  lemma LastRoundHeals(station: string, slots: seq<ChannelState>, rounds: seq<Round>)
    requires Opening(slots, All(|slots|)) && Growing(station, rounds, MAX_MEMBERS * |slots|)
    requires rounds != [] && |rounds[|rounds| - 1].nows| >= |slots|
    ensures Healed(WorldOf(station, AfterRounds(station, Fresh(slots), rounds), LastRoster(rounds), NO_ROOMS))
  {
    hide Opening, EligibleIds, DistinctIds, Served, Steady, Play, Healed, PromptPasses, Calm, OnlyGranted;
    var n := |rounds| - 1;
    var r, before := rounds[n], AfterRounds(station, Fresh(slots), rounds[..n]);
    var moves := RoundsServe(station, slots, rounds[..n]);
    if n == 0 { NobodyEligible(station, r.roster); }
    LookServes(station, before, LastRoster(rounds[..n]), r.roster);
    var looked := MoveFrom(station, before, Look(r.roster, false));
    ServedIsCalm(station, looked, r.roster);
    var w := WorldOf(station, looked, r.roster, NO_ROOMS);
    forall s | 0 <= s < |w.slots| ensures ExtraIds(w, s, |w.roster|) == [] {
      NoExtras(station, looked, r.roster, s, |r.roster|);
    }
    OneCallEach(w, |w.slots|);
    PassesAreHealing(station, looked, r.roster, r.nows);
    HealingCountsDown(w, looked.heal, r.nows);
    NothingPendingMeansHealed(HealFor(w, looked.heal, r.nows).0);
  }
}
