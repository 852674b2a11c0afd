/**
 Housekeeping, healing and Zoom's confirmations as one run of the main loop: src/app/main.cpp:1531-1678. Nothing is
 assumed of Zoom's answers, of the clock or of the rooms; people may leave a channel at any time, and join one
 they were invited to at any time after that.
 */
module Station {
  import opened AutoAssign
  import opened Balance
  import opened Eligibility
  import opened Healer
  import opened HealerFairness
  import opened Housekeeping
  import opened RoomPlan
  import opened TalkbackChannels

  type Key = (nat, nat)   // slot, user id

  // `asked` holds every invitation Zoom has taken.
  datatype Desk = Desk(table: Table, slots: seq<ChannelState>, heal: State, asked: set<Key>)

  datatype Move =
    | Look(roster: seq<RosterMember>, started: bool)
    | Mend(roster: seq<RosterMember>, rooms: BreakoutState, now: int, accepted: bool)
    | RoomsMove
    | Joins(slot: nat, user: nat)
    | Leaves(slot: nat, user: nat)

  // ----- one move --------------------------------------------------------------------------------------

  function ViewOf(station: string, d: Desk, roster: seq<RosterMember>, started: bool): View {
    View(roster, station, started, d.slots)
  }

  function WorldOf(station: string, d: Desk, roster: seq<RosterMember>, rooms: BreakoutState): World {
    World(roster, station, rooms, d.table.intent, d.slots)
  }

  // Whom Zoom took the invitation for.
  function AskedBy(w: World, call: Call, accepted: bool): set<Key> {
    match call
    case Invite(s, userIds) =>
      if accepted && s < |w.slots| && Fits(w, s, userIds) then set u | u in userIds :: (s, u) else {}
    case _ => {}
  }

  function WithSlot(slots: seq<ChannelState>, s: nat, members: set<nat>): seq<ChannelState>
    requires s < |slots|
  {
    slots[s := WithMembers(slots[s], members)]
  }

  predicate Enabled(d: Desk, e: Move) {
    match e
    case Joins(s, u) => s < |d.slots| && (s, u) in d.asked
    case Leaves(s, _) => s < |d.slots|
    case _ => true
  }

  function MoveFrom(station: string, d: Desk, e: Move): Desk
    requires Enabled(d, e)
  {
    match e
    case Look(roster, started) =>
      d.(table := HousePass(ViewOf(station, d, roster, started), d.table),
         heal := StepFrom(d.heal, Housekeep(roster, started)).state)
    case Mend(roster, rooms, now, accepted) =>
      var w := WorldOf(station, d, roster, rooms);
      var o := StepFrom(d.heal, Heal(w, now, accepted));
      d.(heal := o.state, asked := d.asked + AskedBy(w, o.call, accepted))
    case RoomsMove => d.(heal := StepFrom(d.heal, RoomsChanged).state)
    case Joins(s, u) => d.(slots := WithSlot(d.slots, s, d.slots[s].members + {u}))
    case Leaves(s, u) => d.(slots := WithSlot(d.slots, s, d.slots[s].members - {u}))
  }

  // ----- what every move keeps ----------------------------------------------------------------------------

  ghost predicate SomeSlot(ready: seq<bool>) {
    exists s :: 0 <= s < |ready| && ready[s]
  }

  ghost predicate Orderly(d: Desk, ready: seq<bool>) {
    && ReadySet(d.slots, ready) && SomeSlot(ready)
    && Tidy(d.table) && Even(d.table.intent, ready)
    && MembersIntended(d.slots, d.table.intent)
    && d.asked <= d.table.intent
  }

  // Nobody the station has placed is lost sight of.
  ghost predicate LosesNobody(station: string, d: Desk, e: Move) {
    e.Look? ==> NobodyLost(ViewOf(station, d, e.roster, e.started), d.table)
  }

  lemma IntendedStays(slots: seq<ChannelState>, intent: set<Key>, more: set<Key>)
    requires MembersIntended(slots, intent) && intent <= more
    ensures MembersIntended(slots, more)
  {
    forall s | 0 <= s < |slots| ensures slots[s].members <= IntentAt(more, s) { AtGrows(intent, more, s); }
  }

  lemma AtGrows(intent: set<Key>, more: set<Key>, s: nat)
    requires intent <= more
    ensures IntentAt(intent, s) <= IntentAt(more, s)
  {
    forall u | u in IntentAt(intent, s) ensures u in IntentAt(more, s) { InAt(intent, s, u); InAt(more, s, u); }
  }

  lemma InAt(intent: set<Key>, s: nat, u: nat)
    ensures u in IntentAt(intent, s) <==> (s, u) in intent
  {
    if (s, u) in intent {
      var p := (s, u);
      assert p in intent && p.0 == s && p.1 == u;
    }
  }

  lemma LookKeeps(station: string, d: Desk, roster: seq<RosterMember>, started: bool, ready: seq<bool>)
    requires Orderly(d, ready) && NobodyLost(ViewOf(station, d, roster, started), d.table)
    ensures var d' := MoveFrom(station, d, Look(roster, started)); Orderly(d', ready) && d.table.intent <= d'.table.intent
  {
    hide Tidy, Even, MembersIntended, NobodyLost, HousePass, Pruned, StepFrom;
    var v := ViewOf(station, d, roster, started);
    assert SomeReady(v) by {
      var s :| 0 <= s < |ready| && ready[s];
      assert v.slots[s].ready;
    }
    NothingPruned(v, d.table);
    SteadyPass(v, d.table, ready);
    IntendedStays(d.slots, d.table.intent, HousePass(v, d.table).intent);
  }

  lemma AskedAreIntended(w: World, now: int, accepted: bool, st: State)
    ensures AskedBy(w, Pass(w, now, accepted, st).call, accepted) <= w.intent
  {
    hide Pass, Fits;
    CallIsJustified(w, now, accepted, st);
    var call := Pass(w, now, accepted, st).call;
    if call.Invite? {
      forall p | p in AskedBy(w, call, accepted) ensures p in w.intent { assert Invitable(w, call.slot, p.1); }
    }
  }

  lemma MembersKeep(d: Desk, s: nat, members: set<nat>, ready: seq<bool>)
    requires Orderly(d, ready) && s < |d.slots| && members <= IntentAt(d.table.intent, s)
    ensures Orderly(d.(slots := WithSlot(d.slots, s, members)), ready)
  {
    hide Tidy, Even, IntentAt;
  }

  lemma MoveKeeps(station: string, d: Desk, e: Move, ready: seq<bool>)
    requires Orderly(d, ready) && Enabled(d, e) && LosesNobody(station, d, e)
    ensures Orderly(MoveFrom(station, d, e), ready)
  {
    match e
    case Look(roster, started) => LookKeeps(station, d, roster, started, ready);
    case Mend(roster, rooms, now, accepted) => MendKeeps(station, d, e, ready);
    case RoomsMove => OnlyHealing(d, StepFrom(d.heal, RoomsChanged).state, d.asked, ready);
    case Joins(s, u) =>
      InAt(d.table.intent, s, u);
      MembersKeep(d, s, d.slots[s].members + {u}, ready);
    case Leaves(s, u) =>
      MembersKeep(d, s, d.slots[s].members - {u}, ready);
  }

  lemma OnlyHealing(d: Desk, heal: State, asked: set<Key>, ready: seq<bool>)
    requires Orderly(d, ready) && asked <= d.table.intent
    ensures Orderly(d.(heal := heal, asked := asked), ready)
  {
    hide Tidy, Even, MembersIntended, ReadySet, SomeSlot;
  }

  lemma MendKeeps(station: string, d: Desk, e: Move, ready: seq<bool>)
    requires Orderly(d, ready) && e.Mend?
    ensures Orderly(MoveFrom(station, d, e), ready)
  {
    hide Orderly, Pass, AskedBy;
    var w := WorldOf(station, d, e.roster, e.rooms);
    AskedAreIntended(w, e.now, e.accepted, d.heal);
    assert d.asked <= d.table.intent by { AskedIn(d, ready); }
    var o := Pass(w, e.now, e.accepted, d.heal);
    OnlyHealing(d, o.state, d.asked + AskedBy(w, o.call, e.accepted), ready);
  }

  lemma AskedIn(d: Desk, ready: seq<bool>)
    requires Orderly(d, ready)
    ensures d.asked <= d.table.intent
  {
  }

  // ----- whole runs -----------------------------------------------------------------------------------------

  ghost predicate Steady(station: string, d: Desk, moves: seq<Move>)
    decreases |moves|
  {
    moves == [] ||
    (Enabled(d, moves[0]) && LosesNobody(station, d, moves[0])
     && Steady(station, MoveFrom(station, d, moves[0]), moves[1..]))
  }

  ghost function Play(station: string, d: Desk, moves: seq<Move>): Desk
    requires Steady(station, d, moves)
    decreases |moves|
  {
    if moves == [] then d else Play(station, MoveFrom(station, d, moves[0]), moves[1..])
  }

  lemma {:induction false} PlayKeeps(station: string, d: Desk, moves: seq<Move>, ready: seq<bool>)
    requires Orderly(d, ready) && Steady(station, d, moves)
    ensures Orderly(Play(station, d, moves), ready)
    decreases |moves|
  {
    if moves != [] {
      hide Orderly, MoveFrom, LosesNobody;
      MoveKeeps(station, d, moves[0], ready);
      PlayKeeps(station, MoveFrom(station, d, moves[0]), moves[1..], ready);
    }
  }

  // The channels have come up, and nobody is in any.
  ghost predicate Opening(slots: seq<ChannelState>, ready: seq<bool>) {
    ReadySet(slots, ready) && SomeSlot(ready) && forall s :: 0 <= s < |slots| ==> slots[s].members == {}
  }

  function Fresh(slots: seq<ChannelState>): Desk {
    Desk(NOBODY, slots, State(map[], 0), {})
  }

  lemma FreshIsOrderly(slots: seq<ChannelState>, ready: seq<bool>)
    requires Opening(slots, ready)
    ensures Orderly(Fresh(slots), ready)
  {
    forall s: nat ensures Size({}, s) == 0 { assert IntentAt({}, s) == {}; }
  }

  // Nobody is in a channel they were not assigned, or in two.
  ghost predicate InTheirOwn(d: Desk) {
    && (forall s, u :: 0 <= s < |d.slots| && u in d.slots[s].members ==> (s, u) in d.table.intent)
    && (forall s, r, u :: 0 <= s < |d.slots| && 0 <= r < |d.slots| && u in d.slots[s].members && u in d.slots[r].members ==>
          s == r)
  }

  lemma OrderlyMeans(d: Desk, ready: seq<bool>)
    requires Orderly(d, ready)
    ensures InTheirOwn(d)
  {
    hide Even;
    forall s, u | 0 <= s < |d.slots| && u in d.slots[s].members ensures (s, u) in d.table.intent {
      InAt(d.table.intent, s, u);
    }
  }

  /**
   From channels that have come up empty, over every run in which nobody placed is lost sight of - whatever Zoom
   answers and whenever it confirms, whoever leaves a channel, whatever the rooms do: assignment stays even, nobody
   has two channels, and nobody is ever in a channel but their own.
   */
  lemma NobodyStrays(station: string, slots: seq<ChannelState>, moves: seq<Move>, ready: seq<bool>)
    requires Opening(slots, ready) && Steady(station, Fresh(slots), moves)
    ensures var d := Play(station, Fresh(slots), moves);
            Even(d.table.intent, ready) && OneChannelEach(d.table) && InTheirOwn(d)
  {
    hide Steady, Play, Opening;
    FreshIsOrderly(slots, ready);
    PlayKeeps(station, Fresh(slots), moves, ready);
    OrderlyMeans(Play(station, Fresh(slots), moves), ready);
  }
}
