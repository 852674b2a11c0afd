/**
 Re-entrant planning: what PlanRooms answers after any part of its plan took effect.
 */
module RoomReplan {
  import opened RoomPlan

  // ----- what an action does to the live rooms --------------------------------------------------

  function Without(users: seq<string>, person: string): seq<string> {
    if users == [] then []
    else Without(users[..|users| - 1], person) + if users[|users| - 1] == person then [] else [users[|users| - 1]]
  }

  function Vacate(rooms: seq<BreakoutRoom>, person: string): seq<BreakoutRoom> {
    seq(|rooms|, i requires 0 <= i < |rooms| => rooms[i].(users := Without(rooms[i].users, person)))
  }

  // The first room of that name takes the person in.
  function Enter(rooms: seq<BreakoutRoom>, person: string, room: string): seq<BreakoutRoom> {
    if rooms == [] then []
    else if rooms[0].name == room then [rooms[0].(users := rooms[0].users + [person])] + rooms[1..]
    else [rooms[0]] + Enter(rooms[1..], person, room)
  }

  predicate CanTakeEffect(have: BreakoutState, a: Action) {
    a.Place? ==> a.room in LiveRooms(have.rooms)
  }

  function Effect(have: BreakoutState, a: Action): BreakoutState {
    match a
    case CreateRoom(room) =>
      if room in LiveRooms(have.rooms) then have else have.(rooms := have.rooms + [BreakoutRoom(room, [])])
    case Place(_, person, room) => have.(rooms := Enter(Vacate(have.rooms, person), person, room))
    case NeedStart => have.(started := true)
  }

  function EffectSeen(seen: Seen, a: Action): Seen {
    match a
    case CreateRoom(room) => seen.(live := seen.live + {room})
    case Place(_, person, room) => seen.(where := seen.where[person := room])
    case NeedStart => seen.(started := true)
  }

  // Actions of the plan taking effect one after another, in any order and any number of times;
  // an assignment needs its room to exist by then.
  ghost predicate TakesEffect(have: BreakoutState, plan: seq<Action>, done: seq<Action>)
    decreases |done|
  {
    done == [] ||
    (done[0] in plan && CanTakeEffect(have, done[0]) && TakesEffect(Effect(have, done[0]), plan, done[1..]))
  }

  function After(have: BreakoutState, done: seq<Action>): BreakoutState
    decreases |done|
  {
    if done == [] then have else After(Effect(have, done[0]), done[1..])
  }

  // ----- effects, as the planner sees them -----------------------------------------------------

  lemma LiveAppend(rooms: seq<BreakoutRoom>, r: BreakoutRoom)
    ensures LiveRooms(rooms + [r]) == LiveRooms(rooms) + {r.name}
  {
    LiveSnoc(rooms, r);
  }

  lemma SameNamesSameLive(rooms: seq<BreakoutRoom>, others: seq<BreakoutRoom>)
    requires |rooms| == |others| && forall i :: 0 <= i < |rooms| ==> rooms[i].name == others[i].name
    ensures LiveRooms(rooms) == LiveRooms(others)
  {
    forall n | n in LiveRooms(rooms) ensures n in LiveRooms(others) {
      var i :| 0 <= i < |rooms| && rooms[i].name == n;
      assert others[i].name == n;
    }
    forall n | n in LiveRooms(others) ensures n in LiveRooms(rooms) {
      var i :| 0 <= i < |rooms| && others[i].name == n;
      assert rooms[i].name == n;
    }
  }

  lemma MapMinusUpdate(m: map<string, string>, person: string, other: string, room: string)
    requires other != person
    ensures (m - {person})[other := room] == m[other := room] - {person}
  {
  }

  lemma {:induction false} PlaceWithout(where: map<string, string>, users: seq<string>, room: string, person: string)
    ensures PlaceAll(where - {person}, Without(users, person), room) == PlaceAll(where, users, room) - {person}
  {
    if users != [] {
      var front := users[..|users| - 1];
      var last := users[|users| - 1];
      PlaceWithout(where, front, room, person);
      var w := Without(front, person);
      if last == person {
        assert w + [] == w;
      } else {
        assert (w + [last])[..|w|] == w;
        MapMinusUpdate(PlaceAll(where, front, room), person, last, room);
      }
    }
  }

  lemma {:induction false} VacateLosesOnly(rooms: seq<BreakoutRoom>, person: string)
    ensures PersonRoom(Vacate(rooms, person)) == PersonRoom(rooms) - {person}
  {
    if rooms != [] {
      var n := |rooms| - 1;
      VacateLosesOnly(rooms[..n], person);
      assert Vacate(rooms, person)[..n] == Vacate(rooms[..n], person);
      PlaceWithout(PersonRoom(rooms[..n]), rooms[n].users, rooms[n].name, person);
    }
  }

  // No room lists the person.
  ghost predicate Absent(rooms: seq<BreakoutRoom>, person: string) {
    forall i :: 0 <= i < |rooms| ==> person !in rooms[i].users
  }

  lemma {:induction false} WithoutLacks(users: seq<string>, person: string)
    ensures person !in Without(users, person)
  {
    if users != [] { WithoutLacks(users[..|users| - 1], person); }
  }

  lemma VacateAbsent(rooms: seq<BreakoutRoom>, person: string)
    ensures Absent(Vacate(rooms, person), person)
  {
    forall i | 0 <= i < |rooms| ensures person !in Vacate(rooms, person)[i].users {
      WithoutLacks(rooms[i].users, person);
    }
  }

  // Later rooms that do not list the person leave their entry alone.
  lemma {:induction false} PlaceOther(where: map<string, string>, users: seq<string>, room: string,
                                      person: string, at: string)
    requires person !in users
    ensures PlaceAll(where[person := at], users, room) == PlaceAll(where, users, room)[person := at]
  {
    if users != [] {
      var last := users[|users| - 1];
      PlaceOther(where, users[..|users| - 1], room, person, at);
      assert last != person;
    }
  }

  // The entered room is the k-th; everything behind it does not list the person.
  lemma {:induction false} EnterAt(rooms: seq<BreakoutRoom>, person: string, k: nat)
    requires k < |rooms| && Absent(rooms, person)
    ensures PersonRoom(rooms[k := rooms[k].(users := rooms[k].users + [person])])
         == PersonRoom(rooms)[person := rooms[k].name]
  {
    var n := |rooms| - 1;
    var last := rooms[n];
    var entered := rooms[k := rooms[k].(users := rooms[k].users + [person])];
    if k == n {
      assert entered[..n] == rooms[..n];
      assert (last.users + [person])[..|last.users|] == last.users;
    } else {
      EnterAt(rooms[..n], person, k);
      assert entered[..n] == rooms[..n][k := rooms[k].(users := rooms[k].users + [person])];
      PlaceOther(PersonRoom(rooms[..n]), last.users, last.name, person, rooms[k].name);
    }
  }

  lemma {:induction false} EnterIsUpdate(rooms: seq<BreakoutRoom>, person: string, room: string) returns (k: nat)
    requires room in LiveRooms(rooms)
    ensures k < |rooms| && rooms[k].name == room
    ensures Enter(rooms, person, room) == rooms[k := rooms[k].(users := rooms[k].users + [person])]
  {
    if rooms[0].name == room {
      k := 0;
    } else {
      var i :| 0 <= i < |rooms| && rooms[i].name == room;
      assert rooms[1..][i - 1].name == room;
      k := EnterIsUpdate(rooms[1..], person, room);
      k := k + 1;
    }
  }

  lemma CreateIsSeen(have: BreakoutState, room: string)
    ensures See(Effect(have, CreateRoom(room))) == EffectSeen(See(have), CreateRoom(room))
  {
    if room in LiveRooms(have.rooms) {
      assert See(have).live + {room} == See(have).live;
    } else {
      var r := BreakoutRoom(room, []);
      LiveAppend(have.rooms, r);
      assert (have.rooms + [r])[..|have.rooms|] == have.rooms;
    }
  }

  lemma EnterIsSeen(rooms: seq<BreakoutRoom>, person: string, room: string)
    requires room in LiveRooms(rooms) && Absent(rooms, person)
    ensures LiveRooms(Enter(rooms, person, room)) == LiveRooms(rooms)
    ensures PersonRoom(Enter(rooms, person, room)) == PersonRoom(rooms)[person := room]
  {
    var k := EnterIsUpdate(rooms, person, room);
    SameNamesSameLive(rooms, rooms[k := rooms[k].(users := rooms[k].users + [person])]);
    EnterAt(rooms, person, k);
  }

  lemma VacateIsSeen(rooms: seq<BreakoutRoom>, person: string)
    ensures Absent(Vacate(rooms, person), person)
    ensures LiveRooms(Vacate(rooms, person)) == LiveRooms(rooms)
    ensures PersonRoom(Vacate(rooms, person)) == PersonRoom(rooms) - {person}
  {
    SameNamesSameLive(rooms, Vacate(rooms, person));
    VacateAbsent(rooms, person);
    VacateLosesOnly(rooms, person);
  }

  lemma PlaceIsSeen(have: BreakoutState, verb: Verb, person: string, room: string)
    requires room in LiveRooms(have.rooms)
    ensures See(Effect(have, Place(verb, person, room))) == EffectSeen(See(have), Place(verb, person, room))
  {
    var where := PersonRoom(have.rooms);
    VacateIsSeen(have.rooms, person);
    EnterIsSeen(Vacate(have.rooms, person), person, room);
    MapOverwrite(where, person, room);
  }

  lemma MapOverwrite(m: map<string, string>, person: string, room: string)
    ensures (m - {person})[person := room] == m[person := room]
  {
  }

  /** What an action does to the rooms is what it does to the planner's two indexes. */
  lemma EffectIsSeen(have: BreakoutState, a: Action)
    requires CanTakeEffect(have, a)
    ensures See(Effect(have, a)) == EffectSeen(See(have), a)
  {
    match a
    case CreateRoom(room) => CreateIsSeen(have, room);
    case Place(verb, person, room) => PlaceIsSeen(have, verb, person, room);
    case NeedStart =>
  }

  // ----- planning again -------------------------------------------------------------------------

  // A person may be wanted twice in one room, but not in two.
  ghost predicate OneRoomEach(want: seq<WantedRoom>) {
    forall i, j, p :: 0 <= i < |want| && 0 <= j < |want| && p in want[i].members && p in want[j].members ==>
      want[i].name == want[j].name
  }

  ghost predicate WantedIn(want: seq<WantedRoom>, person: string, room: string) {
    exists i :: 0 <= i < |want| && want[i].name == room && person in want[i].members
  }

  predicate SameTarget(a: Action, b: Action) {
    match a
    case CreateRoom(room) => b == a
    case Place(_, person, room) => b.Place? && b.person == person && b.room == room
    case NeedStart => false
  }

  function Drop(plan: seq<Action>, a: Action): seq<Action> {
    if plan == [] then []
    else Drop(plan[..|plan| - 1], a) + if SameTarget(a, plan[|plan| - 1]) then [] else [plan[|plan| - 1]]
  }

  lemma {:induction false} DropConcat(x: seq<Action>, y: seq<Action>, a: Action)
    ensures Drop(x + y, a) == Drop(x, a) + Drop(y, a)
  {
    if y == [] {
      assert x + y == x;
    } else {
      assert (x + y)[..|x + y| - 1] == x + y[..|y| - 1];
      DropConcat(x, y[..|y| - 1], a);
    }
  }

  lemma DropOne(b: Action, a: Action)
    ensures Drop([b], a) == if SameTarget(a, b) then [] else [b]
  {
    assert [b][..0] == [];
  }

  // Creating a room answers its creation and nothing else; before the start no placement looks at it.
  lemma {:induction false} CreateDrops(seen: Seen, members: seq<string>, name: string, room: string)
    requires !seen.started
    ensures var a := CreateRoom(room); var next := EffectSeen(seen, a);
            Creation(next, name) == Drop(Creation(seen, name), a)
            && Placements(next, members, name) == Drop(Placements(seen, members, name), a)
  {
    var a := CreateRoom(room);
    var next := EffectSeen(seen, a);
    if Creation(seen, name) != [] { DropOne(CreateRoom(name), a); }
    if members != [] {
      var front, p := members[..|members| - 1], members[|members| - 1];
      CreateDrops(seen, front, name, room);
      if PlacementOf(seen, p, name) != [] { DropOne(Place(VerbFor(seen, p), p, name), a); }
      DropConcat(Placements(seen, front, name), PlacementOf(seen, p, name), a);
    }
  }

  lemma PlacementDrops(seen: Seen, q: string, name: string, verb: Verb, p: string, room: string)
    requires q == p ==> name == room
    ensures var a := Place(verb, p, room);
            PlacementOf(EffectSeen(seen, a), q, name) == Drop(PlacementOf(seen, q, name), a)
  {
    if PlacementOf(seen, q, name) != [] { DropOne(Place(VerbFor(seen, q), q, name), Place(verb, p, room)); }
  }

  // Moving a person where they are wanted answers their placement and nobody else's.
  lemma {:induction false} PlaceDrops(seen: Seen, members: seq<string>, name: string, verb: Verb, p: string, room: string)
    requires p in members ==> name == room
    ensures var a := Place(verb, p, room); var next := EffectSeen(seen, a);
            Creation(next, name) == Drop(Creation(seen, name), a)
            && Placements(next, members, name) == Drop(Placements(seen, members, name), a)
  {
    var a := Place(verb, p, room);
    if Creation(seen, name) != [] { DropOne(CreateRoom(name), a); }
    if members != [] {
      var front, q := members[..|members| - 1], members[|members| - 1];
      PlaceDrops(seen, front, name, verb, p, room);
      PlacementDrops(seen, q, name, verb, p, room);
      DropConcat(Placements(seen, front, name), PlacementOf(seen, q, name), a);
    }
  }

  lemma {:induction false} ChangesDrop(seen: Seen, want: seq<WantedRoom>, a: Action)
    requires OneRoomEach(want)
    requires (a.CreateRoom? && !seen.started) || (a.Place? && WantedIn(want, a.person, a.room))
    ensures Changes(EffectSeen(seen, a), want) == Drop(Changes(seen, want), a)
  {
    var placeable := a.Place? ==> forall i :: 0 <= i < |want| && a.person in want[i].members ==> want[i].name == a.room;
    assert placeable;
    ChangesDropPrefix(seen, want, a);
  }

  lemma {:induction false} ChangesDropPrefix(seen: Seen, want: seq<WantedRoom>, a: Action)
    requires (a.CreateRoom? && !seen.started)
      || (a.Place? && forall i :: 0 <= i < |want| && a.person in want[i].members ==> want[i].name == a.room)
    ensures Changes(EffectSeen(seen, a), want) == Drop(Changes(seen, want), a)
  {
    if want != [] {
      var front, w := want[..|want| - 1], want[|want| - 1];
      ChangesDropPrefix(seen, front, a);
      if a.CreateRoom? {
        CreateDrops(seen, w.members, w.name, a.room);
      } else {
        PlaceDrops(seen, w.members, w.name, a.verb, a.person, a.room);
      }
      DropConcat(Changes(seen, front), Creation(seen, w.name), a);
      DropConcat(Changes(seen, front) + Creation(seen, w.name), Placements(seen, w.members, w.name), a);
    }
  }

  function DropAll(plan: seq<Action>, done: seq<Action>): seq<Action>
    decreases |done|
  {
    if done == [] then plan else DropAll(Drop(plan, done[0]), done[1..])
  }

  // The plan without the actions that were done, in its own order.
  function Unapplied(plan: seq<Action>, done: seq<Action>): seq<Action> {
    if plan == [] then []
    else
      Unapplied(plan[..|plan| - 1], done) + if plan[|plan| - 1] in done then [] else [plan[|plan| - 1]]
  }

  // What the changes contain, and with which verb.
  lemma {:induction false} PlacementsContain(seen: Seen, members: seq<string>, room: string, a: Action)
    ensures a in Placements(seen, members, room) <==>
      a.Place? && a.room == room && a.person in members && PlacementOf(seen, a.person, room) == [a]
  {
    if members != [] {
      var front, p := members[..|members| - 1], members[|members| - 1];
      PlacementsContain(seen, front, room, a);
      assert members == front + [p];
    }
  }

  /** Exactly which actions a plan holds: a missing room before the start is created; a person who is
      not where they are wanted is placed, after the start only if that room exists, with the verb
      that fits where they are now. */
  lemma {:induction false} ChangesContain(seen: Seen, want: seq<WantedRoom>, a: Action)
    ensures a in Changes(seen, want) <==>
      match a
      case CreateRoom(room) => !seen.started && room !in seen.live && exists i :: 0 <= i < |want| && want[i].name == room
      case Place(verb, person, room) =>
        && WantedIn(want, person, room) && !(person in seen.where && seen.where[person] == room)
        && (seen.started ==> room in seen.live)
        && verb == (if !seen.started then AssignUser else if person in seen.where then SwitchRunning else AssignRunning)
      case NeedStart => false
  {
    if want != [] {
      var n := |want| - 1;
      var front, w := want[..n], want[n];
      ChangesContain(seen, front, a);
      PlacementsContain(seen, w.members, w.name, a);
      match a
      case CreateRoom(room) =>
        assert (exists i :: 0 <= i < |want| && want[i].name == room) <==>
               w.name == room || exists i :: 0 <= i < n && front[i].name == room by {
          if exists i :: 0 <= i < n && front[i].name == room {
            var i :| 0 <= i < n && front[i].name == room;
            assert want[i].name == room;
          }
        }
      case Place(verb, person, room) =>
        WantedSnoc(want, person, room);
      case NeedStart =>
    }
  }

  lemma WantedSnoc(want: seq<WantedRoom>, person: string, room: string)
    requires want != []
    ensures WantedIn(want, person, room) <==>
      WantedIn(want[..|want| - 1], person, room) || (want[|want| - 1].name == room && person in want[|want| - 1].members)
  {
    var front := want[..|want| - 1];
    if WantedIn(front, person, room) {
      var i :| 0 <= i < |front| && front[i].name == room && person in front[i].members;
      assert want[i].name == room;
    }
  }

  lemma NoMoreRooms(seen: Seen, one: seq<WantedRoom>)
    ensures Changes(seen, one + []) == Changes(seen, one) + Changes(seen, [])
  {
    assert one + [] == one;
  }

  lemma FrontOf<T>(one: seq<T>, two: seq<T>)
    requires two != []
    ensures var all, n := one + two, |two| - 1;
            all[..|all| - 1] == one + two[..n] && all[|all| - 1] == two[n] && [] + two == two && [] + two[..n] == two[..n]
  {
  }

  lemma LastRoom(seen: Seen, one: seq<WantedRoom>, two: seq<WantedRoom>)
    requires two != []
    ensures var n, w := |two| - 1, two[|two| - 1];
            && Changes(seen, one + two)
               == Changes(seen, one + two[..n]) + Creation(seen, w.name) + Placements(seen, w.members, w.name)
            && [] + two == two && [] + two[..n] == two[..n]
  {
    hide Creation, Placements;
    FrontOf(one, two);
  }

  lemma Appends(a: seq<Action>, b: seq<Action>, c: seq<Action>, d: seq<Action>)
    ensures a + b + c + d == a + (b + c + d)
  {
  }

  /** The plan follows the layout, room by room. */
  lemma {:induction false} FollowsLayout(seen: Seen, one: seq<WantedRoom>, two: seq<WantedRoom>)
    ensures Changes(seen, one + two) == Changes(seen, one) + Changes(seen, two)
    decreases |two|
  {
    hide *;
    if two == [] {
      NoMoreRooms(seen, one);
    } else {
      var n, w := |two| - 1, two[|two| - 1];
      FollowsLayout(seen, one, two[..n]);
      LastRoom(seen, one, two);
      LastRoom(seen, [], two);
      Appends(Changes(seen, one), Changes(seen, two[..n]), Creation(seen, w.name), Placements(seen, w.members, w.name));
    }
  }

  /** In each room's part its creation comes before its people, and these come in their order. */
  lemma FollowsList(seen: Seen, name: string, members: seq<string>, person: string)
    ensures Changes(seen, [WantedRoom(name, members + [person])])
         == Changes(seen, [WantedRoom(name, members)]) + PlacementOf(seen, person, name)
    ensures Changes(seen, [WantedRoom(name, [])])
         == if !seen.started && name !in seen.live then [CreateRoom(name)] else []
  {
    hide PlacementOf;
    assert (members + [person])[..|members|] == members;
    assert [WantedRoom(name, members + [person])][..0] == [] && [WantedRoom(name, members)][..0] == [];
    assert [WantedRoom(name, [])][..0] == [];
  }

  // ----- the run ---------------------------------------------------------------------------------

  ghost predicate Fits(want: seq<WantedRoom>, started: bool, a: Action) {
    (a.CreateRoom? && !started) || (a.Place? && WantedIn(want, a.person, a.room))
  }

  lemma {:induction false} RunDrops(want: seq<WantedRoom>, have: BreakoutState, plan: seq<Action>, done: seq<Action>)
    requires OneRoomEach(want) && TakesEffect(have, plan, done)
    requires forall a :: a in plan ==> Fits(want, have.started, a)
    ensures Changes(See(After(have, done)), want) == DropAll(Changes(See(have), want), done)
    ensures After(have, done).started == have.started
    decreases |done|
  {
    if done != [] {
      var a := done[0];
      assert Fits(want, have.started, a);
      EffectIsSeen(have, a);
      ChangesDrop(See(have), want, a);
      RunDrops(want, Effect(have, a), plan, done[1..]);
    }
  }

  lemma {:induction false} DropKeepsOnly(plan: seq<Action>, a: Action)
    ensures forall b :: b in Drop(plan, a) ==> b in plan
  {
    if plan != [] { DropKeepsOnly(plan[..|plan| - 1], a); }
  }

  lemma {:induction false} UnappliedAfterDrop(plan: seq<Action>, done: seq<Action>)
    requires done != []
    requires forall b :: b in plan ==> (SameTarget(done[0], b) <==> b == done[0])
    ensures Unapplied(Drop(plan, done[0]), done[1..]) == Unapplied(plan, done)
  {
    if plan != [] {
      var front, b := plan[..|plan| - 1], plan[|plan| - 1];
      UnappliedAfterDrop(front, done);
      assert done == [done[0]] + done[1..];
      var d := Drop(front, done[0]);
      if b == done[0] {
        assert d + [] == d;
      } else {
        assert (d + [b])[..|d|] == d;
        assert b in done <==> b in done[1..];
      }
    }
  }

  lemma {:induction false} DropAllIsUnapplied(plan: seq<Action>, done: seq<Action>)
    requires forall a, b :: a in done && b in plan ==> (SameTarget(a, b) <==> a == b)
    ensures DropAll(plan, done) == Unapplied(plan, done)
    decreases |done|
  {
    if done == [] {
      NothingApplied(plan);
    } else {
      DropKeepsOnly(plan, done[0]);
      DropAllIsUnapplied(Drop(plan, done[0]), done[1..]);
      UnappliedAfterDrop(plan, done);
    }
  }

  lemma {:induction false} NothingApplied(plan: seq<Action>)
    ensures Unapplied(plan, []) == plan
  {
    if plan != [] {
      NothingApplied(plan[..|plan| - 1]);
      assert plan == plan[..|plan| - 1] + [plan[|plan| - 1]];
    }
  }

  lemma {:induction false} AllApplied(plan: seq<Action>, done: seq<Action>)
    requires forall a :: a in plan ==> a in done
    ensures Unapplied(plan, done) == []
  {
    if plan != [] { AllApplied(plan[..|plan| - 1], done); }
  }

  lemma OneVerbPerTarget(seen: Seen, want: seq<WantedRoom>, a: Action, b: Action)
    requires a in Changes(seen, want) && b in Changes(seen, want)
    ensures SameTarget(a, b) <==> a == b
  {
    ChangesContain(seen, want, a);
    ChangesContain(seen, want, b);
  }

  lemma {:induction false} NoPlacementsMeansPlaced(seen: Seen, members: seq<string>, room: string)
    requires !seen.started
    ensures Placements(seen, members, room) == [] <==> AllPlaced(seen, members, room)
  {
    if members != [] {
      NoPlacementsMeansPlaced(seen, members[..|members| - 1], room);
      assert members == members[..|members| - 1] + [members[|members| - 1]];
    }
  }

  /** Before the start, the layout is satisfied exactly when there is nothing left to change. */
  lemma {:induction false} NoChangesMeansSatisfied(seen: Seen, want: seq<WantedRoom>)
    requires !seen.started
    ensures Changes(seen, want) == [] <==> Satisfied(seen, want)
  {
    if want != [] {
      var n := |want| - 1;
      NoChangesMeansSatisfied(seen, want[..n]);
      SatisfiedSnoc(seen, want, n);
      assert want[..n + 1] == want;
      NoPlacementsMeansPlaced(seen, want[n].members, want[n].name);
    }
  }

  lemma StartedSatisfied(seen: Seen, want: seq<WantedRoom>)
    requires Satisfied(seen, want)
    ensures Changes(seen.(started := true), want) == []
  {
    var started := seen.(started := true);
    if Changes(started, want) != [] {
      var a := Changes(started, want)[0];
      ChangesContain(started, want, a);
    }
  }

  lemma {:induction false} RepeatedStart(have: BreakoutState, done: seq<Action>)
    requires TakesEffect(have, [NeedStart], done)
    ensures After(have, done) == if done == [] then have else have.(started := true)
    ensures forall a :: a in done ==> a == NeedStart
    decreases |done|
  {
    if done != [] {
      RepeatedStart(Effect(have, done[0]), done[1..]);
      assert done == [done[0]] + done[1..];
    }
  }

  /** The main result. Whatever part of the plan took effect, in whatever order, planning again yields
      exactly the actions that did not, in the same order; the request to start appears once, when the
      session is not running and nothing else is left. */
  lemma Replan(want: seq<WantedRoom>, have: BreakoutState, done: seq<Action>)
    requires OneRoomEach(want)
    requires TakesEffect(have, Plan(See(have), want), done)
    ensures var plan := Plan(See(have), want); var rest := Unapplied(plan, done);
            Plan(See(After(have, done)), want) ==
            rest + if !have.started && want != [] && rest == [] && NeedStart !in plan then [NeedStart] else []
  {
    var seen := See(have);
    var plan := Plan(seen, want);
    var changes := Changes(seen, want);
    if NeedStart in plan {
      ReplanStart(want, have, done);
    } else {
      NoStartInside(seen, want);
      assert plan == changes;
      forall a | a in plan ensures Fits(want, have.started, a) { ChangesContain(seen, want, a); }
      DoneIsPlanned(have, plan, done);
      forall a, b | a in done && b in changes ensures SameTarget(a, b) <==> a == b { OneVerbPerTarget(seen, want, a, b); }
      RunDrops(want, have, plan, done);
      DropAllIsUnapplied(changes, done);
      var after := See(After(have, done));
      if !have.started { NoChangesMeansSatisfied(after, want); }
    }
  }

  lemma NoStartInside(seen: Seen, want: seq<WantedRoom>)
    ensures NeedStart !in Changes(seen, want)
    ensures NeedStart in Plan(seen, want) ==> Plan(seen, want) == [NeedStart] && !seen.started && Changes(seen, want) == []
  {
    ChangesContain(seen, want, NeedStart);
    if !seen.started { NoChangesMeansSatisfied(seen, want); }
  }

  lemma {:induction false} DoneIsPlanned(have: BreakoutState, plan: seq<Action>, done: seq<Action>)
    requires TakesEffect(have, plan, done)
    ensures forall a :: a in done ==> a in plan
    decreases |done|
  {
    if done != [] { DoneIsPlanned(Effect(have, done[0]), plan, done[1..]); }
  }

  lemma StartedPlanEmpty(want: seq<WantedRoom>, seen: Seen)
    requires !seen.started && Changes(seen, want) == []
    ensures Plan(seen.(started := true), want) == []
  {
    NoChangesMeansSatisfied(seen, want);
    StartedSatisfied(seen, want);
  }

  lemma ReplanStart(want: seq<WantedRoom>, have: BreakoutState, done: seq<Action>)
    requires NeedStart in Plan(See(have), want)
    requires TakesEffect(have, Plan(See(have), want), done)
    ensures Plan(See(After(have, done)), want) == Unapplied(Plan(See(have), want), done)
  {
    var seen := See(have);
    NoStartInside(seen, want);
    RepeatedStart(have, done);
    if done == [] {
      NothingApplied([NeedStart]);
    } else {
      assert done[0] == NeedStart;
      AllApplied([NeedStart], done);
      StartedPlanEmpty(want, seen);
      assert See(After(have, done)) == seen.(started := true);
    }
  }

  /** The start is asked for exactly before it, for a layout that wants something, once every room exists and
      everybody is where they are wanted; and then nothing else is. */
  lemma StartIff(seen: Seen, want: seq<WantedRoom>)
    ensures NeedStart in Plan(seen, want) <==>
      && !seen.started && want != []
      && forall w :: w in want ==>
           w.name in seen.live && forall p :: p in w.members ==> p in seen.where && seen.where[p] == w.name
    ensures forall a :: a != NeedStart ==> (a in Plan(seen, want) <==> a in Changes(seen, want))
  {
    hide Changes;
    NoStartInside(seen, want);
  }

  // ----- the whole plan --------------------------------------------------------------------------

  // Every placement finds its room live, or created earlier in the list.
  ghost predicate RoomsComeFirst(live: set<string>, todo: seq<Action>) {
    forall k :: 0 <= k < |todo| && todo[k].Place? ==>
      todo[k].room in live || exists j :: 0 <= j < k && todo[j] == CreateRoom(todo[k].room)
  }

  lemma {:induction false} InOrderTakesEffect(have: BreakoutState, plan: seq<Action>, todo: seq<Action>)
    requires forall a :: a in todo ==> a in plan
    requires RoomsComeFirst(LiveRooms(have.rooms), todo)
    ensures TakesEffect(have, plan, todo)
    decreases |todo|
  {
    if todo != [] {
      var a, rest := todo[0], todo[1..];
      var next := Effect(have, a);
      EffectIsSeen(have, a);
      assert LiveRooms(next.rooms) == See(next).live;
      forall k | 0 <= k < |rest| && rest[k].Place?
        ensures rest[k].room in LiveRooms(next.rooms) || exists j :: 0 <= j < k && rest[j] == CreateRoom(rest[k].room)
      {
        assert todo[k + 1] == rest[k];
        if rest[k].room !in LiveRooms(have.rooms) {
          var j :| 0 <= j < k + 1 && todo[j] == CreateRoom(rest[k].room);
          if j > 0 { assert rest[j - 1] == todo[j]; }
        }
      }
      InOrderTakesEffect(next, plan, rest);
    }
  }

  lemma {:induction false} ChangesOrdered(seen: Seen, want: seq<WantedRoom>)
    ensures RoomsComeFirst(seen.live, Changes(seen, want))
  {
    if want != [] {
      var front, w := want[..|want| - 1], want[|want| - 1];
      ChangesOrdered(seen, front);
      var x, y, z := Changes(seen, front), Creation(seen, w.name), Placements(seen, w.members, w.name);
      var all := x + y + z;
      forall k | 0 <= k < |all| && all[k].Place?
        ensures all[k].room in seen.live || exists j :: 0 <= j < k && all[j] == CreateRoom(all[k].room)
      {
        if k < |x| {
          if x[k].room !in seen.live {
            var j :| 0 <= j < k && x[j] == CreateRoom(x[k].room);
            assert all[j] == x[j];
          }
        } else {
          PlacementsContain(seen, w.members, w.name, all[k]);
          assert all[k] in z;
          if w.name !in seen.live { assert all[|x|] == CreateRoom(w.name); }
        }
      }
    }
  }

  lemma PlanOrdered(seen: Seen, want: seq<WantedRoom>)
    ensures RoomsComeFirst(seen.live, Plan(seen, want))
  {
    ChangesOrdered(seen, want);
    NoStartInside(seen, want);
    if NeedStart !in Plan(seen, want) { assert Plan(seen, want) == Changes(seen, want); }
  }

  /** The whole plan, run in its own order, takes effect; planning again then asks at most for the
      start, and before the start the layout is in place. */
  lemma WholePlanConverges(want: seq<WantedRoom>, have: BreakoutState)
    requires OneRoomEach(want)
    ensures var plan := Plan(See(have), want); var after := After(have, plan);
            && TakesEffect(have, plan, plan)
            && (have.started || NeedStart in plan || want == [] ==> Plan(See(after), want) == [])
            && (!have.started && NeedStart !in plan && want != [] ==> Plan(See(after), want) == [NeedStart])
            && (!have.started ==> Satisfied(See(after), want))
  {
    var seen := See(have);
    var plan := Plan(seen, want);
    PlanOrdered(seen, want);
    NoStartInside(seen, want);
    InOrderTakesEffect(have, plan, plan);
    AllApplied(plan, plan);
    Replan(want, have, plan);
    var after := After(have, plan);
    if !have.started {
      if NeedStart in plan {
        RepeatedStart(have, plan);
        NoChangesMeansSatisfied(seen, want);
      } else {
        NoStartInside(See(after), want);
        if want == [] { assert Satisfied(See(after), want); }
      }
    }
  }

  /** A layout can be satisfied at all exactly when it wants nobody in two rooms: otherwise the
      planner keeps finding that person in the wrong room. */
  lemma SatisfiableIffOneRoomEach(want: seq<WantedRoom>)
    ensures (exists have: BreakoutState :: Satisfied(See(have), want)) <==> OneRoomEach(want)
  {
    if OneRoomEach(want) {
      var empty := BreakoutState(false, "", []);
      WholePlanConverges(want, empty);
      assert Satisfied(See(After(empty, Plan(See(empty), want))), want);
    }
    forall have: BreakoutState | Satisfied(See(have), want) ensures OneRoomEach(want) {
      var seen := See(have);
      forall i, j, p | 0 <= i < |want| && 0 <= j < |want| && p in want[i].members && p in want[j].members
        ensures want[i].name == want[j].name
      {
        assert RoomSatisfied(seen, want[i]) && RoomSatisfied(seen, want[j]);
        assert Placed(seen, p, want[i].name) && Placed(seen, p, want[j].name);
      }
    }
  }

  /** After the start a room that does not exist is never asked for, so nothing about it is planned;
      everyone wanted in an existing room ends up there. */
  lemma StartedPlanPlaces(want: seq<WantedRoom>, have: BreakoutState, person: string, room: string)
    requires OneRoomEach(want) && have.started
    requires WantedIn(want, person, room) && room in LiveRooms(have.rooms)
    ensures Placed(See(After(have, Plan(See(have), want))), person, room)
  {
    var seen := See(have);
    var plan := Plan(seen, want);
    var after := See(After(have, plan));
    WholePlanConverges(want, have);
    forall a | a in plan ensures Fits(want, have.started, a) { ChangesContain(seen, want, a); }
    LiveStays(have, plan, plan);
    RunDrops(want, have, plan, plan);
    ChangesContain(after, want, Place(VerbFor(after, person), person, room));
  }

  lemma {:induction false} LiveStays(have: BreakoutState, plan: seq<Action>, done: seq<Action>)
    requires TakesEffect(have, plan, done)
    ensures LiveRooms(have.rooms) <= LiveRooms(After(have, done).rooms)
    decreases |done|
  {
    if done != [] {
      EffectIsSeen(have, done[0]);
      assert LiveRooms(have.rooms) == See(have).live && LiveRooms(Effect(have, done[0]).rooms) == See(Effect(have, done[0])).live;
      LiveStays(Effect(have, done[0]), plan, done[1..]);
    }
  }
}
