/**
 Breakout room planning: src/zoom/room_plan.cpp and src/zoom/reach.cpp.

 PlanRooms diffs a wanted layout against the live rooms. Every action is confirmed
 asynchronously, so the caller plans again after whatever happened to take effect.
 */
module RoomPlan {

  datatype BreakoutRoom = BreakoutRoom(name: string, users: seq<string>)

  datatype BreakoutState = BreakoutState(started: bool, myRoom: string, rooms: seq<BreakoutRoom>)

  datatype WantedRoom = WantedRoom(name: string, members: seq<string>)

  datatype Verb = AssignUser | AssignRunning | SwitchRunning

  datatype Action =
    | CreateRoom(room: string)
    | Place(verb: Verb, person: string, room: string)
    | NeedStart

  // What the planner looks at: which rooms exist, and the last room that lists each person.
  datatype Seen = Seen(started: bool, live: set<string>, where: map<string, string>)

  // ----- the live world, indexed by name ------------------------------------------------------

  function LiveRooms(rooms: seq<BreakoutRoom>): set<string> {
    set i | 0 <= i < |rooms| :: rooms[i].name
  }

  function PlaceAll(where: map<string, string>, users: seq<string>, room: string): map<string, string> {
    if users == [] then where
    else PlaceAll(where, users[..|users| - 1], room)[users[|users| - 1] := room]
  }

  function PersonRoom(rooms: seq<BreakoutRoom>): map<string, string> {
    if rooms == [] then map[]
    else PlaceAll(PersonRoom(rooms[..|rooms| - 1]), rooms[|rooms| - 1].users, rooms[|rooms| - 1].name)
  }

  function See(have: BreakoutState): Seen {
    Seen(have.started, LiveRooms(have.rooms), PersonRoom(have.rooms))
  }

  // The first room that lists the name; "" is the main floor.
  function RoomOfName(rooms: seq<BreakoutRoom>, name: string): string {
    if rooms == [] then ""
    else if name in rooms[0].users then rooms[0].name
    else RoomOfName(rooms[1..], name)
  }

  // Which room the list puts a name in: the first that lists it, or the main floor.
  ghost predicate FoundIn(rooms: seq<BreakoutRoom>, name: string, room: string) {
    || (room == "" && forall k :: 0 <= k < |rooms| ==> name !in rooms[k].users)
    || exists k :: ListedFirst(rooms, name, k) && rooms[k].name == room
  }

  ghost predicate ListedFirst(rooms: seq<BreakoutRoom>, name: string, k: int) {
    0 <= k < |rooms| && name in rooms[k].users && forall j :: 0 <= j < k ==> name !in rooms[j].users
  }

  lemma {:induction false} RoomOfNameIs(rooms: seq<BreakoutRoom>, name: string, room: string)
    ensures RoomOfName(rooms, name) == room <==> FoundIn(rooms, name, room)
  {
    if rooms != [] && name in rooms[0].users {
      assert ListedFirst(rooms, name, 0);
    } else if rooms != [] {
      RoomOfNameIs(rooms[1..], name, room);
      assert forall k :: ListedFirst(rooms, name, k) ==> ListedFirst(rooms[1..], name, k - 1) && rooms[1..][k - 1] == rooms[k];
      assert forall k :: ListedFirst(rooms[1..], name, k) ==> ListedFirst(rooms, name, k + 1) && rooms[k + 1] == rooms[1..][k];
      assert forall k :: 0 <= k < |rooms| - 1 ==> rooms[1..][k] == rooms[k + 1];
    }
  }

  ghost predicate ListedLast(rooms: seq<BreakoutRoom>, name: string, k: int) {
    0 <= k < |rooms| && name in rooms[k].users && forall j :: k < j < |rooms| ==> name !in rooms[j].users
  }

  lemma {:induction false} PlacedIn(where: map<string, string>, users: seq<string>, room: string, person: string)
    ensures var after := PlaceAll(where, users, room);
            && (person in after <==> person in where || person in users)
            && (person in after ==> after[person] == if person in users then room else where[person])
    decreases |users|
  {
    if users != [] {
      var n := |users| - 1;
      PlacedIn(where, users[..n], room, person);
      assert users == users[..n] + [users[n]];
    }
  }

  ghost predicate ListedIn(rooms: seq<BreakoutRoom>, name: string, k: int) {
    0 <= k < |rooms| && name in rooms[k].users
  }

  /** The planner's index holds everybody listed, and nobody else. */
  lemma {:induction false} IndexedIff(rooms: seq<BreakoutRoom>, person: string)
    ensures person in PersonRoom(rooms) <==> exists k :: ListedIn(rooms, person, k)
    decreases |rooms|
  {
    if rooms != [] {
      hide PlaceAll;
      var n := |rooms| - 1;
      IndexedIff(rooms[..n], person);
      PlacedIn(PersonRoom(rooms[..n]), rooms[n].users, rooms[n].name, person);
      if person in PersonRoom(rooms) {
        if person in rooms[n].users {
          assert ListedIn(rooms, person, n);
        } else {
          var k :| ListedIn(rooms[..n], person, k);
          assert ListedIn(rooms, person, k);
        }
      }
      forall k | ListedIn(rooms, person, k) ensures person in PersonRoom(rooms) {
        if k < n { assert ListedIn(rooms[..n], person, k); }
      }
    }
  }

  /** And it puts them in the last room that lists them. */
  lemma {:induction false} LastListingCounts(rooms: seq<BreakoutRoom>, person: string, k: nat)
    requires ListedLast(rooms, person, k)
    ensures person in PersonRoom(rooms) && PersonRoom(rooms)[person] == rooms[k].name
    decreases |rooms|
  {
    hide PlaceAll;
    var n := |rooms| - 1;
    PlacedIn(PersonRoom(rooms[..n]), rooms[n].users, rooms[n].name, person);
    if k < n { LastListingCounts(rooms[..n], person, k); }
  }

  // ----- the plan ------------------------------------------------------------------------------

  predicate Placed(seen: Seen, person: string, room: string) {
    person in seen.where && seen.where[person] == room
  }

  function VerbFor(seen: Seen, person: string): Verb {
    if !seen.started then AssignUser else if person in seen.where then SwitchRunning else AssignRunning
  }

  // Before the start a person may be assigned to a room that is still being created; after it,
  // only to a room that exists.
  function PlacementOf(seen: Seen, person: string, room: string): seq<Action> {
    if Placed(seen, person, room) || (seen.started && room !in seen.live) then []
    else [Place(VerbFor(seen, person), person, room)]
  }

  function Placements(seen: Seen, members: seq<string>, room: string): seq<Action> {
    if members == [] then []
    else Placements(seen, members[..|members| - 1], room) + PlacementOf(seen, members[|members| - 1], room)
  }

  function Creation(seen: Seen, room: string): seq<Action> {
    if room !in seen.live && !seen.started then [CreateRoom(room)] else []
  }

  // Everything but the final request to start.
  function Changes(seen: Seen, want: seq<WantedRoom>): seq<Action> {
    if want == [] then []
    else
      var w := want[|want| - 1];
      Changes(seen, want[..|want| - 1]) + Creation(seen, w.name) + Placements(seen, w.members, w.name)
  }

  predicate RoomSatisfied(seen: Seen, w: WantedRoom) {
    w.name in seen.live && forall i :: 0 <= i < |w.members| ==> Placed(seen, w.members[i], w.name)
  }

  predicate Satisfied(seen: Seen, want: seq<WantedRoom>) {
    forall i :: 0 <= i < |want| ==> RoomSatisfied(seen, want[i])
  }

  function Plan(seen: Seen, want: seq<WantedRoom>): seq<Action> {
    Changes(seen, want) + if !seen.started && want != [] && Satisfied(seen, want) then [NeedStart] else []
  }

  method IndexRooms(rooms: seq<BreakoutRoom>) returns (live: set<string>, where: map<string, string>)
    ensures live == LiveRooms(rooms) && where == PersonRoom(rooms)
  {
    live, where := {}, map[];
    for i := 0 to |rooms|
      invariant live == LiveRooms(rooms[..i]) && where == PersonRoom(rooms[..i])
    {
      var r := rooms[i];
      assert rooms[..i + 1] == rooms[..i] + [r];
      LiveSnoc(rooms[..i], r);
      live := live + {r.name};
      for j := 0 to |r.users|
        invariant where == PlaceAll(PersonRoom(rooms[..i]), r.users[..j], r.name)
      {
        assert r.users[..j + 1][..j] == r.users[..j];
        where := where[r.users[j] := r.name];
      }
      assert r.users[..|r.users|] == r.users;
      assert rooms[..i + 1][..i] == rooms[..i];
    }
    assert rooms[..|rooms|] == rooms;
  }

  predicate AllPlaced(seen: Seen, members: seq<string>, room: string) {
    forall k :: 0 <= k < |members| ==> Placed(seen, members[k], room)
  }

  lemma MembersSnoc(seen: Seen, members: seq<string>, j: nat, room: string)
    requires j < |members|
    ensures Placements(seen, members[..j + 1], room)
         == Placements(seen, members[..j], room) + PlacementOf(seen, members[j], room)
    ensures AllPlaced(seen, members[..j + 1], room) <==>
              AllPlaced(seen, members[..j], room) && Placed(seen, members[j], room)
  {
    hide PlacementOf, Placed;
    assert members[..j + 1][..j] == members[..j];
    assert members[..j + 1] == members[..j] + [members[j]];
  }

  // The inner loop's body: what one person calls for.
  method PlanPerson(seen: Seen, person: string, room: string) returns (plan: seq<Action>, placed: bool)
    ensures plan == PlacementOf(seen, person, room) && placed == Placed(seen, person, room)
  {
    if person in seen.where && seen.where[person] == room { return [], true; }
    placed := false;
    if !seen.started {
      plan := [Place(AssignUser, person, room)];
    } else if room !in seen.live {
      plan := [];   // unfixable this pass: rooms are only created before the start
    } else if person !in seen.where {
      plan := [Place(AssignRunning, person, room)];
    } else {
      plan := [Place(SwitchRunning, person, room)];
    }
  }

  // The inner loop: one wanted room's people.
  method PlanMembers(seen: Seen, w: WantedRoom) returns (plan: seq<Action>, allPlaced: bool)
    ensures plan == Placements(seen, w.members, w.name)
    ensures allPlaced == AllPlaced(seen, w.members, w.name)
  {
    plan, allPlaced := [], true;
    for j := 0 to |w.members|
      invariant plan == Placements(seen, w.members[..j], w.name)
      invariant allPlaced == AllPlaced(seen, w.members[..j], w.name)
    {
      hide PlacementOf, Placed, AllPlaced, Placements;
      MembersSnoc(seen, w.members, j, w.name);
      var more, placed := PlanPerson(seen, w.members[j], w.name);
      plan := plan + more;
      if !placed { allPlaced := false; }
    }
    assert w.members[..|w.members|] == w.members;
  }

  lemma RoomSatisfiedMeans(seen: Seen, w: WantedRoom)
    ensures RoomSatisfied(seen, w) <==> w.name in seen.live && AllPlaced(seen, w.members, w.name)
  {
    hide Placed;
  }

  lemma ChangesSnoc(seen: Seen, want: seq<WantedRoom>, i: nat)
    requires i < |want|
    ensures Changes(seen, want[..i + 1])
         == Changes(seen, want[..i]) + Creation(seen, want[i].name) + Placements(seen, want[i].members, want[i].name)
  {
    hide Creation, Placements;
    assert want[..i + 1][..i] == want[..i];
  }

  // The outer loop's body: what one wanted room calls for.
  method PlanRoom(seen: Seen, w: WantedRoom) returns (plan: seq<Action>, satisfied: bool)
    ensures plan == Creation(seen, w.name) + Placements(seen, w.members, w.name)
    ensures satisfied == RoomSatisfied(seen, w)
  {
    hide Placements, AllPlaced, RoomSatisfied;
    RoomSatisfiedMeans(seen, w);
    plan, satisfied := [], true;
    if w.name !in seen.live {
      satisfied := false;
      if !seen.started { plan := plan + [CreateRoom(w.name)]; }
    }
    var placements, allPlaced := PlanMembers(seen, w);
    plan := plan + placements;
    if !allPlaced { satisfied := false; }
  }

  method PlanRooms(want: seq<WantedRoom>, have: BreakoutState) returns (plan: seq<Action>)
    ensures plan == Plan(See(have), want)
  {
    plan := [];
    var live, where := IndexRooms(have.rooms);
    var seen := Seen(have.started, live, where);
    var allSatisfied := true;
    for i := 0 to |want|
      invariant plan == Changes(seen, want[..i])
      invariant allSatisfied == Satisfied(seen, want[..i])
    {
      hide Changes, Satisfied, RoomSatisfied, Creation, Placements;
      SatisfiedSnoc(seen, want, i);
      ChangesSnoc(seen, want, i);
      var more, satisfied := PlanRoom(seen, want[i]);
      Associates(plan, Creation(seen, want[i].name), Placements(seen, want[i].members, want[i].name));
      plan := plan + more;
      if !satisfied { allSatisfied := false; }
    }
    assert want[..|want|] == want;
    if !have.started && want != [] && allSatisfied { plan := plan + [NeedStart]; }
  }

  lemma Associates(a: seq<Action>, b: seq<Action>, c: seq<Action>)
    ensures (a + b) + c == a + (b + c)
  {
  }

  lemma LiveSnoc(rooms: seq<BreakoutRoom>, r: BreakoutRoom)
    ensures LiveRooms(rooms + [r]) == LiveRooms(rooms) + {r.name}
  {
    var all := rooms + [r];
    forall n | n in LiveRooms(rooms) + {r.name} ensures n in LiveRooms(all) {
      if n == r.name { assert all[|rooms|].name == n; }
      else {
        var i :| 0 <= i < |rooms| && rooms[i].name == n;
        assert all[i].name == n;
      }
    }
  }

  lemma SatisfiedSnoc(seen: Seen, want: seq<WantedRoom>, i: nat)
    requires i < |want|
    ensures Satisfied(seen, want[..i + 1]) <==> Satisfied(seen, want[..i]) && RoomSatisfied(seen, want[i])
  {
    assert want[..i + 1] == want[..i] + [want[i]];
  }
}
