/**
 The bank of talkback channels: src/zoom/talkback_channels.cpp.

 A 32-bit slot mask is the set of its one bits. Calls into the SDK are answered by the
 environment: the answer is a parameter, and what was asked is an out-parameter.
 */
module TalkbackChannels {
  import opened Options

  datatype Event = Ok | NoPermission | AlreadyExists | CountOverflow | NotExist | Rejected | Timeout | Unknown

  datatype ChannelState = ChannelState(id: string, ready: bool, listeners: nat, members: set<nat>)

  datatype MemberCall = MemberCall(id: string, userIds: seq<nat>)

  datatype Send = Send(slot: nat, id: string)

  const MAX_CHANNELS := 16
  const MAX_MEMBERS := 10
  const EMPTY := ChannelState("", false, 0, {})

  // ----- what the callbacks do to the channel list ------------------------------------------

  function FirstEmpty(channels: seq<ChannelState>): (k: nat)
    ensures k <= |channels|
    ensures forall i :: 0 <= i < k ==> channels[i].id != ""
    ensures k < |channels| ==> channels[k].id == ""
  {
    if channels == [] || channels[0].id == "" then 0 else 1 + FirstEmpty(channels[1..])
  }

  // Slots are given out by arrival: the first slot without an id takes the new one.
  function Created(channels: seq<ChannelState>, id: string): seq<ChannelState> {
    var k := FirstEmpty(channels);
    if k < |channels| then channels[k := channels[k].(id := id, ready := true)] else channels
  }

  function SlotForId(channels: seq<ChannelState>, id: string): (k: nat)
    ensures k <= |channels|
    ensures forall i :: 0 <= i < k ==> channels[i].id != id
    ensures k < |channels| ==> channels[k].id == id
  {
    if channels == [] || channels[0].id == id then 0 else 1 + SlotForId(channels[1..], id)
  }

  function WithMembers(c: ChannelState, members: set<nat>): ChannelState {
    c.(members := members, listeners := |members|)
  }

  function Joined(channels: seq<ChannelState>, id: string, user: nat, event: Event): seq<ChannelState> {
    var k := SlotForId(channels, id);
    if k < |channels| && (event.Ok? || event.AlreadyExists?)
    then channels[k := WithMembers(channels[k], channels[k].members + {user})] else channels
  }

  function Left(channels: seq<ChannelState>, id: string, user: nat, event: Event): seq<ChannelState> {
    var k := SlotForId(channels, id);
    if k < |channels| && event.Ok?
    then channels[k := WithMembers(channels[k], channels[k].members - {user})] else channels
  }

  function ReadySlots(channels: seq<ChannelState>): set<nat> {
    set i: nat | i < |channels| && i < MAX_CHANNELS && channels[i].ready
  }

  // What other threads do between a load and the exchange: a store of theirs, or nothing; and the weak
  // exchange may fail although nothing changed.
  datatype Interference = Interference(store: Option<set<nat>>, spurious: bool)

  const QUIET := Interference(None, false)

  function StoredBy(mask: set<nat>, other: Interference): set<nat> {
    if other.store.Some? then other.store.value else mask
  }

  function LastStored(mask: set<nat>, others: seq<Interference>): set<nat> {
    if others == [] then mask else StoredBy(LastStored(mask, others[..|others| - 1]), others[|others| - 1])
  }

  // Resizing keeps what is there.
  function Resized(channels: seq<ChannelState>, count: nat): (r: seq<ChannelState>)
    ensures |r| == count
  {
    if count <= |channels| then channels[..count] else channels + seq(count - |channels|, _ => EMPTY)
  }

  function Keyed(mask: set<nat>, slot: nat, down: bool): set<nat> {
    if down then mask + {slot} else mask - {slot}
  }

  // ----- what the channel list always looks like --------------------------------------------

  // The first k slots, and no others, have an id and are ready; no two share an id; and every
  // listener count is the size of its member set.
  ghost predicate Prefix(channels: seq<ChannelState>, k: nat) {
    && k <= |channels|
    && (forall i :: 0 <= i < |channels| ==> (channels[i].ready <==> i < k))
    && (forall i :: 0 <= i < |channels| ==> (channels[i].id != "" <==> i < k))
    && (forall i, j :: 0 <= i < j < k ==> channels[i].id != channels[j].id)
    && (forall i :: 0 <= i < |channels| ==> channels[i].listeners == |channels[i].members|)
  }

  ghost predicate WellAssigned(channels: seq<ChannelState>) {
    Prefix(channels, FirstEmpty(channels))
  }

  lemma PrefixIsFirstEmpty(channels: seq<ChannelState>, k: nat)
    requires Prefix(channels, k)
    ensures FirstEmpty(channels) == k && WellAssigned(channels)
  {
    var e := FirstEmpty(channels);
    if e < |channels| { assert channels[e].id == ""; }
    if k < |channels| { assert channels[k].id == ""; }
  }

  lemma PrefixGrows(channels: seq<ChannelState>, k: nat, id: string)
    requires Prefix(channels, k) && k < |channels|
    requires id != "" && forall i :: 0 <= i < |channels| ==> channels[i].id != id
    ensures Prefix(channels[k := channels[k].(id := id, ready := true)], k + 1)
  {
  }

  /** A creation response fills exactly the next slot; with fresh non-empty ids the prefix stays well formed. */
  lemma CreatedKeeps(channels: seq<ChannelState>, id: string)
    requires WellAssigned(channels)
    requires id != "" && forall i :: 0 <= i < |channels| ==> channels[i].id != id
    ensures WellAssigned(Created(channels, id))
    ensures var k := FirstEmpty(channels); FirstEmpty(Created(channels, id)) == if k < |channels| then k + 1 else k
    ensures ReadySlots(channels) <= ReadySlots(Created(channels, id))
  {
    var k := FirstEmpty(channels);
    if k < |channels| {
      PrefixGrows(channels, k, id);
      PrefixIsFirstEmpty(Created(channels, id), k + 1);
    }
  }

  lemma SameIdsKeep(channels: seq<ChannelState>, k: nat, members: set<nat>)
    requires WellAssigned(channels) && k < |channels|
    ensures var next := channels[k := WithMembers(channels[k], members)];
            WellAssigned(next) && FirstEmpty(next) == FirstEmpty(channels) && ReadySlots(next) == ReadySlots(channels)
  {
    var next := channels[k := WithMembers(channels[k], members)];
    var e := FirstEmpty(channels);
    assert Prefix(next, e);
    PrefixIsFirstEmpty(next, e);
  }

  lemma JoinedKeeps(channels: seq<ChannelState>, id: string, user: nat, event: Event)
    requires WellAssigned(channels)
    ensures WellAssigned(Joined(channels, id, user, event))
    ensures ReadySlots(Joined(channels, id, user, event)) == ReadySlots(channels)
    ensures FirstEmpty(Joined(channels, id, user, event)) == FirstEmpty(channels)
  {
    var k := SlotForId(channels, id);
    if k < |channels| { SameIdsKeep(channels, k, channels[k].members + {user}); }
  }

  lemma LeftKeeps(channels: seq<ChannelState>, id: string, user: nat, event: Event)
    requires WellAssigned(channels)
    ensures WellAssigned(Left(channels, id, user, event))
    ensures ReadySlots(Left(channels, id, user, event)) == ReadySlots(channels)
    ensures FirstEmpty(Left(channels, id, user, event)) == FirstEmpty(channels)
  {
    var k := SlotForId(channels, id);
    if k < |channels| { SameIdsKeep(channels, k, channels[k].members - {user}); }
  }

  lemma SlotOfAssigned(channels: seq<ChannelState>, slot: nat)
    requires WellAssigned(channels) && slot < FirstEmpty(channels)
    ensures SlotForId(channels, channels[slot].id) == slot
  {
    var k := SlotForId(channels, channels[slot].id);
    assert k <= slot;
  }

  /** A confirmed join, or a report that the person is already there, makes them a member of the
      channel with that id and of no other; a confirmed leave undoes it. */
  lemma JoinThenLeave(channels: seq<ChannelState>, slot: nat, user: nat, event: Event)
    requires WellAssigned(channels) && slot < FirstEmpty(channels)
    requires user !in channels[slot].members
    requires event.Ok? || event.AlreadyExists?
    ensures var id := channels[slot].id; var joined := Joined(channels, id, user, event);
            && |joined| == |channels|
            && joined[slot].members == channels[slot].members + {user}
            && (forall i :: 0 <= i < |channels| && i != slot ==> joined[i] == channels[i])
            && Left(joined, id, user, Ok) == channels
  {
    var c := channels[slot];
    var joined := Joined(channels, c.id, user, event);
    SlotOfAssigned(channels, slot);
    JoinedKeeps(channels, c.id, user, event);
    SlotOfAssigned(joined, slot);
    assert c.members + {user} - {user} == c.members;
    assert WithMembers(joined[slot], c.members) == c;
    assert joined[slot := c] == channels;
  }

  // The channel an answer is about: the first with that id.
  ghost predicate Meant(channels: seq<ChannelState>, id: string, i: nat)
    requires i < |channels|
  {
    channels[i].id == id && forall j :: 0 <= j < i ==> channels[j].id != id
  }

  lemma MeantIsSlot(channels: seq<ChannelState>, id: string, i: nat)
    requires i < |channels|
    ensures Meant(channels, id, i) <==> SlotForId(channels, id) == i
  {
  }

  // Only member sets change, each with its count.
  ghost predicate SameButMembers(before: seq<ChannelState>, after: seq<ChannelState>) {
    && |after| == |before|
    && forall i :: 0 <= i < |before| ==>
         after[i].id == before[i].id && after[i].ready == before[i].ready && after[i].listeners == |after[i].members|
  }

  // Nothing changes but the members of the slot that is meant.
  lemma OthersStay(channels: seq<ChannelState>, id: string, user: nat, event: Event)
    requires WellAssigned(channels)
    ensures SameButMembers(channels, Joined(channels, id, user, event))
    ensures SameButMembers(channels, Left(channels, id, user, event))
    ensures forall i :: 0 <= i < |channels| && i != SlotForId(channels, id) ==>
      Joined(channels, id, user, event)[i] == channels[i] && Left(channels, id, user, event)[i] == channels[i]
  {
    hide FirstEmpty, SlotForId;
  }

  lemma JoinOrLeave(channels: seq<ChannelState>, id: string, user: nat, event: Event)
    requires SlotForId(channels, id) < |channels|
    ensures var k := SlotForId(channels, id);
            && |Joined(channels, id, user, event)| == |channels| == |Left(channels, id, user, event)|
            && Joined(channels, id, user, event)[k].members
               == channels[k].members + (if event == Ok || event == AlreadyExists then {user} else {})
            && Left(channels, id, user, event)[k].members == channels[k].members - if event == Ok then {user} else {}
  {
    hide SlotForId;
  }

  /** Exactly who is a member after Zoom's answers: a join adds that one person to the channel meant if Zoom
      took it or had it already, a leave takes that one person out if Zoom took it, and every refusal and
      every answer about an unknown channel leaves all as it was. */
  lemma MembersAfter(channels: seq<ChannelState>, id: string, user: nat, event: Event, i: nat, u: nat)
    requires WellAssigned(channels) && i < |channels|
    ensures SameButMembers(channels, Joined(channels, id, user, event))
    ensures SameButMembers(channels, Left(channels, id, user, event))
    ensures u in Joined(channels, id, user, event)[i].members
        <==> || u in channels[i].members
             || (u == user && Meant(channels, id, i) && (event == Ok || event == AlreadyExists))
    ensures u in Left(channels, id, user, event)[i].members
        <==> u in channels[i].members && !(u == user && Meant(channels, id, i) && event == Ok)
  {
    hide Joined, Left, Meant, SlotForId;
    MeantIsSlot(channels, id, i);
    OthersStay(channels, id, user, event);
    if SlotForId(channels, id) < |channels| {
      JoinOrLeave(channels, id, user, event);
    }
  }

  // ----- invitations in flight ------------------------------------------------------------------

  function IdsOf(users: seq<nat>): set<nat> {
    set u | u in users
  }

  lemma IdsSnoc(users: seq<nat>, u: nat)
    ensures IdsOf(users + [u]) == IdsOf(users) + {u}
  {
  }

  lemma NobodyAdds(members: set<nat>)
    ensures members + IdsOf([]) == members
  {
  }

  // Zoom confirms these people, one after another.
  function ConfirmAll(channels: seq<ChannelState>, id: string, users: seq<nat>): (after: seq<ChannelState>)
    ensures |after| == |channels|
  {
    if users == [] then channels
    else Joined(ConfirmAll(channels, id, users[..|users| - 1]), id, users[|users| - 1], Ok)
  }

  lemma JoinAdds(channels: seq<ChannelState>, slot: nat, user: nat)
    requires WellAssigned(channels) && slot < FirstEmpty(channels)
    ensures var after := Joined(channels, channels[slot].id, user, Ok);
            && |after| == |channels| && WellAssigned(after) && FirstEmpty(after) == FirstEmpty(channels)
            && after[slot].id == channels[slot].id && after[slot].members == channels[slot].members + {user}
  {
    SlotOfAssigned(channels, slot);
    JoinedKeeps(channels, channels[slot].id, user, Ok);
  }

  lemma {:induction false} ConfirmedMembers(channels: seq<ChannelState>, slot: nat, users: seq<nat>)
    requires WellAssigned(channels) && slot < FirstEmpty(channels)
    ensures var after := ConfirmAll(channels, channels[slot].id, users);
            && WellAssigned(after) && FirstEmpty(after) == FirstEmpty(channels)
            && after[slot].id == channels[slot].id
            && after[slot].members == channels[slot].members + IdsOf(users)
    decreases |users|
  {
    hide WellAssigned, FirstEmpty, IdsOf, Joined;
    if users != [] {
      var n := |users| - 1;
      ConfirmedMembers(channels, slot, users[..n]);
      JoinAdds(ConfirmAll(channels, channels[slot].id, users[..n]), slot, users[n]);
      assert users == users[..n] + [users[n]];
      IdsSnoc(users[..n], users[n]);
    } else {
      NobodyAdds(channels[slot].members);
    }
  }

  // Whatever part of what is in flight Zoom confirms, in whatever order, nobody is one too many.
  ghost predicate LimitKept(channels: seq<ChannelState>, slot: nat, inFlight: set<nat>)
    requires slot < |channels|
  {
    forall users: seq<nat> :: IdsOf(users) <= inFlight ==>
      |ConfirmAll(channels, channels[slot].id, users)[slot].members| <= MAX_MEMBERS
  }

  lemma Listing(ids: set<nat>) returns (users: seq<nat>)
    ensures IdsOf(users) == ids
  {
    users := [];
    if ids != {} {
      var u :| u in ids;
      var rest := Listing(ids - {u});
      users := rest + [u];
      IdsSnoc(rest, u);
    }
  }

  lemma SubsetSize(a: set<nat>, b: set<nat>)
    requires a <= b
    ensures |a| <= |b|
  {
    if a != {} {
      var u :| u in a;
      SubsetSize(a - {u}, b - {u});
    }
  }

  /**
   The limit of ten is checked against confirmed members only, one list at a time. With these people
   invited and not yet confirmed it will be kept if and only if members and invited together are ten at most.
   */
  lemma LimitKeptIff(channels: seq<ChannelState>, slot: nat, inFlight: set<nat>)
    requires WellAssigned(channels) && slot < FirstEmpty(channels)
    ensures LimitKept(channels, slot, inFlight) <==> |channels[slot].members + inFlight| <= MAX_MEMBERS
  {
    hide WellAssigned, FirstEmpty, ConfirmAll, IdsOf;
    var members := channels[slot].members;
    if |members + inFlight| <= MAX_MEMBERS {
      forall users: seq<nat> | IdsOf(users) <= inFlight
        ensures |ConfirmAll(channels, channels[slot].id, users)[slot].members| <= MAX_MEMBERS
      {
        ConfirmedMembers(channels, slot, users);
        SubsetSize(members + IdsOf(users), members + inFlight);
      }
    }
    var all := Listing(inFlight);
    ConfirmedMembers(channels, slot, all);
  }

  /** Lists sent before any answer: the bank turns each down or lets it pass by itself, and the limit is
      safe exactly when members and everybody sent fit together. */
  method InviteLists(bank: Bank, slot: nat, lists: seq<seq<nat>>, accepted: seq<bool>) returns (sent: set<nat>)
    requires bank.Valid() && slot < FirstEmpty(bank.channels) && |accepted| == |lists|
    ensures sent == SentOf(bank.channels[slot].members, lists, accepted)
    ensures forall u :: u in sent <==> exists i :: Brings(bank.channels[slot].members, lists, accepted, i, u)
    ensures LimitKept(bank.channels, slot, sent) <==> |bank.channels[slot].members + sent| <= MAX_MEMBERS
  {
    sent := {};
    for i := 0 to |lists|
      invariant sent == SentOf(bank.channels[slot].members, lists[..i], accepted[..i])
    {
      hide SentOf, WellAssigned, FirstEmpty, IdsOf;
      SentSnoc(bank.channels[slot].members, lists, accepted, i);
      var ids := InviteList(bank, slot, lists[i], accepted[i]);
      sent := sent + ids;
    }
    assert lists[..|lists|] == lists && accepted[..|accepted|] == accepted;
    forall u ensures u in sent <==> exists i :: Brings(bank.channels[slot].members, lists, accepted, i, u) {
      SentIff(bank.channels[slot].members, lists, accepted, u);
    }
    LimitKeptIff(bank.channels, slot, sent);
  }

  method InviteList(bank: Bank, slot: nat, list: seq<nat>, accepted: bool) returns (ids: set<nat>)
    requires bank.Valid() && slot < FirstEmpty(bank.channels)
    ensures ids == Passed(bank.channels[slot].members, list, accepted)
  {
    hide WellAssigned, FirstEmpty;
    ReadyBelowFirstEmpty(bank.channels, slot);
    var ok, asked := bank.InviteMany(slot, list, accepted);
    ids := if asked.Some? && ok then IdsOf(asked.value.userIds) else {};
  }

  // Whom one list adds to those in flight: all of it if it passed the check and Zoom took it, else nobody.
  function Passed(members: set<nat>, list: seq<nat>, accepted: bool): set<nat> {
    if accepted && |members| + |list| <= MAX_MEMBERS then IdsOf(list) else {}
  }

  lemma SentSnoc(members: set<nat>, lists: seq<seq<nat>>, accepted: seq<bool>, i: nat)
    requires |accepted| == |lists| && i < |lists|
    ensures SentOf(members, lists[..i + 1], accepted[..i + 1])
         == SentOf(members, lists[..i], accepted[..i]) + Passed(members, lists[i], accepted[i])
  {
    hide Passed;
    assert lists[..i + 1][..i] == lists[..i] && accepted[..i + 1][..i] == accepted[..i];
  }

  // The i-th list was small enough beside the confirmed members, Zoom took it, and the person is on it.
  ghost predicate Brings(members: set<nat>, lists: seq<seq<nat>>, accepted: seq<bool>, i: int, u: nat)
    requires |accepted| == |lists|
  {
    0 <= i < |lists| && accepted[i] && |members| + |lists[i]| <= 10 && u in lists[i]
  }

  lemma {:induction false} SentIff(members: set<nat>, lists: seq<seq<nat>>, accepted: seq<bool>, u: nat)
    requires |accepted| == |lists|
    ensures u in SentOf(members, lists, accepted) <==> exists i :: Brings(members, lists, accepted, i, u)
    decreases |lists|
  {
    if lists != [] {
      var n := |lists| - 1;
      SentIff(members, lists[..n], accepted[..n], u);
      assert forall i :: Brings(members, lists[..n], accepted[..n], i, u) <==>
                         Brings(members, lists, accepted, i, u) && i < n;
      assert u in Passed(members, lists[n], accepted[n]) <==> Brings(members, lists, accepted, n, u);
    }
  }

  // Everybody in flight after these lists.
  function SentOf(members: set<nat>, lists: seq<seq<nat>>, accepted: seq<bool>): set<nat>
    requires |accepted| == |lists|
  {
    if lists == [] then {}
    else
      var n := |lists| - 1;
      SentOf(members, lists[..n], accepted[..n]) + Passed(members, lists[n], accepted[n])
  }

  /** With nine members, two single invitations both pass, and can leave eleven. */
  method InvitesInFlightOverfill(bank: Bank, slot: nat, one: nat, other: nat)
    returns (first: Option<MemberCall>, second: Option<MemberCall>)
    requires bank.Valid() && slot < FirstEmpty(bank.channels)
    requires |bank.channels[slot].members| == MAX_MEMBERS - 1 && one != other
    requires one !in bank.channels[slot].members && other !in bank.channels[slot].members
    ensures first == Some(MemberCall(bank.channels[slot].id, [one]))
    ensures second == Some(MemberCall(bank.channels[slot].id, [other]))
    ensures !LimitKept(bank.channels, slot, {one, other})
  {
    hide WellAssigned, LimitKept;
    var ok;
    ok, first := bank.InviteMany(slot, [one], true);
    ok, second := bank.InviteMany(slot, [other], true);
    ghost var members := bank.channels[slot].members;
    assert members + {one, other} == members + {one} + {other};
    LimitKeptIff(bank.channels, slot, {one, other});
    ReadyBelowFirstEmpty(bank.channels, slot);
  }

  lemma ReadyBelowFirstEmpty(channels: seq<ChannelState>, slot: nat)
    requires WellAssigned(channels) && slot < FirstEmpty(channels)
    ensures channels[slot].ready
  {
  }

  // ----- the class ---------------------------------------------------------------------------

  class Bank {
    var want: nat
    var channels: seq<ChannelState>
    var lastError: Option<Event>
    var sendIds: array<string>
    var readyMask: set<nat>
    var keyMask: set<nat>
    var sentMask: set<nat>
    var sendFailures: nat
    var channelSends: nat

    // What every entry point leaves behind, given fresh ids and one CreateChannels call.
    ghost predicate Valid()
      reads this, sendIds
    {
      && sendIds.Length == MAX_CHANNELS
      && |channels| <= MAX_CHANNELS
      && WellAssigned(channels)
      && readyMask == ReadySlots(channels)
      && (forall s :: s in readyMask ==> sendIds[s] == channels[s].id)
    }

    constructor ()
      ensures Valid() && fresh(sendIds) && channels == [] && keyMask == {} && sentMask == {}
      ensures sendFailures == 0 && channelSends == 0
    {
      want, channels, lastError := 0, [], None;
      sendIds := new string[MAX_CHANNELS](_ => "");
      readyMask, keyMask, sentMask := {}, {}, {};
      sendFailures, channelSends := 0, 0;
    }

    /** Asks for all channels in one SDK call; may be repeated while no channel has an id. No slot is ready
        before Zoom answers. */
    method CreateChannels(count: int, accepted: bool) returns (ok: bool, asked: Option<nat>)
      requires Valid() && FirstEmpty(channels) == 0
      modifies this`want, this`channels
      ensures Valid() && FirstEmpty(channels) == 0
      ensures asked == if 1 <= count <= MAX_CHANNELS then Some(count as nat) else None
      ensures ok <==> asked.Some? && accepted
      ensures if asked.None? then unchanged(this)
              else want == count && channels == Resized(old(channels), count)
    {
      if count < 1 || count > MAX_CHANNELS { return false, None; }
      want := count;
      channels := Resized(channels, count);
      PrefixIsFirstEmpty(channels, 0);
      return accepted, Some(count);
    }

    /** -1 when no channel has the id. */
    method SlotOf(id: string) returns (slot: int)
      ensures slot == if SlotForId(channels, id) < |channels| then SlotForId(channels, id) else -1
    {
      for i := 0 to |channels|
        invariant forall j :: 0 <= j < i ==> channels[j].id != id
      {
        if channels[i].id == id { return i; }
      }
      return -1;
    }

    /** As many channels are ready as ids have been handed out. */
    method ChannelsReady() returns (n: nat)
      requires Valid()
      ensures n == FirstEmpty(channels)
    {
      n := 0;
      for i := 0 to |channels|
        invariant n == if i <= FirstEmpty(channels) then i else FirstEmpty(channels)
      {
        if channels[i].ready { n := n + 1; }
      }
    }

    /** Rebuilds the audio thread's snapshot of ids, then publishes the ready mask. */
    method RefreshSendIds()
      requires sendIds.Length == MAX_CHANNELS
      modifies this`readyMask, sendIds
      ensures readyMask == ReadySlots(channels)
      ensures forall i :: 0 <= i < |channels| && i < MAX_CHANNELS ==> sendIds[i] == channels[i].id
      ensures forall i :: |channels| <= i < MAX_CHANNELS ==> sendIds[i] == old(sendIds[i])
    {
      var mask: set<nat> := {};
      var i := 0;
      while i < |channels| && i < MAX_CHANNELS
        invariant 0 <= i <= |channels| && i <= MAX_CHANNELS
        invariant mask == set j: nat | j < i && channels[j].ready
        invariant forall j :: 0 <= j < i ==> sendIds[j] == channels[j].id
        invariant forall j :: i <= j < MAX_CHANNELS ==> sendIds[j] == old(sendIds[j])
      {
        sendIds[i] := channels[i].id;
        if channels[i].ready { mask := mask + {i}; }
        i := i + 1;
      }
      readyMask := mask;
    }

    /** The whole list in one exchange, or nothing: a slot that is not ready and a list that would
        pass ten confirmed members are refused without asking Zoom. */
    method InviteMany(slot: int, userIds: seq<nat>, accepted: bool) returns (ok: bool, asked: Option<MemberCall>)
      ensures userIds == [] ==> ok && asked.None?
      ensures userIds != [] ==>
        (asked.Some? <==> 0 <= slot < |channels| && channels[slot].ready && |channels[slot].members| + |userIds| <= MAX_MEMBERS)
      ensures asked.Some? ==> 0 <= slot < |channels| && asked.value == MemberCall(channels[slot].id, userIds)
      ensures userIds != [] ==> (ok <==> asked.Some? && accepted)
    {
      if userIds == [] { return true, None; }
      if slot < 0 || slot >= |channels| || !channels[slot].ready { return false, None; }
      if |channels[slot].members| + |userIds| > MAX_MEMBERS { return false, None; }
      return accepted, Some(MemberCall(channels[slot].id, userIds));
    }

    /** Removal asks Zoom for any existing slot, ready or not. */
    method Remove(slot: int, userId: nat, accepted: bool) returns (ok: bool, asked: Option<MemberCall>)
      ensures asked.Some? <==> 0 <= slot < |channels|
      ensures asked.Some? ==> 0 <= slot < |channels| && asked.value == MemberCall(channels[slot].id, [userId])
      ensures ok <==> asked.Some? && accepted
    {
      if slot < 0 || slot >= |channels| { return false, None; }
      return accepted, Some(MemberCall(channels[slot].id, [userId]));
    }

    // One attempt at the exchange. The interference comes just before it.
    method CompareExchange(expected: set<nat>, next: set<nat>, other: Interference) returns (done: bool, seen: set<nat>)
      modifies this`keyMask
      ensures seen == StoredBy(old(keyMask), other)
      ensures seen == if other.store.Some? then other.store.value else old(keyMask)
      ensures done <==> seen == expected && !other.spurious
      ensures keyMask == if done then next else seen
    {
      if other.store.Some? { keyMask := other.store.value; }
      seen := keyMask;
      done := seen == expected && !other.spurious;
      if done { keyMask := next; }
    }

    /** The compare-exchange loop. However often other threads store in between, and however often the
        exchange fails for no reason, the update lands on the mask that is there at the moment it
        succeeds, and nothing stored by others is lost. `tries` says how much of the interference came first. */
    method SetKey(slot: int, down: bool, others: seq<Interference>) returns (tries: nat)
      modifies this`keyMask
      ensures tries <= |others|
      ensures !(0 <= slot < MAX_CHANNELS) ==> keyMask == old(keyMask)
      ensures 0 <= slot < MAX_CHANNELS ==> keyMask == Keyed(LastStored(old(keyMask), others[..tries]), slot, down)
    {
      tries := 0;
      if slot < 0 || slot >= MAX_CHANNELS { return; }
      var mask, done := keyMask, false;
      while !done
        invariant tries <= |others|
        invariant !done ==> mask == keyMask == LastStored(old(keyMask), others[..tries])
        invariant done ==> keyMask == Keyed(LastStored(old(keyMask), others[..tries]), slot, down)
        decreases |others| - tries, if done then 0 else 1
      {
        var next := if down then mask + {slot} else mask - {slot};
        var other := if tries < |others| then others[tries] else QUIET;
        var seen;
        done, seen := CompareExchange(mask, next, other);
        if !done { mask := seen; }
        if tries < |others| {
          assert others[..tries + 1][..tries] == others[..tries];
          tries := tries + 1;
        }
      }
    }

    /** Every main-loop pass: what is latched, held or all-called is keyed on the bank's slots;
        keys of other slots are left alone. */
    method ApplyKeys(channelCount: nat, latched: set<nat>, held: set<nat>, allCall: bool)
      requires channelCount <= MAX_CHANNELS
      modifies this`keyMask
      ensures forall s: nat :: s < channelCount ==> (s in keyMask <==> s in latched || s in held || allCall)
      ensures forall s :: s >= channelCount ==> (s in keyMask <==> s in old(keyMask))
    {
      var keys := set s: nat | s < channelCount && (s in latched || s in held || allCall);
      for s := 0 to channelCount
        invariant forall t: nat :: t < s ==> (t in keyMask <==> t in keys)
        invariant forall t :: t >= s ==> (t in keyMask <==> t in old(keyMask))
      {
        var _ := SetKey(s, s in keys, []);
      }
    }

    /** One frame to one slot: refused, without a call, unless the slot's ready bit is set. */
    method SendToSlot(slot: int, accepted: bool) returns (ok: bool, asked: Option<Send>)
      requires sendIds.Length == MAX_CHANNELS
      modifies this`sendFailures, this`channelSends, this`sentMask
      ensures asked == if 0 <= slot < MAX_CHANNELS && slot in readyMask then Some(Send(slot, sendIds[slot])) else None
      ensures ok <==> asked.Some? && accepted
      ensures channelSends + sendFailures == old(channelSends + sendFailures) + if asked.Some? then 1 else 0
      ensures channelSends == old(channelSends) + if ok then 1 else 0
      ensures sentMask == old(sentMask) + if ok then {slot} else {}
    {
      if slot < 0 || slot >= MAX_CHANNELS { return false, None; }
      if slot !in readyMask { return false, None; }
      asked := Some(Send(slot, sendIds[slot]));
      if !accepted {
        sendFailures := sendFailures + 1;
        return false, asked;
      }
      channelSends := channelSends + 1;
      sentMask := sentMask + {slot as nat};
      return true, asked;
    }

    /** One frame to every slot that is keyed and ready, in slot order, one SDK call each;
        `accepted` are Zoom's answers by slot. */
    method SendToKeyed(accepted: set<nat>) returns (sent: nat, calls: seq<Send>)
      requires sendIds.Length == MAX_CHANNELS
      modifies this`sendFailures, this`channelSends, this`sentMask
      ensures calls == CallsBelow(keyMask * readyMask, sendIds[..], MAX_CHANNELS)
      ensures channelSends == old(channelSends) + sent && sendFailures == old(sendFailures) + (|calls| - sent)
      ensures sentMask == old(sentMask) + (set s | s in keyMask * readyMask * accepted && s < MAX_CHANNELS)
    {
      var live := keyMask * readyMask;
      sent, calls := 0, [];
      if live == {} {
        NoCalls(sendIds[..], MAX_CHANNELS);
        return;
      }
      for i := 0 to MAX_CHANNELS
        invariant calls == CallsBelow(live, sendIds[..], i)
        invariant sent <= |calls|
        invariant channelSends == old(channelSends) + sent && sendFailures == old(sendFailures) + (|calls| - sent)
        invariant sentMask == old(sentMask) + (set s | s in live * accepted && s < i)
      {
        if i !in live { continue; }
        calls := calls + [Send(i, sendIds[i])];
        if i in accepted {
          sent := sent + 1;
          channelSends := channelSends + 1;
          sentMask := sentMask + {i as nat};
        } else {
          sendFailures := sendFailures + 1;
        }
      }
    }

    method OnCreateChannelResponse(id: string, event: Event)
      requires Valid()
      requires event.Ok? ==> id != "" && forall i :: 0 <= i < |channels| ==> channels[i].id != id
      modifies this`channels, this`lastError, this`readyMask, sendIds
      ensures Valid()
      ensures channels == if event.Ok? then Created(old(channels), id) else old(channels)
      ensures lastError == if event.Ok? then old(lastError) else Some(event)
    {
      if !event.Ok? {
        lastError := Some(event);
        return;
      }
      CreatedKeeps(channels, id);
      var i := 0;
      while i < |channels|
        invariant 0 <= i <= FirstEmpty(old(channels))
        invariant channels == old(channels)
      {
        if channels[i].id == "" {
          channels := channels[i := channels[i].(id := id, ready := true)];
          break;
        }
        i := i + 1;
      }
      assert channels == Created(old(channels), id);
      RefreshSendIds();
    }

    method OnChannelUserJoinResponse(id: string, user: nat, event: Event)
      requires Valid()
      modifies this`channels, this`lastError
      ensures Valid()
      ensures channels == Joined(old(channels), id, user, event)
      ensures lastError == if SlotForId(old(channels), id) < |old(channels)| && event != Ok && event != AlreadyExists
                           then Some(event) else old(lastError)
    {
      JoinedKeeps(channels, id, user, event);
      var slot := SlotOf(id);
      if slot < 0 { return; }
      var c := channels[slot];
      if event.Ok? || event.AlreadyExists? {
        var members := c.members + {user};
        channels := channels[slot := c.(members := members, listeners := |members|)];
      } else {
        lastError := Some(event);
      }
    }

    method OnChannelUserLeaveResponse(id: string, user: nat, event: Event)
      requires Valid()
      modifies this`channels
      ensures Valid()
      ensures channels == Left(old(channels), id, user, event)
    {
      LeftKeeps(channels, id, user, event);
      var slot := SlotOf(id);
      if slot < 0 { return; }
      if event.Ok? {
        var c := channels[slot];
        var members := c.members - {user};
        channels := channels[slot := c.(members := members, listeners := |members|)];
      }
    }
  }

  // ----- the calls of one fan-out -------------------------------------------------------------

  function CallsBelow(live: set<nat>, ids: seq<string>, n: nat): seq<Send>
    requires n <= |ids|
  {
    if n == 0 then []
    else CallsBelow(live, ids, n - 1) + if n - 1 in live then [Send(n - 1, ids[n - 1])] else []
  }

  lemma {:induction false} NoCalls(ids: seq<string>, n: nat)
    requires n <= |ids|
    ensures CallsBelow({}, ids, n) == []
  {
    if n > 0 { NoCalls(ids, n - 1); }
  }

  // Only live slots below n, in increasing order, each under the snapshot's id.
  ghost predicate InOrder(c: seq<Send>, live: set<nat>, ids: seq<string>, n: nat)
    requires n <= |ids|
  {
    && (forall k :: 0 <= k < |c| ==> c[k].slot in live && c[k].slot < n)
    && (forall k :: 0 <= k < |c| && c[k].slot < n ==> c[k].id == ids[c[k].slot])
    && (forall k, l :: 0 <= k < l < |c| ==> c[k].slot < c[l].slot)
  }

  lemma InOrderSkips(c: seq<Send>, live: set<nat>, ids: seq<string>, n: nat)
    requires n < |ids| && InOrder(c, live, ids, n)
    ensures InOrder(c + [], live, ids, n + 1)
  {
    assert c + [] == c;
  }

  lemma InOrderExtends(c: seq<Send>, live: set<nat>, ids: seq<string>, n: nat)
    requires n < |ids| && n in live && InOrder(c, live, ids, n)
    ensures InOrder(c + [Send(n, ids[n])], live, ids, n + 1)
  {
  }

  lemma {:induction false} CallsAreLive(live: set<nat>, ids: seq<string>, n: nat)
    requires n <= |ids|
    ensures InOrder(CallsBelow(live, ids, n), live, ids, n)
  {
    if n > 0 {
      hide InOrder;
      CallsAreLive(live, ids, n - 1);
      if n - 1 in live {
        InOrderExtends(CallsBelow(live, ids, n - 1), live, ids, n - 1);
      } else {
        InOrderSkips(CallsBelow(live, ids, n - 1), live, ids, n - 1);
      }
    }
  }

  lemma {:induction false} LiveIsCalled(live: set<nat>, ids: seq<string>, n: nat, s: nat)
    requires s < n <= |ids| && s in live
    ensures exists k :: 0 <= k < |CallsBelow(live, ids, n)| && CallsBelow(live, ids, n)[k] == Send(s, ids[s])
  {
    var shorter, c := CallsBelow(live, ids, n - 1), CallsBelow(live, ids, n);
    if s < n - 1 {
      LiveIsCalled(live, ids, n - 1, s);
      var k :| 0 <= k < |shorter| && shorter[k] == Send(s, ids[s]);
      assert c[k] == Send(s, ids[s]);
    } else {
      assert c[|shorter|] == Send(s, ids[s]);
    }
  }

  /** The fan-out calls exactly the live slots, each once, in slot order, under the snapshot's id. */
  lemma CallsExactlyLive(live: set<nat>, ids: seq<string>, n: nat)
    requires n <= |ids|
    ensures var c := CallsBelow(live, ids, n);
            && InOrder(c, live, ids, n)
            && (forall call :: call in c <==> call.slot in live && call.slot < n && call.id == ids[call.slot])
  {
    CallsAreLive(live, ids, n);
    var c := CallsBelow(live, ids, n);
    forall call: Send | call.slot in live && call.slot < n && call.id == ids[call.slot] ensures call in c {
      LiveIsCalled(live, ids, n, call.slot);
    }
  }
}
