/** Who may be placed in a talkback channel: src/zoom/talkback_eligibility.h. */
module Eligibility {

  datatype RosterMember = RosterMember(userId: nat, name: string, isHost: bool, supportsTalkback: bool)

  predicate IsTalkbackEligible(member: RosterMember, station: string) {
    member.supportsTalkback && member.name != station
  }

  // The roster holds positive evidence that this id may not be in a channel.
  predicate KnownIneligible(roster: seq<RosterMember>, station: string, userId: nat) {
    exists i :: 0 <= i < |roster| && roster[i].userId == userId && !IsTalkbackEligible(roster[i], station)
  }

  ghost predicate DistinctIds(roster: seq<RosterMember>) {
    forall i, j :: 0 <= i < j < |roster| ==> roster[i].userId != roster[j].userId
  }

  predicate OnRoster(roster: seq<RosterMember>, userId: nat) {
    exists i :: 0 <= i < |roster| && roster[i].userId == userId
  }

  /** The ids the roster lists. */
  method Present(roster: seq<RosterMember>) returns (present: set<nat>)
    ensures forall u :: u in present <==> OnRoster(roster, u)
  {
    present := {};
    for i := 0 to |roster|
      invariant forall u :: u in present <==> exists j :: 0 <= j < i && roster[j].userId == u
    {
      present := present + {roster[i].userId};
    }
  }

  predicate FirstEntry(roster: seq<RosterMember>, i: int, userId: nat) {
    0 <= i < |roster| && roster[i].userId == userId && forall j :: 0 <= j < i ==> roster[j].userId != userId
  }

  ghost predicate MayAssign(roster: seq<RosterMember>, station: string, userId: nat) {
    exists i :: FirstEntry(roster, i, userId) && IsTalkbackEligible(roster[i], station)
  }

  /** The first roster entry with the id decides; an unknown id is never assignable. */
  method CanAssignTalkback(roster: seq<RosterMember>, station: string, userId: nat, slot: int, slots: int)
    returns (ok: bool)
    ensures ok <==> MayAssign(roster, station, userId) && 0 <= slot < slots
    ensures ok <==>
      && 0 <= slot < slots
      && exists i :: FirstEntry(roster, i, userId) && roster[i].supportsTalkback && roster[i].name != station
  {
    if slot < 0 || slot >= slots { return false; }
    for i := 0 to |roster|
      invariant forall j :: 0 <= j < i ==> roster[j].userId != userId
    {
      assert roster[i].userId == userId ==> FirstEntry(roster, i, userId);
      if roster[i].userId == userId { return IsTalkbackEligible(roster[i], station); }
    }
    return false;
  }

  /** Exactly the people the roster shows to be ineligible lose their intent and their assignment mark. */
  method PruneIneligibleTalkbackIntent(roster: seq<RosterMember>, station: string,
                                       intent: set<(nat, nat)>, autoAssigned: set<nat>)
    returns (intent': set<(nat, nat)>, autoAssigned': set<nat>)
    ensures intent' == set p | p in intent && !KnownIneligible(roster, station, p.1)
    ensures autoAssigned' == set u | u in autoAssigned && !KnownIneligible(roster, station, u)
  {
    intent', autoAssigned' := intent, autoAssigned;
    for i := 0 to |roster|
      invariant intent' == set p | p in intent && !KnownIneligible(roster[..i], station, p.1)
      invariant autoAssigned' == set u | u in autoAssigned && !KnownIneligible(roster[..i], station, u)
    {
      KnownStep(roster, i, station);
      if IsTalkbackEligible(roster[i], station) { continue; }
      autoAssigned' := autoAssigned' - {roster[i].userId};
      var todo := intent';
      ghost var before := intent';
      while todo != {}
        invariant todo <= intent' <= before
        invariant forall p :: p in before && p !in intent' ==> p.1 == roster[i].userId
        invariant forall p :: p in intent' && p !in todo ==> p.1 != roster[i].userId
        decreases todo
      {
        var p :| p in todo;
        todo := todo - {p};
        if p.1 == roster[i].userId { intent' := intent' - {p}; }
      }
    }
    assert roster[..|roster|] == roster;
  }

  lemma KnownStepFor(roster: seq<RosterMember>, i: nat, station: string, u: nat)
    requires i < |roster|
    ensures KnownIneligible(roster[..i + 1], station, u) <==>
      KnownIneligible(roster[..i], station, u) || (u == roster[i].userId && !IsTalkbackEligible(roster[i], station))
  {
    var shorter, longer := roster[..i], roster[..i + 1];
    assert longer[i] == roster[i];
    if KnownIneligible(shorter, station, u) {
      var j :| 0 <= j < i && shorter[j].userId == u && !IsTalkbackEligible(shorter[j], station);
      assert longer[j] == shorter[j];
    }
  }

  lemma KnownStep(roster: seq<RosterMember>, i: nat, station: string)
    requires i < |roster|
    ensures forall u :: KnownIneligible(roster[..i + 1], station, u) <==>
      KnownIneligible(roster[..i], station, u) || (u == roster[i].userId && !IsTalkbackEligible(roster[i], station))
  {
    forall u { KnownStepFor(roster, i, station, u); }
  }

  // Every entry the roster has for the id is of somebody who may be in a channel.
  ghost predicate Unobjectionable(roster: seq<RosterMember>, station: string, userId: nat) {
    forall i :: 0 <= i < |roster| && roster[i].userId == userId ==>
      roster[i].supportsTalkback && roster[i].name != station
  }

  function EligibleMembers(members: set<nat>, roster: seq<RosterMember>, station: string): set<nat> {
    set u | u in members && !KnownIneligible(roster, station, u)
  }

  /** Members are kept unless the roster shows them ineligible: absence from it is no evidence. */
  method EligibleChannelMembers(members: set<nat>, roster: seq<RosterMember>, station: string)
    returns (kept: set<nat>)
    ensures kept == EligibleMembers(members, roster, station)
    ensures forall u :: u in kept <==> u in members && Unobjectionable(roster, station, u)
  {
    kept := members;
    for i := 0 to |roster|
      invariant kept == EligibleMembers(members, roster[..i], station)
    {
      KnownStep(roster, i, station);
      if !IsTalkbackEligible(roster[i], station) { kept := kept - {roster[i].userId}; }
    }
    assert roster[..|roster|] == roster;
  }
}
