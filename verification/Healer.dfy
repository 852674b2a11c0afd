/**
 Membership healing: src/app/main.cpp:1600-1678, and what the main loop does to it between passes
 (1544-1554, 1835-1843).

 One pass looks at the slots in turn, starting behind the one served last, and makes at most one
 call to Zoom: the first slot with somebody due to invite or to remove is served.
 */
module Healer {
  import opened Eligibility
  import opened Options
  import Powers
  import opened RoomPlan
  import opened TalkbackChannels

  type Key = (nat, nat)   // slot, user id

  datatype Backoff = Backoff(attempts: nat, notBefore: int)

  datatype World = World(
    roster: seq<RosterMember>,
    station: string,
    rooms: BreakoutState,
    intent: set<Key>,
    slots: seq<ChannelState>)

  datatype Call =
    | NoCall
    | Invite(slot: nat, userIds: seq<nat>)
    | Removal(slot: nat, userId: nat)

  const SECOND := 1_000_000_000

  // ----- what one roster entry calls for ------------------------------------------------------

  predicate Want(w: World, s: nat, m: RosterMember) {
    IsTalkbackEligible(m, w.station) && (s, m.userId) in w.intent
  }

  predicate Have(w: World, s: nat, m: RosterMember)
    requires s < |w.slots|
  {
    m.userId in w.slots[s].members
  }

  // Talkback never crosses breakout rooms.
  predicate SameRoom(w: World, m: RosterMember) {
    !w.rooms.started || RoomOfName(w.rooms.rooms, m.name) == w.rooms.myRoom
  }

  predicate Due(backoff: map<Key, Backoff>, s: nat, userId: nat, now: int) {
    (s, userId) in backoff ==> now >= backoff[(s, userId)].notBefore
  }

  predicate ToInvite(w: World, s: nat, m: RosterMember)
    requires s < |w.slots|
  {
    Want(w, s, m) && !Have(w, s, m) && SameRoom(w, m)
  }

  predicate ToRemove(w: World, s: nat, m: RosterMember)
    requires s < |w.slots|
  {
    !Want(w, s, m) && Have(w, s, m) && SameRoom(w, m)
  }

  // ----- one slot ------------------------------------------------------------------------------

  datatype Scan = Scan(backoff: map<Key, Backoff>, missing: seq<nat>, remove: Option<nat>)

  // The roster in order: a satisfied wish forgets its backoff, everybody due is collected, and the
  // first unwanted member that is due is remembered.
  function ScanEntry(w: World, s: nat, now: int, c: Scan, m: RosterMember): Scan
    requires s < |w.slots|
  {
    var backoff := if Want(w, s, m) && Have(w, s, m) then c.backoff - {(s, m.userId)} else c.backoff;
    if ToInvite(w, s, m) then
      Scan(backoff, if Due(backoff, s, m.userId, now) then c.missing + [m.userId] else c.missing, c.remove)
    else if ToRemove(w, s, m) && c.remove.None? && Due(backoff, s, m.userId, now) then
      Scan(backoff, c.missing, Some(m.userId))
    else
      Scan(backoff, c.missing, c.remove)
  }

  function ScanSlot(w: World, s: nat, now: int, backoff: map<Key, Backoff>, n: nat): Scan
    requires s < |w.slots| && n <= |w.roster|
  {
    if n == 0 then Scan(backoff, [], None)
    else ScanEntry(w, s, now, ScanSlot(w, s, now, backoff, n - 1), w.roster[n - 1])
  }

  function FullScan(w: World, s: nat, now: int, backoff: map<Key, Backoff>): Scan
    requires s < |w.slots|
  {
    ScanSlot(w, s, now, backoff, |w.roster|)
  }

  predicate Busy(c: Scan) {
    c.missing != [] || c.remove.Some?
  }

  // ----- backoff ------------------------------------------------------------------------------

  // An accepted invite is given ten seconds to be confirmed; a refused one waits five seconds
  // doubled once per refusal so far, at most a minute.
  function InviteWait(ok: bool, attempts: nat): int {
    if ok then 10 * SECOND else RefusalWait(attempts)
  }

  function RefusalWait(attempts: nat): int {
    var shift := if attempts < 4 then attempts else 4;
    var wait := 5 * SECOND * Powers.Pow2(shift);
    if wait < 60 * SECOND then wait else 60 * SECOND
  }

  function Attempts(backoff: map<Key, Backoff>, key: Key): nat {
    if key in backoff then backoff[key].attempts else 0
  }

  function AfterInvite(backoff: map<Key, Backoff>, s: nat, userIds: seq<nat>, ok: bool, now: int): map<Key, Backoff> {
    if userIds == [] then backoff
    else
      var before := AfterInvite(backoff, s, userIds[..|userIds| - 1], ok, now);
      var key := (s, userIds[|userIds| - 1]);
      var attempts := if ok then 0 else Attempts(before, key) + 1;
      before[key := Backoff(attempts, now + InviteWait(ok, attempts))]
  }

  function AfterRefusedRemoval(backoff: map<Key, Backoff>, s: nat, userId: nat, now: int): map<Key, Backoff> {
    backoff[(s, userId) := Backoff(Attempts(backoff, (s, userId)) + 1, now + 30 * SECOND)]
  }

  // ----- one pass ------------------------------------------------------------------------------

  datatype State = State(backoff: map<Key, Backoff>, rr: nat)

  datatype Outcome = Outcome(state: State, call: Call)

  predicate Fits(w: World, s: nat, userIds: seq<nat>)
    requires s < |w.slots|
  {
    w.slots[s].ready && |w.slots[s].members| + |userIds| <= MAX_MEMBERS
  }

  // Serving one slot. `accepted` is Zoom's answer, if it is asked at all.
  function Serve(w: World, s: nat, now: int, accepted: bool, c: Scan): Outcome
    requires s < |w.slots| && Busy(c)
  {
    if c.missing != [] then
      var ok := Fits(w, s, c.missing) && accepted;
      Outcome(State(AfterInvite(c.backoff, s, c.missing, ok, now), s + 1), Invite(s, c.missing))
    else
      var backoff := if accepted then c.backoff else AfterRefusedRemoval(c.backoff, s, c.remove.value, now);
      Outcome(State(backoff, s + 1), Removal(s, c.remove.value))
  }

  function SlotAt(w: World, rr: nat, k: nat): (s: nat)
    requires |w.slots| > 0
    ensures s < |w.slots|
  {
    (rr + k) % |w.slots|
  }

  function PassFrom(w: World, now: int, accepted: bool, rr: nat, backoff: map<Key, Backoff>, k: nat): Outcome
    requires k <= |w.slots|
    decreases |w.slots| - k
  {
    if k == |w.slots| then Outcome(State(backoff, rr), NoCall)
    else
      var s := SlotAt(w, rr, k);
      var c := FullScan(w, s, now, backoff);
      if Busy(c) then Serve(w, s, now, accepted, c) else PassFrom(w, now, accepted, rr, c.backoff, k + 1)
  }

  function Pass(w: World, now: int, accepted: bool, st: State): Outcome {
    PassFrom(w, now, accepted, st.rr, st.backoff, 0)
  }

  lemma PassUnfolds(w: World, now: int, accepted: bool, rr: nat, backoff: map<Key, Backoff>, k: nat)
    requires k < |w.slots|
    ensures var s := SlotAt(w, rr, k); var c := FullScan(w, s, now, backoff);
            PassFrom(w, now, accepted, rr, backoff, k)
            == if Busy(c) then Serve(w, s, now, accepted, c) else PassFrom(w, now, accepted, rr, c.backoff, k + 1)
  {
    hide FullScan, Serve, SlotAt, Busy;
  }

  lemma PassEnds(w: World, now: int, accepted: bool, rr: nat, backoff: map<Key, Backoff>)
    ensures PassFrom(w, now, accepted, rr, backoff, |w.slots|) == Outcome(State(backoff, rr), NoCall)
  {
  }

  // ----- between passes --------------------------------------------------------------------------

  // Housekeeping drops the entries of people who are not on the roster, unless breakouts run: then
  // the roster shows one room only, and absence from it means nothing.
  function KeepPresent(backoff: map<Key, Backoff>, roster: seq<RosterMember>, started: bool): map<Key, Backoff> {
    if started then backoff else map k | k in backoff && OnRoster(roster, k.1) :: backoff[k]
  }

  // What the main loop does to the healer's state: passes, housekeeping between them, and the flush after any
  // change of the breakout rooms.
  datatype Step =
    | Heal(w: World, now: int, accepted: bool)
    | Housekeep(roster: seq<RosterMember>, started: bool)
    | RoomsChanged

  function StepFrom(st: State, e: Step): Outcome {
    match e
    case Heal(w, now, accepted) => Pass(w, now, accepted, st)
    case Housekeep(roster, started) => Outcome(st.(backoff := KeepPresent(st.backoff, roster, started)), NoCall)
    case RoomsChanged => Outcome(st.(backoff := map[]), NoCall)
  }

  // ----- the guard ---------------------------------------------------------------------------------

  const PACE_NS := 600_000_000

  // The healer, and the time its guard waits for.
  datatype Paced = Paced(heal: State, nextHealNs: int)

  datatype Turn = Turn(paced: Paced, call: Call)

  // The guard lets a pass through: not too soon, and some channel is ready.
  predicate Opens(p: Paced, w: World, now: int) {
    now >= p.nextHealNs && FirstEmpty(w.slots) > 0
  }

  // One step of the main loop, a pass being only tried.
  function TurnFrom(p: Paced, e: Step): Turn {
    if e.Heal? && !Opens(p, e.w, e.now) then Turn(p, NoCall)
    else
      var o := StepFrom(p.heal, e);
      var next := match e
        case Heal(_, now, _) => now + PACE_NS
        case Housekeep(_, _) => p.nextHealNs
        case RoomsChanged => 0;
      Turn(Paced(o.state, next), o.call)
  }

  // What Zoom is asked for a call: the channel by its id. A batch that does not fit is turned down before that.
  function AskedFor(w: World, call: Call): Option<MemberCall> {
    match call
    case NoCall => None
    case Invite(s, userIds) => if s < |w.slots| && Fits(w, s, userIds) then Some(MemberCall(w.slots[s].id, userIds)) else None
    case Removal(s, userId) => if s < |w.slots| then Some(MemberCall(w.slots[s].id, [userId])) else None
  }

  // ----- the loops -----------------------------------------------------------------------------

  class MembershipHealer {
    var backoff: map<Key, Backoff>
    var rr: nat
    var nextHealNs: int

    constructor ()
      ensures Now() == State(map[], 0) && nextHealNs == 0
    {
      backoff, rr, nextHealNs := map[], 0, 0;
    }

    function Now(): State
      reads this
    {
      State(backoff, rr)
    }

    function PacedNow(): Paced
      reads this
    {
      Paced(Now(), nextHealNs)
    }

    method ScanOne(w: World, s: nat, now: int) returns (missing: seq<nat>, toRemove: Option<nat>)
      requires s < |w.slots|
      modifies this`backoff
      ensures Scan(backoff, missing, toRemove) == FullScan(w, s, now, old(backoff))
    {
      missing, toRemove := [], None;
      for i := 0 to |w.roster|
        invariant Scan(backoff, missing, toRemove) == ScanSlot(w, s, now, old(backoff), i)
      {
        var m := w.roster[i];
        var want := IsTalkbackEligible(m, w.station) && (s, m.userId) in w.intent;
        var have := m.userId in w.slots[s].members;
        if want && have { backoff := backoff - {(s, m.userId)}; }
        var sameRoom := SameRoom(w, m);
        if want && !have && m.supportsTalkback && sameRoom {
          if (s, m.userId) !in backoff || now >= backoff[(s, m.userId)].notBefore {
            missing := missing + [m.userId];
          }
        } else if !want && have && sameRoom && toRemove.None? {
          if (s, m.userId) !in backoff || now >= backoff[(s, m.userId)].notBefore {
            toRemove := Some(m.userId);
          }
        }
      }
    }

    method ServeInvite(w: World, bank: Bank, s: nat, now: int, accepted: bool, missing: seq<nat>)
      returns (asked: Option<MemberCall>)
      requires s < |w.slots| && bank.channels == w.slots && missing != []
      modifies this`backoff
      ensures backoff == AfterInvite(old(backoff), s, missing, Fits(w, s, missing) && accepted, now)
      ensures asked == AskedFor(w, Invite(s, missing))
    {
      var ok;
      ok, asked := bank.InviteMany(s, missing, accepted);
      for i := 0 to |missing|
        invariant backoff == AfterInvite(old(backoff), s, missing[..i], ok, now)
      {
        var key := (s, missing[i]);
        ghost var sofar := missing[..i + 1];
        assert sofar[..i] == missing[..i] && sofar[i] == missing[i];
        var attempts := if ok then 0 else Attempts(backoff, key) + 1;
        backoff := backoff[key := Backoff(attempts, now + InviteWait(ok, attempts))];
      }
      assert missing[..|missing|] == missing;
    }

    method ServeRemoval(w: World, bank: Bank, s: nat, now: int, accepted: bool, userId: nat)
      returns (asked: Option<MemberCall>)
      requires s < |w.slots| && bank.channels == w.slots
      modifies this`backoff
      ensures backoff == if accepted then old(backoff) else AfterRefusedRemoval(old(backoff), s, userId, now)
      ensures asked == AskedFor(w, Removal(s, userId))
    {
      var removed;
      removed, asked := bank.Remove(s, userId, accepted);
      if !removed {
        var key := (s, userId);
        var attempts := (if key in backoff then backoff[key].attempts else 0) + 1;
        backoff := backoff[key := Backoff(attempts, now + 30 * SECOND)];
      }
    }

    // One slot with something to do.
    method ServeSlot(w: World, bank: Bank, s: nat, now: int, accepted: bool, missing: seq<nat>, toRemove: Option<nat>)
      returns (call: Call, asked: Option<MemberCall>)
      requires s < |w.slots| && bank.channels == w.slots && Busy(Scan(backoff, missing, toRemove))
      modifies this`backoff, this`rr
      ensures Outcome(Now(), call) == Serve(w, s, now, accepted, Scan(old(backoff), missing, toRemove))
      ensures asked == AskedFor(w, call)
    {
      hide AfterInvite, AfterRefusedRemoval, Fits, AskedFor;
      if missing != [] {
        asked := ServeInvite(w, bank, s, now, accepted, missing);
        call := Invite(s, missing);
      } else {
        asked := ServeRemoval(w, bank, s, now, accepted, toRemove.value);
        call := Removal(s, toRemove.value);
      }
      rr := s + 1;
    }

    /** One rate-limited pass over the bank's snapshot; and what Zoom is asked in it. */
    method HealPass(w: World, bank: Bank, now: int, accepted: bool) returns (call: Call, asked: Option<MemberCall>)
      requires bank.channels == w.slots
      modifies this`backoff, this`rr
      ensures Outcome(Now(), call) == Pass(w, now, accepted, old(Now()))
      ensures asked == AskedFor(w, call)
    {
      hide PassFrom, FullScan, Serve, SlotAt;
      call, asked := NoCall, None;
      var k := 0;
      while k < |w.slots|
        invariant 0 <= k <= |w.slots|
        invariant rr == old(rr) && call == NoCall
        invariant PassFrom(w, now, accepted, rr, backoff, k) == Pass(w, now, accepted, old(Now()))
      {
        PassUnfolds(w, now, accepted, rr, backoff, k);
        var s := SlotAt(w, rr, k);
        var missing, toRemove := ScanOne(w, s, now);
        if missing != [] || toRemove.Some? {
          call, asked := ServeSlot(w, bank, s, now, accepted, missing, toRemove);
          return;
        }
        k := k + 1;
      }
      PassEnds(w, now, accepted, rr, backoff);
    }

    /** Housekeeping: while no breakouts run, whoever is not on the roster is forgotten. */
    method ForgetAbsent(roster: seq<RosterMember>, started: bool)
      modifies this`backoff
      ensures backoff == KeepPresent(old(backoff), roster, started)
      ensures forall k :: k in backoff <==> k in old(backoff) && (started || OnRoster(roster, k.1))
    {
      if started { return; }
      var present := Present(roster);
      var todo := backoff.Keys;
      while todo != {}
        invariant forall k :: k in backoff <==> k in old(backoff) && (k in todo || OnRoster(roster, k.1))
        invariant forall k :: k in backoff ==> backoff[k] == old(backoff)[k]
        decreases todo
      {
        hide OnRoster;
        var k :| k in todo;
        todo := todo - {k};
        if k.1 !in present { backoff := backoff - {k}; }
      }
    }

    /** Any change of the breakout rooms: every wait is dropped, and the next pass comes at once. */
    method FlushWaits()
      modifies this`backoff, this`nextHealNs
      ensures PacedNow() == TurnFrom(old(PacedNow()), RoomsChanged).paced
      ensures backoff == map[] && nextHealNs == 0 && rr == old(rr)
    {
      backoff := map[];
      nextHealNs := 0;
    }

    /** The main loop's guard: a pass waits for its time and for a ready channel. */
    method Tick(w: World, bank: Bank, now: int, accepted: bool) returns (call: Call, asked: Option<MemberCall>)
      requires bank.channels == w.slots && bank.Valid()
      modifies this
      ensures Turn(PacedNow(), call) == TurnFrom(old(PacedNow()), Heal(w, now, accepted))
      ensures asked == AskedFor(w, call)
      ensures nextHealNs == if now >= old(nextHealNs) && FirstEmpty(w.slots) > 0 then now + 600_000_000 else old(nextHealNs)
    {
      hide Pass;
      call, asked := NoCall, None;
      if now >= nextHealNs {
        var ready := bank.ChannelsReady();
        if ready > 0 {
          nextHealNs := now + PACE_NS;
          call, asked := HealPass(w, bank, now, accepted);
        }
      }
    }
  }
}
