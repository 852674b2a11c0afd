/**
 The bank under every interleaving of its threads.

 The pump thread delivers callbacks and refreshes the send snapshot slot by slot; any number of
 SetKey calls race through their compare-exchange loops; the audio thread reads the two masks in
 either order, takes the send lock and fans one frame out, or reads one slot's ready bit, takes the
 lock and sends to that slot. One event is one atomic access.
 */
module BankInterleaving {
  import opened Options
  import opened TalkbackChannels

  datatype Update = Update(slot: nat, down: bool)

  datatype Pump = Idle | AwaitingLock | Refreshing(next: nat, mask: set<nat>)

  datatype Audio =
    | Reading(keys: Option<set<nat>>, ready: Option<set<nat>>)
    | Sending(keyed: set<nat>, readySeen: set<nat>, next: nat, calls: seq<Send>)
    | Bound(slot: nat)   // for one slot whose ready bit was set, not yet holding the lock

  // The slots a fan-out goes to: keyed and ready when the masks were read.
  function Live(a: Audio): set<nat>
    requires a.Sending?
  {
    a.keyed * a.readySeen
  }

  // The slots the audio thread may still send to on the strength of what it has read.
  function Audience(a: Audio): set<nat> {
    match a
    case Reading(_, ready) => if ready.Some? then ready.value else {}
    case Sending(_, _, _, _) => Live(a)
    case Bound(slot) => {slot}
  }

  datatype State = State(
    channels: seq<ChannelState>,
    issued: set<string>,            // channel ids Zoom has handed out
    sendIds: seq<string>,
    readyMask: set<nat>,
    pump: Pump,
    keyMask: set<nat>,
    requests: seq<Update>,          // SetKey calls, by ticket
    waiting: map<nat, set<nat>>,    // ticket -> mask it last loaded
    applied: seq<nat>,              // tickets, in the order their exchange succeeded
    audio: Audio)

  datatype Step =
    | CreateResponse(id: string, event: Event)
    | LockSend
    | RefreshSlot
    | PublishReady
    | JoinResponse(id: string, user: nat, event: Event)
    | LeaveResponse(id: string, user: nat, event: Event)
    | KeyLoad(slot: nat, down: bool)
    | ExchangeSucceeds(ticket: nat)
    | ExchangeFails(ticket: nat)
    | ReadKeys
    | ReadReady
    | StartSend
    | SendNext
    | FinishSend
    | ReadBit(slot: nat)
    | SendToSlot

  const AWAKE := Reading(None, None)

  function Initial(count: nat): State {
    State(seq(count, _ => EMPTY), {}, seq(MAX_CHANNELS, _ => ""), {}, Idle, {}, [], map[], [], AWAKE)
  }

  predicate Enabled(s: State, e: Step) {
    match e
    // Zoom's ids are non-empty and never repeat.
    case CreateResponse(id, event) => s.pump.Idle? && id != "" && id !in s.issued
    case LockSend => s.pump.AwaitingLock? && !s.audio.Sending?
    case RefreshSlot => s.pump.Refreshing? && s.pump.next < |s.channels| && s.pump.next < |s.sendIds|
    case PublishReady => s.pump.Refreshing? && s.pump.next == |s.channels|
    case JoinResponse(_, _, _) => s.pump.Idle?
    case LeaveResponse(_, _, _) => s.pump.Idle?
    case KeyLoad(slot, _) => slot < MAX_CHANNELS
    case ExchangeSucceeds(t) => t in s.waiting && t < |s.requests| && s.waiting[t] == s.keyMask
    case ExchangeFails(t) => t in s.waiting
    case ReadKeys => s.audio.Reading? && s.audio.keys.None?
    case ReadReady => s.audio.Reading? && s.audio.ready.None?
    case StartSend => s.audio.Reading? && s.audio.keys.Some? && s.audio.ready.Some? && !s.pump.Refreshing?
    case SendNext => s.audio.Sending? && s.audio.next < |s.sendIds|
    case FinishSend => s.audio.Sending? && s.audio.next == |s.sendIds|
    case ReadBit(slot) => s.audio == AWAKE && slot in s.readyMask
    case SendToSlot => s.audio.Bound? && !s.pump.Refreshing?
  }

  function Next(s: State, e: Step): State
    requires Enabled(s, e)
  {
    match e
    case CreateResponse(id, event) =>
      var s := s.(issued := s.issued + {id});
      if event.Ok? then s.(channels := Created(s.channels, id), pump := AwaitingLock) else s
    case LockSend => s.(pump := Refreshing(0, {}))
    case RefreshSlot =>
      var i := s.pump.next;
      s.(sendIds := s.sendIds[i := s.channels[i].id],
         pump := Refreshing(i + 1, if s.channels[i].ready then s.pump.mask + {i} else s.pump.mask))
    case PublishReady => s.(readyMask := s.pump.mask, pump := Idle)
    case JoinResponse(id, user, event) => s.(channels := Joined(s.channels, id, user, event))
    case LeaveResponse(id, user, event) => s.(channels := Left(s.channels, id, user, event))
    case KeyLoad(slot, down) =>
      s.(requests := s.requests + [Update(slot, down)], waiting := s.waiting[|s.requests| := s.keyMask])
    case ExchangeSucceeds(t) =>
      s.(keyMask := Keyed(s.keyMask, s.requests[t].slot, s.requests[t].down),
         waiting := s.waiting - {t}, applied := s.applied + [t])
    case ExchangeFails(t) => s.(waiting := s.waiting[t := s.keyMask])
    case ReadKeys => s.(audio := s.audio.(keys := Some(s.keyMask)))
    case ReadReady => s.(audio := s.audio.(ready := Some(s.readyMask)))
    case StartSend =>
      var fanOut := Sending(s.audio.keys.value, s.audio.ready.value, 0, []);
      s.(audio := if Live(fanOut) == {} then AWAKE else fanOut)
    case SendNext =>
      var i := s.audio.next;
      s.(audio := s.audio.(next := i + 1,
         calls := s.audio.calls + if i in Live(s.audio) then [Send(i, s.sendIds[i])] else []))
    case FinishSend => s.(audio := AWAKE)
    case ReadBit(slot) => s.(audio := Bound(slot))
    case SendToSlot => s.(audio := AWAKE)
  }

  // ----- the invariant -----------------------------------------------------------------------

  // Slots whose audience is settled: they have an id for good, and the snapshot holds it.
  ghost predicate Settled(s: State, slots: set<nat>) {
    |s.sendIds| == MAX_CHANNELS && |s.channels| <= MAX_CHANNELS &&
    forall i :: i in slots ==> i < FirstEmpty(s.channels) && s.sendIds[i] == s.channels[i].id
  }

  ghost predicate DownwardClosed(slots: set<nat>) {
    forall i: nat, j: nat :: i < j && j in slots ==> i in slots
  }

  ghost predicate ChannelsInv(s: State) {
    && |s.sendIds| == MAX_CHANNELS
    && |s.channels| <= MAX_CHANNELS
    && WellAssigned(s.channels)
    && (forall i :: 0 <= i < |s.channels| && s.channels[i].id != "" ==> s.channels[i].id in s.issued)
  }

  ghost predicate SnapshotInv(s: State) {
    && Settled(s, s.readyMask)
    && DownwardClosed(s.readyMask)
    && (s.pump.Idle? ==> s.readyMask == ReadySlots(s.channels))
    && (s.pump.Refreshing? ==>
          && s.pump.next <= |s.channels|
          && s.pump.mask == (set i: nat | i < s.pump.next && s.channels[i].ready)
          && (forall i :: 0 <= i < s.pump.next ==> s.sendIds[i] == s.channels[i].id))
  }

  ghost predicate AudioInv(s: State) {
    && |s.sendIds| == MAX_CHANNELS
    && Settled(s, Audience(s.audio))
    && (s.audio.Sending? ==>
          && !s.pump.Refreshing?
          && s.audio.next <= |s.sendIds|
          && s.audio.calls == CallsBelow(Live(s.audio), s.sendIds, s.audio.next))
  }

  function FoldKeys(requests: seq<Update>, applied: seq<nat>): set<nat>
    requires forall i :: 0 <= i < |applied| ==> applied[i] < |requests|
  {
    if applied == [] then {}
    else
      var last := requests[applied[|applied| - 1]];
      Keyed(FoldKeys(requests, applied[..|applied| - 1]), last.slot, last.down)
  }

  ghost predicate KeysInv(s: State) {
    && (forall i :: 0 <= i < |s.applied| ==> s.applied[i] < |s.requests|)
    && (forall i, j :: 0 <= i < j < |s.applied| ==> s.applied[i] != s.applied[j])
    && (forall t: nat :: t < |s.requests| ==> (t in s.waiting <==> t !in s.applied))
    && (forall t :: t in s.waiting ==> t < |s.requests|)
    && s.keyMask == FoldKeys(s.requests, s.applied)
  }

  ghost predicate Inv(s: State) {
    ChannelsInv(s) && SnapshotInv(s) && AudioInv(s) && KeysInv(s)
  }

  // ----- every step keeps it -----------------------------------------------------------------

  lemma InitialInv(count: nat)
    requires count <= MAX_CHANNELS
    ensures Inv(Initial(count))
  {
    PrefixIsFirstEmpty(Initial(count).channels, 0);
  }

  // Ids once assigned stay, so what is settled stays settled.
  lemma SettledStays(s: State, s': State, slots: set<nat>)
    requires Settled(s, slots)
    requires s'.sendIds == s.sendIds && |s'.channels| == |s.channels|
    requires FirstEmpty(s.channels) <= FirstEmpty(s'.channels)
    requires forall i :: 0 <= i < FirstEmpty(s.channels) ==> s'.channels[i].id == s.channels[i].id
    ensures Settled(s', slots)
  {
  }

  lemma CreateStep(s: State, id: string, event: Event)
    requires Inv(s) && Enabled(s, CreateResponse(id, event))
    ensures Inv(Next(s, CreateResponse(id, event)))
  {
    hide DownwardClosed, FoldKeys, CallsBelow, FirstEmpty, WellAssigned, ReadySlots;
    var s' := Next(s, CreateResponse(id, event));
    if event.Ok? {
      CreatedKeeps(s.channels, id);
      SettledStays(s, s', s.readyMask);
      SettledStays(s, s', Audience(s.audio));
    }
  }

  // A join or a leave changes one member set and nothing the audio thread looks at.
  ghost predicate OnlyMembers(before: seq<ChannelState>, after: seq<ChannelState>) {
    && |after| == |before|
    && WellAssigned(after) && FirstEmpty(after) == FirstEmpty(before) && ReadySlots(after) == ReadySlots(before)
    && (forall i :: 0 <= i < |before| ==> after[i].id == before[i].id && after[i].ready == before[i].ready)
  }

  lemma MembersStep(s: State, channels: seq<ChannelState>)
    requires Inv(s) && s.pump.Idle? && OnlyMembers(s.channels, channels)
    ensures Inv(s.(channels := channels))
  {
    var s' := s.(channels := channels);
    SettledStays(s, s', s.readyMask);
    SettledStays(s, s', Audience(s.audio));
  }

  lemma JoinStep(s: State, id: string, user: nat, event: Event)
    requires Inv(s) && s.pump.Idle?
    ensures Inv(Next(s, JoinResponse(id, user, event)))
  {
    JoinedKeeps(s.channels, id, user, event);
    MembersStep(s, Joined(s.channels, id, user, event));
  }

  lemma LeaveStep(s: State, id: string, user: nat, event: Event)
    requires Inv(s) && s.pump.Idle?
    ensures Inv(Next(s, LeaveResponse(id, user, event)))
  {
    LeftKeeps(s.channels, id, user, event);
    MembersStep(s, Left(s.channels, id, user, event));
  }

  // Rewriting a slot of the snapshot never changes a settled one.
  lemma RewriteKeepsSettled(s: State, slots: set<nat>)
    requires ChannelsInv(s) && Enabled(s, RefreshSlot) && Settled(s, slots)
    ensures Settled(Next(s, RefreshSlot), slots)
  {
  }

  lemma RefreshStep(s: State)
    requires Inv(s) && Enabled(s, RefreshSlot)
    ensures Inv(Next(s, RefreshSlot))
  {
    RewriteKeepsSettled(s, s.readyMask);
    RewriteKeepsSettled(s, Audience(s.audio));
  }

  lemma PublishStep(s: State)
    requires Inv(s) && Enabled(s, PublishReady)
    ensures Inv(Next(s, PublishReady))
  {
    assert s.pump.mask == ReadySlots(s.channels);
  }

  lemma AudioStep(s: State, e: Step)
    requires Inv(s) && Enabled(s, e)
    requires e.ReadKeys? || e.ReadReady? || e.StartSend? || e.SendNext? || e.FinishSend? || e.ReadBit? || e.SendToSlot?
    ensures Inv(Next(s, e))
  {
    hide ChannelsInv, KeysInv, WellAssigned, FirstEmpty, DownwardClosed, ReadySlots;
    var s' := Next(s, e);
    assert s' == s.(audio := s'.audio);
    assert AudioInv(s');
    AudioOnly(s, s'.audio);
  }

  lemma AudioOnly(s: State, audio: Audio)
    requires Inv(s) && AudioInv(s.(audio := audio))
    ensures Inv(s.(audio := audio))
  {
    hide AudioInv, FoldKeys, WellAssigned, FirstEmpty, DownwardClosed, ReadySlots;
  }

  lemma FoldExtends(requests: seq<Update>, more: seq<Update>, applied: seq<nat>)
    requires forall i :: 0 <= i < |applied| ==> applied[i] < |requests|
    ensures FoldKeys(requests + more, applied) == FoldKeys(requests, applied)
  {
    if applied != [] { FoldExtends(requests, more, applied[..|applied| - 1]); }
  }

  lemma LoadStep(s: State, slot: nat, down: bool)
    requires Inv(s) && Enabled(s, KeyLoad(slot, down))
    ensures Inv(Next(s, KeyLoad(slot, down)))
  {
    FoldExtends(s.requests, [Update(slot, down)], s.applied);
  }

  lemma ExchangeStep(s: State, t: nat)
    requires Inv(s) && Enabled(s, ExchangeSucceeds(t))
    ensures Inv(Next(s, ExchangeSucceeds(t)))
  {
    var s' := Next(s, ExchangeSucceeds(t));
    assert s'.applied[..|s'.applied| - 1] == s.applied;
  }

  lemma StepKeepsInv(s: State, e: Step)
    requires Inv(s) && Enabled(s, e)
    ensures Inv(Next(s, e))
  {
    match e
    case CreateResponse(id, event) => CreateStep(s, id, event);
    case JoinResponse(id, user, event) => JoinStep(s, id, user, event);
    case LeaveResponse(id, user, event) => LeaveStep(s, id, user, event);
    case RefreshSlot => RefreshStep(s);
    case PublishReady => PublishStep(s);
    case LockSend =>
    case KeyLoad(slot, down) => LoadStep(s, slot, down);
    case ExchangeSucceeds(t) => ExchangeStep(s, t);
    case ExchangeFails(_) =>
    case _ => AudioStep(s, e);
  }

  // ----- whole runs ------------------------------------------------------------------------

  ghost predicate Runs(s: State, steps: seq<Step>, end: State)
    decreases |steps|
  {
    if steps == [] then end == s
    else Enabled(s, steps[0]) && Runs(Next(s, steps[0]), steps[1..], end)
  }

  lemma {:induction false} RunKeepsInv(s: State, steps: seq<Step>, end: State)
    requires Inv(s) && Runs(s, steps, end)
    ensures Inv(end)
    decreases |steps|
  {
    if steps != [] {
      StepKeepsInv(s, steps[0]);
      RunKeepsInv(Next(s, steps[0]), steps[1..], end);
    }
  }

  lemma StepKeepsReady(s: State, e: Step)
    requires Inv(s) && Enabled(s, e)
    ensures ReadySlots(s.channels) <= ReadySlots(Next(s, e).channels)
  {
    hide WellAssigned, ReadySlots, Created, Joined, Left;
    match e
    case CreateResponse(id, event) =>
      IssuedAreOthers(s, id);
      CreatedKeeps(s.channels, id);
    case JoinResponse(id, user, event) => JoinedKeeps(s.channels, id, user, event);
    case LeaveResponse(id, user, event) => LeftKeeps(s.channels, id, user, event);
    case _ =>
  }

  lemma IssuedAreOthers(s: State, id: string)
    requires ChannelsInv(s) && id != "" && id !in s.issued
    ensures forall i :: 0 <= i < |s.channels| ==> s.channels[i].id != id
  {
  }

  /** A channel that is ready stays ready, whatever follows: once the bank has come up, some slot is always ready. */
  lemma {:induction false} ReadyStays(s: State, steps: seq<Step>, end: State)
    requires Inv(s) && Runs(s, steps, end)
    ensures ReadySlots(s.channels) <= ReadySlots(end.channels)
    decreases |steps|
  {
    if steps != [] {
      hide Inv, Enabled, Next, ReadySlots;
      StepKeepsInv(s, steps[0]);
      StepKeepsReady(s, steps[0]);
      ReadyStays(Next(s, steps[0]), steps[1..], end);
    }
  }

  /** In every reachable state the ready slots are a prefix with distinct non-empty ids, a set
      ready bit implies the snapshot holds that slot's id, and listener counts are member counts. */
  lemma BankIsSafe(count: nat, steps: seq<Step>, s: State)
    requires count <= MAX_CHANNELS && Runs(Initial(count), steps, s)
    ensures WellAssigned(s.channels)
    ensures forall i, j :: i in s.readyMask && j in s.readyMask && i != j ==>
      i < |s.channels| && j < |s.channels| && s.channels[i].id != s.channels[j].id
    ensures forall i: nat, j: nat :: i < j && j in s.readyMask ==> i in s.readyMask
    ensures forall i :: i in s.readyMask ==>
      i < |s.sendIds| && i < |s.channels| && s.channels[i].ready && s.sendIds[i] == s.channels[i].id != ""
    ensures s.pump.Idle? ==> s.readyMask == ReadySlots(s.channels)
    ensures forall c :: c in s.channels ==> c.listeners == |c.members|
  {
    InitialInv(count);
    RunKeepsInv(Initial(count), steps, s);
  }

  /** Every finished SetKey call took effect exactly once, and the mask is their fold in exchange order. */
  lemma NoKeyUpdateLost(count: nat, steps: seq<Step>, s: State)
    requires count <= MAX_CHANNELS && Runs(Initial(count), steps, s)
    ensures forall t: nat :: t < |s.requests| ==> (t in s.applied <==> t !in s.waiting)
    ensures forall i, j :: 0 <= i < j < |s.applied| ==> s.applied[i] != s.applied[j]
    ensures forall i :: 0 <= i < |s.applied| ==> s.applied[i] < |s.requests|
    ensures s.keyMask == FoldKeys(s.requests, s.applied)
  {
    InitialInv(count);
    RunKeepsInv(Initial(count), steps, s);
  }

  // The k-th exchange is the last one that touched the slot.
  ghost predicate LastFor(requests: seq<Update>, applied: seq<nat>, slot: nat, k: nat)
    requires forall i :: 0 <= i < |applied| ==> applied[i] < |requests|
  {
    && k < |applied| && requests[applied[k]].slot == slot
    && (forall l :: k < l < |applied| ==> requests[applied[l]].slot != slot)
  }

  /** A slot is keyed exactly when the last exchange that touched it pressed the key. */
  lemma {:induction false} KeyedMeansLastPressed(requests: seq<Update>, applied: seq<nat>, slot: nat)
    requires forall i :: 0 <= i < |applied| ==> applied[i] < |requests|
    ensures slot in FoldKeys(requests, applied) <==>
      exists k: nat :: LastFor(requests, applied, slot, k) && requests[applied[k]].down
  {
    if applied != [] {
      var n := |applied| - 1;
      var front := applied[..n];
      KeyedMeansLastPressed(requests, front, slot);
      if requests[applied[n]].slot == slot {
        assert LastFor(requests, applied, slot, n);
        assert forall k: nat :: LastFor(requests, applied, slot, k) ==> k == n;
      } else {
        assert forall k: nat :: LastFor(requests, applied, slot, k) <==> LastFor(requests, front, slot, k);
      }
    }
  }

  /** A finished fan-out called the SDK exactly once for each slot that was keyed and ready when the
      masks were read, in slot order, each time with the id of that slot's own channel. */
  lemma FanOutIsExact(count: nat, steps: seq<Step>, s: State)
    requires count <= MAX_CHANNELS && Runs(Initial(count), steps, s)
    requires Enabled(s, FinishSend)
    ensures InOrder(s.audio.calls, Live(s.audio), s.sendIds, |s.sendIds|)
    ensures forall call :: call in s.audio.calls <==>
      call.slot in s.audio.keyed && call.slot in s.audio.readySeen && call.slot < |s.channels| && call.id == s.channels[call.slot].id
    ensures forall call :: call in s.audio.calls ==> call.id != ""
  {
    InitialInv(count);
    RunKeepsInv(Initial(count), steps, s);
    CallsExactlyLive(Live(s.audio), s.sendIds, |s.sendIds|);
  }

  /** A send to one slot, its ready bit read before the lock was taken, uses that slot's own channel id,
      which no other slot has, whatever the pump did in between. */
  lemma SlotSendIsExact(count: nat, steps: seq<Step>, s: State)
    requires count <= MAX_CHANNELS && Runs(Initial(count), steps, s)
    requires Enabled(s, SendToSlot)
    ensures var slot := s.audio.slot;
            && slot < |s.channels| && slot < |s.sendIds| && s.channels[slot].ready
            && s.sendIds[slot] == s.channels[slot].id != ""
            && (forall i :: 0 <= i < |s.channels| && i != slot ==> s.channels[i].id != s.sendIds[slot])
  {
    InitialInv(count);
    RunKeepsInv(Initial(count), steps, s);
  }
}
