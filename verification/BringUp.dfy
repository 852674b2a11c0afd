/**
 Channel bring-up: src/app/main.cpp:1316-1370. The whole bank is asked for in one call, again and again while no
 channel has come; Zoom's answers arrive during the pumps in between. Zoom's ids are never repeated.
 */
module BringUp {
  import opened TalkbackChannels

  const ATTEMPTS := 120
  const PUMPS := 100
  const FULL_ROUNDS := 2   // after so many rounds a partial bank will do

  datatype Response = Response(id: string, event: Event)

  // One attempt: Zoom's answer to the call, what each short pump delivers, whether the operator gives up,
  // and what the long pump at its end delivers.
  datatype Round = Round(accepted: bool, pumps: seq<seq<Response>>, cancelled: bool, last: seq<Response>)

  const SILENT := Round(false, [], false, [])

  // ----- what may still arrive ---------------------------------------------------------------------

  predicate Granted(r: Response) {
    r.event.Ok?
  }

  // Every id to come is non-empty, new to the bank, and comes once.
  ghost predicate Fresh(channels: seq<ChannelState>, responses: seq<Response>) {
    && (forall k :: 0 <= k < |responses| && Granted(responses[k]) ==>
          responses[k].id != "" && forall i :: 0 <= i < |channels| ==> channels[i].id != responses[k].id)
    && (forall j, k :: 0 <= j < k < |responses| && Granted(responses[j]) && Granted(responses[k]) ==>
          responses[j].id != responses[k].id)
  }

  function Flat(pumps: seq<seq<Response>>): seq<Response> {
    if pumps == [] then [] else pumps[0] + Flat(pumps[1..])
  }

  function OfRound(r: Round): seq<Response> {
    Flat(r.pumps) + r.last
  }

  // The ids of the channels granted, in the order of their responses.
  function GrantedIds(responses: seq<Response>): seq<string> {
    if responses == [] then []
    else
      var n := |responses| - 1;
      GrantedIds(responses[..n]) + if Granted(responses[n]) then [responses[n].id] else []
  }

  function At(rounds: seq<Round>, k: nat): Round {
    if k < |rounds| then rounds[k] else SILENT
  }

  // What a round's short pumps can deliver: there are a hundred of them.
  function Short(r: Round): seq<Response> {
    Flat(if |r.pumps| <= 100 then r.pumps else r.pumps[..100])
  }

  // Everything Zoom answers before round k.
  function Before(rounds: seq<Round>, k: nat): seq<Response> {
    if k == 0 then [] else Before(rounds, k - 1) + Short(At(rounds, k - 1)) + At(rounds, k - 1).last
  }

  // The ids granted by the time round k decides.
  function GrantedBy(rounds: seq<Round>, k: nat): seq<string> {
    GrantedIds(Before(rounds, k) + Short(At(rounds, k)))
  }

  function ToCome(rounds: seq<Round>): seq<Response> {
    if rounds == [] then [] else OfRound(rounds[0]) + ToCome(rounds[1..])
  }

  lemma FreshDrops(channels: seq<ChannelState>, gone: seq<Response>, rest: seq<Response>)
    requires Fresh(channels, gone + rest)
    ensures Fresh(channels, rest)
  {
    forall k | 0 <= k < |rest| ensures rest[k] == (gone + rest)[|gone| + k] {}
    forall j, k | 0 <= j < k < |rest| && Granted(rest[j]) && Granted(rest[k]) ensures rest[j].id != rest[k].id {
      assert (gone + rest)[|gone| + j] == rest[j] && (gone + rest)[|gone| + k] == rest[k];
    }
  }

  lemma FreshAfterOne(channels: seq<ChannelState>, r: Response, rest: seq<Response>)
    requires Fresh(channels, [r] + rest)
    ensures Fresh(if Granted(r) then Created(channels, r.id) else channels, rest)
    ensures Granted(r) ==> r.id != "" && forall i :: 0 <= i < |channels| ==> channels[i].id != r.id
  {
    FreshDrops(channels, [r], rest);
    var all := [r] + rest;
    assert all[0] == r;
    forall k | 0 <= k < |rest| && Granted(rest[k]) && Granted(r) ensures rest[k].id != r.id {
      assert all[k + 1] == rest[k];
    }
  }

  lemma FreshResized(channels: seq<ChannelState>, count: nat, responses: seq<Response>)
    requires Fresh(channels, responses)
    ensures Fresh(Resized(channels, count), responses)
  {
  }

  // ----- what a response does to the bank ----------------------------------------------------------

  // The ids handed out so far, in slot order.
  function Names(channels: seq<ChannelState>): (ids: seq<string>)
    ensures |ids| == FirstEmpty(channels)
  {
    seq(FirstEmpty(channels), i requires 0 <= i < FirstEmpty(channels) => channels[i].id)
  }

  // As many as fit.
  function Cut(ids: seq<string>, size: nat): seq<string> {
    if |ids| <= size then ids else ids[..size]
  }

  lemma CutAgain(a: seq<string>, b: seq<string>, size: nat)
    ensures Cut(Cut(a, size) + b, size) == Cut(a + b, size)
  {
  }

  lemma CutFull(a: seq<string>, b: seq<string>, size: nat)
    requires |Cut(a, size)| >= size
    ensures Cut(a + b, size) == Cut(a, size)
  {
  }

  lemma NamesGrow(channels: seq<ChannelState>, r: Response)
    requires WellAssigned(channels) && Granted(r)
    requires r.id != "" && forall i :: 0 <= i < |channels| ==> channels[i].id != r.id
    ensures Names(Created(channels, r.id)) == Cut(Names(channels) + [r.id], |channels|)
  {
    CreatedKeeps(channels, r.id);
  }

  lemma GrantedSnoc(responses: seq<Response>, k: nat)
    requires k < |responses|
    ensures GrantedIds(responses[..k + 1])
         == GrantedIds(responses[..k]) + if Granted(responses[k]) then [responses[k].id] else []
  {
    assert responses[..k + 1][..k] == responses[..k];
  }

  lemma {:induction false} GrantedConcat(a: seq<Response>, b: seq<Response>)
    ensures GrantedIds(a + b) == GrantedIds(a) + GrantedIds(b)
    decreases |b|
  {
    if b == [] {
      assert a + b == a;
    } else {
      var n := |b| - 1;
      GrantedConcat(a, b[..n]);
      assert (a + b)[..|a + b| - 1] == a + b[..n];
    }
  }

  lemma CutStep(had: seq<string>, more: seq<string>, id: string, size: nat)
    ensures Cut(Cut(had + more, size) + [id], size) == Cut(had + (more + [id]), size)
  {
    CutAgain(had + more, [id], size);
    assert had + more + [id] == had + (more + [id]);
  }

  lemma NamesFit(channels: seq<ChannelState>)
    ensures Cut(Names(channels) + [], |channels|) == Names(channels)
  {
    assert Names(channels) + [] == Names(channels);
  }

  // ----- the loops ---------------------------------------------------------------------------------

  /** Zoom's answers are handled one after another: each granted id takes the next slot, while there is one. */
  method Pump(bank: Bank, responses: seq<Response>, ghost rest: seq<Response>)
    requires bank.Valid() && Fresh(bank.channels, responses + rest)
    modifies bank`channels, bank`lastError, bank`readyMask, bank.sendIds
    ensures bank.Valid() && Fresh(bank.channels, rest) && |bank.channels| == |old(bank.channels)|
    ensures Names(bank.channels) == Cut(Names(old(bank.channels)) + GrantedIds(responses), |bank.channels|)
  {
    hide FirstEmpty, Created, Cut, Names, GrantedIds;
    ghost var had, size := Names(bank.channels), |bank.channels|;
    PumpStarts(bank.channels, responses);
    for k := 0 to |responses|
      invariant bank.Valid() && Fresh(bank.channels, responses[k..] + rest) && |bank.channels| == size
      invariant Names(bank.channels) == Cut(had + GrantedIds(responses[..k]), size)
    {
      hide Fresh, WellAssigned;
      var r := responses[k];
      assert responses[k..] + rest == [r] + (responses[k + 1..] + rest);
      FreshAfterOne(bank.channels, r, responses[k + 1..] + rest);
      GrantedSnoc(responses, k);
      ghost var before := bank.channels;
      bank.OnCreateChannelResponse(r.id, r.event);
      OneMore(before, had, GrantedIds(responses[..k]), r);
    }
    assert responses[|responses|..] + rest == rest && responses[..|responses|] == responses;
  }

  lemma PumpStarts(channels: seq<ChannelState>, responses: seq<Response>)
    ensures responses[0..] == responses
    ensures Names(channels) == Cut(Names(channels) + GrantedIds(responses[..0]), |channels|)
  {
    NamesFit(channels);
  }

  lemma OneMore(channels: seq<ChannelState>, had: seq<string>, more: seq<string>, r: Response)
    requires WellAssigned(channels) && Names(channels) == Cut(had + more, |channels|)
    requires Granted(r) ==> r.id != "" && forall i :: 0 <= i < |channels| ==> channels[i].id != r.id
    ensures var after := if Granted(r) then Created(channels, r.id) else channels;
            && |after| == |channels|
            && Names(after) == Cut(had + (more + if Granted(r) then [r.id] else []), |channels|)
  {
    hide Names, Cut, FirstEmpty, WellAssigned;
    if Granted(r) {
      NamesGrow(channels, r);
      CutStep(had, more, r.id, |channels|);
    } else {
      assert more + [] == more;
    }
  }

  /** Short pumps until the bank is full, or the round is over: a hundred at most. */
  method PumpRound(bank: Bank, round: Round, count: nat, ghost rest: seq<Response>)
    requires bank.Valid() && Fresh(bank.channels, Flat(round.pumps) + rest) && |bank.channels| == count
    modifies bank`channels, bank`lastError, bank`readyMask, bank.sendIds
    ensures bank.Valid() && Fresh(bank.channels, rest) && |bank.channels| == count
    ensures Names(bank.channels) == Cut(Names(old(bank.channels)) + GrantedIds(Short(round)), count)
  {
    hide Fresh, Names, FirstEmpty, WellAssigned, Cut, GrantedIds, Flat;
    ghost var had := Names(bank.channels);
    var todo := round.pumps;
    ghost var done: seq<seq<Response>> := [];
    var ready := bank.ChannelsReady();
    var i := 0;
    RoundStarts(bank.channels, round.pumps);
    while i < PUMPS && ready < count
      invariant bank.Valid() && Fresh(bank.channels, Flat(todo) + rest) && |bank.channels| == count
      invariant i <= PUMPS && ready == |Names(bank.channels)|
      invariant done + todo == round.pumps && |done| <= i && (|done| == i || todo == [])
      invariant Names(bank.channels) == Cut(had + GrantedIds(Flat(done)), count)
    {
      if todo != [] {
        FirstPump(todo, rest);
        Pump(bank, todo[0], Flat(todo[1..]) + rest);
        PumpAdds(had, done, todo[0], count);
        done, todo := done + [todo[0]], todo[1..];
      }
      ready := bank.ChannelsReady();
      i := i + 1;
    }
    FreshDrops(bank.channels, Flat(todo), rest);
    RoundEnds(had, round, done, todo, count, i);
  }

  lemma RoundStarts(channels: seq<ChannelState>, pumps: seq<seq<Response>>)
    ensures [] + pumps == pumps
    ensures Names(channels) == Cut(Names(channels) + GrantedIds(Flat([])), |channels|)
  {
    NamesFit(channels);
  }

  lemma FirstPump(todo: seq<seq<Response>>, rest: seq<Response>)
    requires todo != []
    ensures Flat(todo) + rest == todo[0] + (Flat(todo[1..]) + rest)
  {
  }

  lemma RestOf<T>(a: seq<T>, b: seq<T>)
    requires a != []
    ensures (a + b)[0] == a[0] && (a + b)[1..] == a[1..] + b
  {
  }

  lemma InTurn<T>(a: seq<T>, b: seq<T>, c: seq<T>)
    ensures a + (b + c) == (a + b) + c
  {
  }

  lemma {:induction false} FlatConcat(a: seq<seq<Response>>, b: seq<seq<Response>>)
    ensures Flat(a + b) == Flat(a) + Flat(b)
  {
    if a == [] {
      assert a + b == b;
    } else {
      FlatConcat(a[1..], b);
      RestOf(a, b);
      InTurn(a[0], Flat(a[1..]), Flat(b));
    }
  }

  lemma PumpAdds(had: seq<string>, done: seq<seq<Response>>, pump: seq<Response>, count: nat)
    ensures Cut(Cut(had + GrantedIds(Flat(done)), count) + GrantedIds(pump), count)
         == Cut(had + GrantedIds(Flat(done + [pump])), count)
  {
    hide Cut, GrantedIds;
    var got, more := GrantedIds(Flat(done)), GrantedIds(pump);
    FlatConcat(done, [pump]);
    assert Flat([pump]) == pump + Flat([]) == pump;
    GrantedConcat(Flat(done), pump);
    CutAgain(had + got, more, count);
    assert had + got + more == had + (got + more);
  }

  // The pumps left out could not have changed the bank: it was full, or the round was over.
  lemma RoundEnds(had: seq<string>, round: Round, done: seq<seq<Response>>, todo: seq<seq<Response>>, count: nat, i: nat)
    requires done + todo == round.pumps && |done| <= i <= PUMPS && (|done| == i || todo == [])
    requires i == PUMPS || |Cut(had + GrantedIds(Flat(done)), count)| >= count
    ensures Cut(had + GrantedIds(Short(round)), count) == Cut(had + GrantedIds(Flat(done)), count)
  {
    hide Cut, GrantedIds, Flat;
    var all := if |round.pumps| <= PUMPS then round.pumps else round.pumps[..PUMPS];
    var left := all[|done|..];
    assert all == done + left;
    if i < PUMPS && left != [] {
      var got, more := GrantedIds(Flat(done)), GrantedIds(Flat(left));
      FlatConcat(done, left);
      GrantedConcat(Flat(done), Flat(left));
      CutFull(had + got, more, count);
      assert had + got + more == had + (got + more);
    } else {
      assert all == done;
    }
  }

  // Round k finds enough: the whole bank, or, from the third round on, any of it; and nobody gave up before.
  ghost predicate EnoughAt(rounds: seq<Round>, count: nat, k: nat) {
    |GrantedBy(rounds, k)| >= count || (k >= 2 && |GrantedBy(rounds, k)| > 0)
  }

  ghost predicate UpAt(rounds: seq<Round>, count: nat, k: nat) {
    k < 120 && (forall j :: 0 <= j <= k ==> !At(rounds, j).cancelled) && EnoughAt(rounds, count, k)
  }

  /**
   The station goes on exactly when, in one of 120 rounds, none given up so far, the whole bank has been granted,
   or from the third round on any channel at all; with the channels granted by the first such round, in the order
   they came.
   */
  method CreateBank(bank: Bank, count: nat, rounds: seq<Round>) returns (created: bool)
    requires bank.Valid() && FirstEmpty(bank.channels) == 0 && 1 <= count <= MAX_CHANNELS
    requires Fresh(bank.channels, ToCome(rounds))
    modifies bank`want, bank`channels, bank`lastError, bank`readyMask, bank.sendIds
    ensures bank.Valid()
    ensures created <==> exists k: nat :: UpAt(rounds, count, k)
    ensures created ==> |bank.channels| == count && FirstEmpty(bank.channels) > 0
    ensures created ==> exists k: nat :: FirstUpAt(bank.channels, rounds, count, k)
  {
    hide Fresh, FirstEmpty, ToCome, Cut, Names, Before, Short, GrantedIds, GrantedBy, UpAt, EnoughAt, WellAssigned, Flat;
    created := false;
    var attempt, todo := 0, rounds;
    ghost var k: nat := 0;
    Opens(bank.channels, rounds, count);
    while attempt < ATTEMPTS && !created
      invariant attempt <= ATTEMPTS && bank.Valid() && Fresh(bank.channels, ToCome(todo))
      invariant todo == if attempt <= |rounds| then rounds[attempt..] else []
      invariant !created ==> Waits(bank.channels, rounds, count, attempt)
      invariant created ==> |bank.channels| == count && FirstEmpty(bank.channels) > 0
      invariant created ==> FirstUpAt(bank.channels, rounds, count, k)
    {
      NextRound(rounds, todo, attempt);
      var round := if todo == [] then SILENT else todo[0];
      todo := if todo == [] then [] else todo[1..];
      ghost var before := bank.channels;
      AskAgain(bank, count, round.accepted, Flat(round.pumps) + (round.last + ToCome(todo)));
      PumpRound(bank, round, count, round.last + ToCome(todo));
      if round.cancelled {
        GivenUp(before, rounds, count, attempt);
        return false;
      }
      Decides(bank.channels, Names(before), rounds, count, attempt);
      var ready := bank.ChannelsReady();
      created := ready >= count || (attempt >= FULL_ROUNDS && ready > 0);
      if !created {
        ghost var ids := Names(bank.channels);
        Pump(bank, round.last, ToCome(todo));
        GoesOn(before, ids, bank.channels, rounds, count, attempt);
      } else {
        k := attempt;
        GoesUp(before, bank.channels, rounds, count, attempt);
        FreshDrops(bank.channels, round.last, ToCome(todo));
      }
      attempt := attempt + 1;
    }
    if !created { GivenUp(bank.channels, rounds, count, attempt); }
  }

  // Before round k: nobody has given up, no round found enough, and the bank holds what has been granted.
  ghost predicate Waits(channels: seq<ChannelState>, rounds: seq<Round>, count: nat, k: nat) {
    && (k > 0 ==> |channels| == count)
    && Names(channels) == Cut(GrantedIds(Before(rounds, k)), count)
    && forall j: nat :: j < k ==> !At(rounds, j).cancelled && !EnoughAt(rounds, count, j)
  }

  ghost predicate FirstUpAt(channels: seq<ChannelState>, rounds: seq<Round>, count: nat, k: nat) {
    && UpAt(rounds, count, k) && (forall j: nat :: j < k ==> !UpAt(rounds, count, j))
    && Names(channels) == Cut(GrantedBy(rounds, k), count)
  }

  lemma Opens(channels: seq<ChannelState>, rounds: seq<Round>, count: nat)
    requires FirstEmpty(channels) == 0
    ensures Waits(channels, rounds, count, 0) && rounds[0..] == rounds
  {
  }

  lemma NextRound(rounds: seq<Round>, todo: seq<Round>, k: nat)
    requires todo == if k <= |rounds| then rounds[k..] else []
    ensures At(rounds, k) == if todo == [] then SILENT else todo[0]
    ensures var rest := if todo == [] then [] else todo[1..];
            && rest == (if k + 1 <= |rounds| then rounds[k + 1..] else [])
            && ToCome(todo) == Flat(At(rounds, k).pumps) + (At(rounds, k).last + ToCome(rest))
  {
  }

  lemma Gathers(had: seq<Response>, more: seq<Response>, ids: seq<string>, count: nat)
    requires ids == Cut(Cut(GrantedIds(had), count) + GrantedIds(more), count)
    ensures ids == Cut(GrantedIds(had + more), count)
  {
    hide Cut, GrantedIds;
    CutAgain(GrantedIds(had), GrantedIds(more), count);
    GrantedConcat(had, more);
  }

  // What the bank shows after the short pumps of round k decides as the responses themselves do.
  lemma Decides(channels: seq<ChannelState>, had: seq<string>, rounds: seq<Round>, count: nat, k: nat)
    requires count >= 1 && had == Cut(GrantedIds(Before(rounds, k)), count)
    requires Names(channels) == Cut(had + GrantedIds(Short(At(rounds, k))), count)
    ensures Names(channels) == Cut(GrantedBy(rounds, k), count)
    ensures EnoughAt(rounds, count, k)
        <==> FirstEmpty(channels) >= count || (k >= FULL_ROUNDS && FirstEmpty(channels) > 0)
  {
    hide Names, FirstEmpty, Before, Short, GrantedIds;
    Gathers(Before(rounds, k), Short(At(rounds, k)), Names(channels), count);
  }

  lemma NoneSoFar(channels: seq<ChannelState>, rounds: seq<Round>, count: nat, k: nat, j: nat)
    requires Waits(channels, rounds, count, k) && j < k
    ensures !UpAt(rounds, count, j)
  {
    hide EnoughAt, At, Names, Cut, Before;
  }

  lemma GoesUp(before: seq<ChannelState>, channels: seq<ChannelState>, rounds: seq<Round>, count: nat, k: nat)
    requires k < ATTEMPTS && Waits(before, rounds, count, k)
    requires !At(rounds, k).cancelled && EnoughAt(rounds, count, k)
    requires Names(channels) == Cut(GrantedBy(rounds, k), count)
    ensures FirstUpAt(channels, rounds, count, k)
  {
    hide EnoughAt, At, Names, Cut, Before, GrantedBy;
    forall j: nat | j < k ensures !UpAt(rounds, count, j) { NoneSoFar(before, rounds, count, k, j); }
  }

  lemma GoesOn(before: seq<ChannelState>, ids: seq<string>, channels: seq<ChannelState>, rounds: seq<Round>,
               count: nat, k: nat)
    requires Waits(before, rounds, count, k) && !At(rounds, k).cancelled && !EnoughAt(rounds, count, k)
    requires ids == Cut(GrantedBy(rounds, k), count) && |channels| == count
    requires Names(channels) == Cut(ids + GrantedIds(At(rounds, k).last), count)
    ensures Waits(channels, rounds, count, k + 1)
  {
    hide EnoughAt, At, Names, Cut, Short, GrantedIds;
    Gathers(Before(rounds, k) + Short(At(rounds, k)), At(rounds, k).last, Names(channels), count);
  }

  lemma GivenUp(channels: seq<ChannelState>, rounds: seq<Round>, count: nat, k: nat)
    requires Waits(channels, rounds, count, k) && (k == ATTEMPTS || At(rounds, k).cancelled)
    ensures forall j: nat :: !UpAt(rounds, count, j)
  {
    hide EnoughAt, At, Names, Cut, Before;
    forall j: nat ensures !UpAt(rounds, count, j) {
      if j < k { NoneSoFar(channels, rounds, count, k, j); }
    }
  }

  // The whole bank is asked for again while no channel has come.
  method AskAgain(bank: Bank, count: nat, accepted: bool, ghost rest: seq<Response>)
    requires bank.Valid() && 1 <= count <= MAX_CHANNELS && Fresh(bank.channels, rest)
    modifies bank`want, bank`channels
    ensures bank.Valid() && Fresh(bank.channels, rest)
    ensures Names(bank.channels) == Names(old(bank.channels))
    ensures |bank.channels| == if FirstEmpty(old(bank.channels)) == 0 then count else |old(bank.channels)|
  {
    hide Fresh, Resized;
    var ready := bank.ChannelsReady();
    if ready == 0 {
      FreshResized(bank.channels, count, rest);
      var ok, asked := bank.CreateChannels(count, accepted);
    }
  }
}
