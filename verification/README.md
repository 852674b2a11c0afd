# ZComms: a verified model of the talkback station's core

ZComms is an intercom station for a Zoom meeting: one operator, up to sixteen private audio channels, and
a small team of background policies that keep the right people in the right channels. This project is
a Dafny model of its decision-making and signal-processing core, with proofs. Time, the SDK's answers and
the devices are inputs; nothing is assumed of them beyond what is said below. `dafny verify
dfyconfig.toml` checks everything.

| module | what it models |
|---|---|
| `TalkbackChannels`, `BankInterleaving`, `BringUp` | the channel bank as a class, as a step machine of pump callbacks, key exchanges and audio sends interleaving freely, and the retries that bring it up |
| `Eligibility`, `AutoAssign`, `Housekeeping`, `Balance` | who may be placed, who is placed where, who keeps their place, and how even that leaves the channels |
| `Healer`, `HealerPacing`, `HealerFairness`, `HealerMemory`, `HealerBackoff`, `HealerConvergence` | the one-call-a-pass repair of memberships, and what it remembers |
| `Station`, `Arrival` | placing, healing and Zoom's confirmations as one run: nobody strays, and everybody who arrives gets in |
| `RoomPlan`, `RoomReplan` | the breakout planner, and planning again after any part of a plan took effect |
| `DuckPlan` | paced background-volume calls |
| `SignalProtocol`, `SignalRoundTrip` | the chat signal printer, its hand-written scanner, and what survives the 512-byte buffer |
| `ExternFeed`, `Base64Url`, `Decimal` | the feed printers and parsers, the two base64url encoders, decimal text |
| `SlidingMinimum`, `Limiter` | the monotonic deque, the look-ahead limiter and the ramped gain |
| `FrameAccumulator`, `FrameRing`, `TxPacer`, `Transport`, `ChannelMix`, `ChannelBankSink` | the audio path from capture blocks to one frame per channel per tick, stage by stage and as one run |
| `Timebase`, `TimebaseSlope`, `Vectors`, `Correlator`, `Probe` | the latency measurement: least squares, matched filter, accounting |
| `DiagSplitter`, `LogParts`, `LogRecord`, `DiagPump` | the diagnostic stream, its cycling log files, and the record of all that is written to them |
| `Modulo`, `Powers`, `RealArithmetic`, `CText`, `Options` | remainders, powers of two, products and quotients of reals, C strings and integers, optional values |

Each loop and stateful class modelled is a method or class here, proved equal to a recursive
specification; the theorems are about the specification, over every input, run or reachable state.

Where the code and its documentation disagree, the model follows the code and the difference is a theorem:

- The limiter's header says the look-ahead is what makes the ceiling a guarantee. The window and the delay
  line have the same length, so a peak leaves the line one sample after its requirement left the window.
  In every stream the last of the loudest samples, if above the ceiling, is still above it at the clamp
  (`Limiter.LookaheadMissesByOne`); the clamp acts exactly when some input was above the ceiling
  (`Limiter.ClampActsIff`).
- The healer's comment announces waits of 5 to 60 seconds. The refusal count is advanced before it is used,
  so the first refused invitation waits 10 (`HealerFairness.InviteBackoff`).
- Removals are said to get the same backoff as invitations. A removal starts a wait exactly when it was refused
  (`HealerBackoff.RemovalWaitsIff`); an accepted one is due again at once (`HealerBackoff.AcceptedRemovalRepeats`)
  and, until confirmed, the healer is back at that slot within one tour (`HealerBackoff.BackWithinATour`).
- A wait is meant to last. Outside breakouts housekeeping drops the waits of people it does not see, and any change
  of the breakout rooms drops them all; so a wait lasts exactly as long as no look misses the person, the rooms
  stay as they are, and no pass sees the wish met (`HealerBackoff.WaitSurvivesIff`). After a change whoever was just called about is due again at
  once, though there all along (`HealerBackoff.FlushForgets`).
- Passes are paced at 600 ms because Zoom's limit is per call. A change of the rooms opens the guard at once, so the
  next pass comes after it or after 600 ms, whichever is first (`HealerPacing.NextPassIff`).
- Notes about dropped console lines are meant to come once a second at most. The millisecond counter has 32 bits and
  the mark wraps with it: around a wrap two notes can come together, and after it none may for weeks; exactly when is
  `DiagPump.NotesApartIff`.
- A channel's limit of ten is checked against confirmed members, one list at a time. It holds, whatever part of
  what is in flight Zoom confirms, exactly when members and everybody in flight are ten at most
  (`TalkbackChannels.LimitKeptIff`); two lists that each pass can break it (`TalkbackChannels.InvitesInFlightOverfill`).
- The planner's header says a converged state plans nothing. Before the session starts it plans the request
  to start (`RoomReplan.WholePlanConverges`).
- The duck planner is meant to forget a slot whose channel is gone. It forgets it exactly when some scan gets past
  it (`DuckPlan.MissedIff`, and a run from a fresh planner, `DuckPlan.RecreatedChannelMissed`). This concerns the
  planner's interface alone: the application never takes a channel's ready bit away.
- Absent people's intent is dropped because ids are recycled, but the mark that they were placed stays: whoever
  comes back, or comes under a recycled id, is placed again exactly if a pass has shown them ineligible in between
  (`Housekeeping.PlacedAgainIff`).
- Channels are meant to be shared only once there are more people than channels. Nobody is moved when people leave,
  so two can share a channel beside an empty one (`Balance.DeparturesUnbalance`); after a pass the channels are even
  exactly when it places enough newcomers (`Balance.EvenAfterIff`).
- The flush handshake is said to be acknowledged once everything before it is consumed. It is acknowledged only
  if no partial line was pending (`DiagSplitter.SentinelSeenIff`).

## Model

| member | source | states |
|---|---|---|
| `TalkbackChannels.CreatedKeeps` | src/zoom/talkback_channels.cpp:233-253 | a creation response fills exactly the next slot; with fresh ids the ready slots stay a prefix with distinct ids, and none is lost |
| `TalkbackChannels.JoinedKeeps` | src/zoom/talkback_channels.cpp:261-280 | a join response keeps the bank well formed, listener counts included, and the ready slots as they were |
| `TalkbackChannels.LeftKeeps` | src/zoom/talkback_channels.cpp:282-296 | the same for a leave response |
| `TalkbackChannels.JoinThenLeave` | src/zoom/talkback_channels.cpp:261-296 | a confirmed join adds the person to that channel and no other, and a confirmed leave restores the whole bank |
| `TalkbackChannels.MembersAfter` | src/zoom/talkback_channels.cpp:261-296 | exactly who is a member after an answer: a join adds that person to the first channel with that id if Zoom said yes or already there, a leave takes them out if Zoom said yes; refusals and unknown ids change nothing |
| `TalkbackChannels.LimitKeptIff` | src/zoom/talkback_channels.cpp:124-130 | whatever part of the people in flight is confirmed, in whatever order, at most ten are members, if and only if members and in flight together are ten at most |
| `TalkbackChannels.InviteLists` | src/zoom/talkback_channels.cpp:112-137 | for any lists sent one after another: who is in flight afterwards - everybody on a list that Zoom took and that with the confirmed members was ten at most - and exactly when the limit is safe |
| `TalkbackChannels.InvitesInFlightOverfill` | src/zoom/talkback_channels.cpp:112-130 | with nine members two single invitations, through the bank's own check, are both sent, and the limit is no longer safe |
| `TalkbackChannels.CallsExactlyLive` | src/zoom/talkback_channels.cpp:197-219 | the fan-out's calls are exactly the live slots, once each, in slot order, under the snapshot's ids |
| `TalkbackChannels.Bank.CreateChannels` | src/zoom/talkback_channels.cpp:31-58 | one request for an allowed count; slots there keep what they hold and the bank has that many; anything else leaves it untouched |
| `TalkbackChannels.Bank.ChannelsReady` | src/zoom/talkback_channels.cpp:60-67 | as many are ready as ids have been handed out |
| `TalkbackChannels.Bank.RefreshSendIds` | src/zoom/talkback_channels.cpp:76-85 | the audio thread's ids and ready mask become the bank's; slots beyond it keep their ids |
| `TalkbackChannels.Bank.InviteMany` | src/zoom/talkback_channels.cpp:112-137 | one call for the whole list or none: exactly when the slot is ready and confirmed members plus the list are at most ten |
| `TalkbackChannels.Bank.Remove` | src/zoom/talkback_channels.cpp:139-156 | one call for any existing slot, with that slot's id |
| `TalkbackChannels.Bank.SetKey` | src/zoom/talkback_channels.cpp:158-166 | however often the compare-exchange on the shared mask is beaten or fails for no reason, the update lands on the mask the others left last, and only its own bit changes |
| `TalkbackChannels.Bank.ApplyKeys` | src/app/main.cpp:2150-2157 | on the bank's slots, keyed means latched, held or all-called; other slots keep their bit |
| `TalkbackChannels.Bank.SendToSlot` | src/zoom/talkback_channels.cpp:181-195 | no call for a slot that is not ready; otherwise one call, counted as sent or failed |
| `TalkbackChannels.Bank.SendToKeyed` | src/zoom/talkback_channels.cpp:197-219 | one call for each slot keyed and ready, and every call counted once |
| `TalkbackChannels.Bank.OnCreateChannelResponse` | src/zoom/talkback_channels.cpp:233-253 | the next slot takes a new id and the snapshot follows; a refusal changes only the last error |
| `TalkbackChannels.Bank.OnChannelUserJoinResponse` | src/zoom/talkback_channels.cpp:261-280 | the member set of the channel with that id, and only it, gains the person; the last error is set exactly by a refusal for a known channel |
| `TalkbackChannels.Bank.OnChannelUserLeaveResponse` | src/zoom/talkback_channels.cpp:282-296 | the member set of the channel with that id, and only it, loses the person |
| `BankInterleaving.RunKeepsInv` | src/zoom/talkback_channels.cpp:76-85 | every interleaving of callbacks, snapshot rewriting, key exchanges, fan-outs and sends to one slot keeps the bank's invariant |
| `BankInterleaving.BankIsSafe` | src/zoom/talkback_channels.cpp:76-296 | in every reachable state ready slots are a prefix with distinct ids, a ready bit implies the snapshot holds that slot's id, and listener counts are set sizes |
| `BankInterleaving.NoKeyUpdateLost` | src/zoom/talkback_channels.cpp:158-166 | every finished key change took effect exactly once and the mask is their fold in exchange order |
| `BankInterleaving.KeyedMeansLastPressed` | src/zoom/talkback_channels.cpp:160-165 | a slot is keyed exactly when the last exchange that touched it pressed the key |
| `BankInterleaving.FanOutIsExact` | src/zoom/talkback_channels.cpp:197-219 | a fan-out calls exactly once for each slot keyed and ready when the masks were read, under that channel's own id, whatever else runs meanwhile |
| `BankInterleaving.SlotSendIsExact` | src/zoom/talkback_channels.cpp:181-195 | a send to one slot, its ready bit read before the lock, uses that channel's own id, whatever the pump did in between |
| `BankInterleaving.ReadyStays` | src/zoom/talkback_channels.cpp:233-253 | no slot that is ready ever stops being ready |
| `BringUp.CreateBank` | src/app/main.cpp:1316-1370 | the station goes on if and only if, in one of 120 rounds, none given up so far, the ids granted by then reach the count, or from the third round on are any at all; the bank then holds the ids granted by the first such round, in the order they came |
| `BringUp.PumpRound` | src/app/main.cpp:1325-1335 | a hundred short pumps, fewer once the bank is full: each granted id takes the next slot while there is one |
| `BringUp.Pump` | src/zoom/talkback_channels.cpp:233-253 | the ids handed out grow by one for each granted response, up to the size of the bank |
| `Eligibility.CanAssignTalkback` | src/zoom/talkback_eligibility.h:24-33 | the first roster entry with the id decides: it must support talkback and not bear the station's name; an unknown id or slot is refused |
| `Eligibility.PruneIneligibleTalkbackIntent` | src/zoom/talkback_eligibility.h:35-47 | exactly the people the roster shows ineligible lose intent and mark |
| `Eligibility.EligibleChannelMembers` | src/zoom/talkback_eligibility.h:49-58 | members stay unless some roster entry shows them ineligible; absence is no evidence |
| `AutoAssign.SlotLoad` | src/app/main.cpp:1562-1569 | the load is the number of distinct people intended, or confirmed and not shown ineligible by any entry |
| `AutoAssign.PickSlot` | src/app/main.cpp:1576-1582 | the scan that stops at an empty slot finds what the full scan finds |
| `AutoAssign.LeastIsLeast` | src/app/main.cpp:1576-1582 | that is the first ready slot no other ready slot undercuts |
| `AutoAssign.AssignNewcomers` | src/app/main.cpp:1570-1596 | one pass over the roster refines the step-by-step assignment |
| `Housekeeping.Housekeep` | src/app/main.cpp:1531-1596 | one pass, both prunes and the assignment, through the eligibility module's own prune, is the specified pass |
| `Housekeeping.NewcomersAreAssigned` | src/app/main.cpp:1570-1596 | with a bank that came up every eligible person first seen on a pass gets one channel on that pass |
| `Housekeeping.SeenKeepOrLose` | src/app/main.cpp:1531-1550 | one pass, one person seen before: all channels kept or all lost, and which; the mark goes only when shown ineligible |
| `Housekeeping.KeptIff` | src/app/main.cpp:1531-1596 | over any run a person keeps exactly their channel if and only if no pass shows them ineligible, or misses them outside breakouts |
| `Housekeeping.PlacedAgainIff` | src/app/main.cpp:1531-1575 | over any run a person seen before is placed again if and only if a pass shows them ineligible and a later one eligible |
| `Balance.EvenAfterIff` | src/app/main.cpp:1531-1596 | after a pass ready loads differ by at most one if and only if it places at least as many newcomers as the prune left places to fill |
| `Balance.AssignmentIsFair` | src/app/main.cpp:1531-1596 | after any run from nothing in which nobody seen leaves or turns ineligible, ready loads differ by at most one, nobody shares while a ready slot is empty, nobody has two channels |
| `Balance.DeparturesUnbalance` | src/app/main.cpp:1538-1550 | four arrive, the two on one channel leave: the loads are none and two |
| `Healer.MembershipHealer.ScanOne` | src/app/main.cpp:1614-1647 | the roster loop collects exactly who is due at one slot and forgets the waits of those wanted and there |
| `Healer.MembershipHealer.HealPass` | src/app/main.cpp:1609-1677 | one pass, through the bank's own calls, is the specified pass: backoff, rotation and call; and Zoom is asked just that, about the channel by its id, unless the batch does not fit |
| `Healer.MembershipHealer.Tick` | src/app/main.cpp:1607-1678 | a pass exactly when its time has come and a channel is ready, and then the next waits 600 ms; otherwise nothing changes and nothing is asked |
| `Healer.MembershipHealer.ForgetAbsent` | src/app/main.cpp:1544-1554 | outside breakouts exactly the waits of people not on the roster are dropped |
| `Healer.MembershipHealer.FlushWaits` | src/app/main.cpp:1839-1843 | a change of the rooms drops every wait and opens the guard |
| `HealerPacing.PassesApart` | src/app/main.cpp:1607-1608 | over any run two passes between which the rooms do not change are 600 ms apart |
| `HealerPacing.NextPassIff` | src/app/main.cpp:1607-1842 | after a pass, with a ready channel, the next comes if and only if the rooms have changed since or 600 ms are over |
| `HealerPacing.GuardOnlySkips` | src/app/main.cpp:1607-1608 | the guarded loop makes the same calls and ends in the same state as its effective steps without the guard |
| `HealerFairness.CallIsJustified` | src/app/main.cpp:1618-1647 | at most one call a pass; everyone invited is on the roster, eligible, intended, not a member and in the station's room; everyone removed is an unwanted member in the room |
| `HealerFairness.IdleMeansNothingDue` | src/app/main.cpp:1612-1677 | a pass without a call means no slot had anybody due |
| `HealerFairness.NoSlotStarves` | src/app/main.cpp:1612-1677 | over any run holding as many passes as slots every slot is served or had nobody due, whatever waits elsewhere, whatever is refused, whoever housekeeping forgets and however often the rooms change |
| `HealerFairness.ScanRespectsBackoff` | src/app/main.cpp:1630-1646 | with distinct ids nobody is invited or removed before their backoff is over |
| `HealerFairness.InviteBackoff` | src/app/main.cpp:1654-1664 | the k-th refusal in a row waits 10, 20, 40, then 60 seconds; an accepted invitation resets the count and waits 10 |
| `HealerMemory.PassForgets` | src/app/main.cpp:1609-1677 | of those a pass does not call about exactly the entries go whose slot it looked at and whose person it found wanted and there; every other entry stays as it was and none appears |
| `HealerMemory.PassRewrites` | src/app/main.cpp:1649-1673 | exactly what becomes of the entries of those it does call about, by kind of call and answer |
| `HealerMemory.MetAreForgotten` | src/app/main.cpp:1623-1628 | after a pass that serves a slot, or calls nobody, nobody wanted and there has an entry at it |
| `HealerMemory.CallIsComplete` | src/app/main.cpp:1618-1673 | an invitation is for everybody due at its slot, in roster order; a removal is for the first due, and only when nobody there is to be invited |
| `HealerMemory.DueMeans` | src/app/main.cpp:1618-1646 | who is due for an invitation or a removal, from the roster entry, the intent, the confirmed members, the breakout list and the waits themselves |
| `HealerBackoff.NotAskedAgainSoon` | src/app/main.cpp:1544-1673 | over any run of passes and worlds in which no housekeeping look misses the person and the rooms do not change, nobody invited is asked for again within ten seconds unless confirmed meanwhile, nor a refused removal repeated within thirty |
| `HealerBackoff.WaitSurvivesIff` | src/app/main.cpp:1544-1843 | until its time a wait stays untouched through a run if and only if no pass looks at the slot and finds the person wanted and there, no housekeeping look outside breakouts misses them and the rooms never change |
| `HealerBackoff.MetThenDue` | src/app/main.cpp:1623-1646 | once a pass has seen a wish met the person is due the moment that changes, at any time, until asked about |
| `HealerBackoff.AbsenceForgets` | src/app/main.cpp:1551-1554 | somebody missed at one look and wanted again is due at once |
| `HealerBackoff.FlushForgets` | src/app/main.cpp:1839-1843 | in every world and state, after any call and then a change of the rooms, everybody the call was about is due again at once |
| `HealerBackoff.CallBacksOff` | src/app/main.cpp:1654-1673 | every invitation, and every refused removal, starts a wait for exactly the person asked for |
| `HealerBackoff.AcceptedRemovalRepeats` | src/app/main.cpp:1667-1673 | in every world and state an accepted removal leaves its slot with somebody due again from the same moment on |
| `HealerBackoff.RemovalWaitsIff` | src/app/main.cpp:1667-1673 | a removal starts a wait of thirty seconds if and only if it was refused |
| `HealerBackoff.BackWithinATour` | src/app/main.cpp:1607-1678 | until an accepted removal is confirmed the healer serves that slot again within one tour of passes, whatever comes between them |
| `HealerConvergence.HealingCountsDown` | src/app/main.cpp:1607-1678 | with accepted, confirmed calls every pass takes exactly one off the pending count |
| `HealerConvergence.HealingConverges` | src/app/main.cpp:1607-1678 | after as many passes as were pending everybody is exactly where they are intended and eligible, and no later pass calls at all |
| `HealerConvergence.InvitationFits` | src/zoom/talkback_channels.cpp:124-128 | ten seats for members and wanted together mean the batch is never refused as too big |
| `Station.NobodyStrays` | src/app/main.cpp:1531-1678 | from empty channels, over every run of housekeeping, passes, confirmations, departures and room changes in which nobody placed is lost sight of, whatever Zoom answers: loads stay even, nobody has two channels, nobody is ever in a channel but their own |
| `Arrival.EverybodyArrives` | src/app/main.cpp:1531-1678 | however people arrive, ten a channel at most all together, with calls taken and confirmed: one pass a channel after the last arrival everybody eligible is in exactly one channel, nobody else in any, sizes differ by one at most, and no later pass calls |
| `Arrival.SeatsSuffice` | src/app/main.cpp:1562-1596 | with even loads and ten people a channel all together no channel is assigned more than ten |
| `Arrival.PromptIsPlayed` | src/app/main.cpp:1607-1678 | a pass that Zoom takes and confirms is a pass followed by single confirmations |
| `RoomPlan.IndexRooms` | src/zoom/room_plan.cpp:12-18 | the two indexes hold the live names and the last room listing each person |
| `RoomPlan.RoomOfNameIs` | src/zoom/reach.cpp:5-12 | a person is in the first room that lists them, on the main floor if none does |
| `RoomPlan.IndexedIff` | src/zoom/room_plan.cpp:15-18 | the planner's index holds exactly the people some room lists |
| `RoomPlan.LastListingCounts` | src/zoom/room_plan.cpp:15-18 | and puts each in the last room that lists them |
| `RoomPlan.PlanRooms` | src/zoom/room_plan.cpp:8-59 | the loops compute the declarative plan |
| `RoomReplan.EffectIsSeen` | src/zoom/room_plan.cpp:12-18 | what an action does to the rooms is what it does to the planner's indexes |
| `RoomReplan.ChangesContain` | src/zoom/room_plan.cpp:22-51 | exactly the missing rooms (before the start) and the misplaced people, each with the verb that fits |
| `RoomReplan.FollowsLayout` | src/zoom/room_plan.cpp:22-51 | the plan follows the layout, room by room |
| `RoomReplan.FollowsList` | src/zoom/room_plan.cpp:22-51 | in a room's part its creation comes first and its people in their order |
| `RoomReplan.StartIff` | src/zoom/room_plan.cpp:53-57 | the start is asked for exactly before it, for a layout that wants something, once every room exists and everybody is where they are wanted |
| `RoomReplan.ChangesDrop` | src/zoom/room_plan.cpp:22-51 | one action taking effect removes exactly itself from the next plan |
| `RoomReplan.NoChangesMeansSatisfied` | src/zoom/room_plan.cpp:20-57 | before the start, nothing to change is the same as every wish met |
| `RoomReplan.Replan` | src/zoom/room_plan.h:52-54 | after any actions of the plan, in any order and number, planning again yields the rest in order, plus the start request when that was all |
| `RoomReplan.WholePlanConverges` | src/zoom/room_plan.h:52-54 | the plan can be run in its own order, and then only the start, or nothing, remains |
| `RoomReplan.SatisfiableIffOneRoomEach` | src/zoom/room_plan.cpp:32-51 | a layout can be met at all exactly when it wants nobody in two rooms |
| `RoomReplan.StartedPlanPlaces` | src/zoom/room_plan.cpp:42-49 | once started, everyone wanted in an existing room ends up there |
| `DuckPlan.DuckPlanner.NextCall` | src/zoom/duck_plan.cpp:5-21 | the scan picks the first wrong slot, forgets what it passed over, and paces |
| `DuckPlan.DuckPlanner.ConfirmCall` | src/zoom/duck_plan.cpp:23-27 | a confirmed volume is known from then on; a slot out of range changes nothing |
| `DuckPlan.FailSilences` | src/zoom/duck_plan.cpp:5-31 | after a refusal no pass of the next two seconds changes anything, and the first pass after them calls exactly when some slot is wrong |
| `DuckPlan.AnswerMeans` | src/zoom/duck_plan.cpp:5-21 | an idle answer outside the pacing window means every ready slot is known to be right, at 0.2 while active and 1 otherwise; a call is for the first ready slot that is not, with that volume |
| `DuckPlan.CallsArePaced` | src/zoom/duck_plan.cpp:5-31 | over any run calls are 300 ms apart and 2000 ms after any earlier refusal |
| `DuckPlan.EveryCallCounts` | src/zoom/duck_plan.cpp:5-27 | with fixed masks and accepted calls, wrong slots left plus calls made is constant |
| `DuckPlan.NeverIdlesEarly` | src/zoom/duck_plan.cpp:7-20 | outside the pacing window a call is made exactly while some slot is wrong |
| `DuckPlan.ForgottenIff` | src/zoom/duck_plan.cpp:8-18 | a vanished slot is forgotten exactly when not pacing and no lower slot needs a call |
| `DuckPlan.MissedIff` | src/zoom/duck_plan.cpp:8-18 | a slot gone over any stretch of passes is still held for correct afterwards if and only if no scan got past it |
| `DuckPlan.RecreatedChannelMissed` | src/zoom/duck_plan.cpp:5-21 | from a fresh planner, a run in which a channel vanishes and comes back and nothing is sent for it |
| `SignalProtocol.JsonEscape` | src/zoom/signal_protocol.cpp:11-19 | the loop shields every quote and backslash, and nothing else |
| `SignalProtocol.EncodeSignal` | src/zoom/signal_protocol.cpp:71-83 | the printed line, names up to their first NUL, cut at 511 characters |
| `SignalProtocol.GetString` | src/zoom/signal_protocol.cpp:30-42 | the scanner reads up to the first unshielded quote, and nothing if there is none |
| `SignalProtocol.DecodeSignal` | src/zoom/signal_protocol.cpp:85-102 | decoding of any content at all, unknown kinds and missing fields included |
| `SignalProtocol.OursIff` | src/zoom/signal_protocol.cpp:85-102 | a text is ours exactly when it has the prefix and a known kind; what it leaves out has its default |
| `SignalRoundTrip.NoKeyInName` | src/zoom/signal_protocol.cpp:11-28 | no look-alike key inside an escaped name is ever taken for a key |
| `SignalRoundTrip.ReadName` | src/zoom/signal_protocol.cpp:30-42 | a cut name is read back whole if its closing quote is there and not at all otherwise |
| `SignalRoundTrip.ArrivesAs` | src/zoom/signal_protocol.cpp:71-102 | for every message: kind, slot and flag arrive exactly, each name exactly when its closing quote fits, empty otherwise |
| `SignalRoundTrip.RoundTripIff` | src/zoom/signal_protocol.cpp:71-102 | decode undoes encode exactly when no name holds a NUL and every non-empty name's closing quote fits |
| `SignalRoundTrip.NamesNeverMangled` | src/zoom/signal_protocol.cpp:71-102 | a name arrives as sent, up to a NUL, or empty; never altered |
| `ExternFeed.SpecReadsBack` | src/audio/extern_feed.cpp:13-49 | what reading a printed spec gives, for every device name and both channels, refusals included |
| `ExternFeed.SpecParsesIff` | src/audio/extern_feed.cpp:13-39 | exactly which texts describe a feed, and which: any name, the last colon, and one or two whole numbers from 1 up with nothing behind them |
| `ExternFeed.LineParsesIff` | src/audio/extern_feed.cpp:51-62 | exactly which lines do, split at their last two commas; anything but 1 is no latch |
| `ExternFeed.LineReadsBack` | src/audio/extern_feed.cpp:51-68 | the same for a whole line, with the gain at the nearest tenth |
| `ExternFeed.PrintedNearest` | src/audio/extern_feed.cpp:64-68 | the gain printed is the nearest whole tenth |
| `ExternFeed.LineRoundTripIff` | src/audio/extern_feed.cpp:51-68 | the line round trip is exact exactly for a named device, channels in range and a gain in whole tenths |
| `ExternFeed.EverydayGainFits` | src/audio/extern_feed.cpp:64-68 | a gain below 1000 dB either way fits the buffer |
| `Base64Url.BlockEncode` | src/zoom/jwt.cpp:18-46 | three bytes at a time, the tail without padding, is the bit-string definition |
| `Base64Url.AccumulatorEncode` | src/app/zoom_oauth.cpp:40-55 | one byte at a time through a 32-bit accumulator that is never masked is the same definition |
| `Base64Url.ShiftIn` | src/app/zoom_oauth.cpp:47-48 | the wrapping shift never disturbs the pending bits |
| `Base64Url.EncodersAgree` | src/app/zoom_oauth.cpp:36-56 | both encoders print the same text, of length ceil(4n/3), which decodes to the bytes |
| `Base64Url.EncodeLength` | src/zoom/jwt.cpp:22-45 | n bytes take ceil(4n/3) letters |
| `Base64Url.RoundTrip` | src/zoom/jwt.cpp:16-46 | an unpadded decoder (section 5 of RFC 4648) recovers every byte string |
| `Base64Url.EncodeInjective` | src/zoom/jwt.cpp:16-46 | different byte strings print differently |
| `SlidingMinimum.FrontIsLeast` | src/audio/limiter.cpp:68-76 | the deque's front is the smallest value of the window |
| `SlidingMinimum.Slide` | src/audio/limiter.cpp:71-74 | one sample through both loops keeps the deque's invariant; entries in plus out balance |
| `SlidingMinimum.LeastBounds` | src/audio/limiter.cpp:68-76 | the reference minimum is a value of the window and below all of them |
| `Limiter.PeakLimiter.ProcessSample` | src/audio/limiter.cpp:63-98 | deque, delay line, gain and count together give the reference output for the whole input so far; that output is the delayed sample times the gain, or the ceiling with its sign where that is more |
| `Limiter.PeakLimiter.Process` | src/audio/limiter.cpp:61-100 | the same in place, for any block sizes; the rest of the buffer is untouched; pops never exceed pushes (in the invariant) |
| `Limiter.OutputIs` | src/audio/limiter.cpp:84-96 | for every stream: the sample the look-ahead back times the gain if that is within the ceiling, else the ceiling with its sign |
| `Limiter.TargetIff` | src/audio/limiter.cpp:56-76 | the gain aimed at is the largest, up to 1, that brings every sample of the window under the ceiling, and no other |
| `Limiter.GainFalls` | src/audio/limiter.cpp:78-81 | while one requirement stands and the gain is above it, n samples leave attack^n of the distance |
| `Limiter.GainRises` | src/audio/limiter.cpp:78-81 | and below it release^n |
| `Limiter.BroughtTowards` | src/audio/limiter.cpp:74-96 | while a requirement r stands the output after n samples is at most the delayed sample times r + (1 - r) attack^n |
| `Limiter.EngagedIff` | src/audio/limiter.cpp:74-96 | a sample is counted as engaged exactly when its window holds one above the ceiling |
| `Limiter.RequiredGainMeans` | src/audio/limiter.cpp:56-59 | the required gain is the largest, up to 1, that brings the sample down to the ceiling |
| `Limiter.FallsFaster` | src/audio/limiter.cpp:78-81 | with attack no slower than release, a fall leaves no more of its distance than a rise |
| `Limiter.GainBounds` | src/audio/limiter.cpp:76-81 | the gain stays between the smallest requirement ever seen and 1 |
| `Limiter.Transparent` | src/audio/limiter.cpp:56-99 | input that never exceeds the ceiling comes out exactly, the look-ahead later, and is never counted as engaged |
| `Limiter.OutputBound` | src/audio/limiter.cpp:88-96 | output never exceeds the ceiling and never the delayed input |
| `Limiter.LookaheadMissesByOne` | src/audio/limiter.cpp:74-96 | in every stream, at every look-ahead, attack and release, the last loudest sample, if above the ceiling, reaches the clamp above it |
| `Limiter.ClampActsIff` | src/audio/limiter.cpp:61-97 | for every stream, once the look-ahead has run out the clamp has acted if and only if some input exceeded the ceiling |
| `Limiter.SmoothedGain.Process` | src/audio/limiter.cpp:33-38 | each sample is scaled by the ramp's own value at its place |
| `Limiter.RampedIs` | src/audio/limiter.cpp:33-38 | after n samples the ramp has coeff^n of its distance left |
| `Limiter.RampedInBlocks` | src/audio/limiter.cpp:33-38 | where a block ends makes no difference to the ramp |
| `Limiter.RampCloses` | src/audio/limiter.cpp:33-38 | the ramp only closes in on its target and never crosses it |
| `FrameAccumulator.Accumulator.Push` | src/audio/frame_accumulator.cpp:11-35 | the frames handed over are exactly the complete frames of the stream, the rest is carried |
| `FrameAccumulator.FramedAreSlices` | src/audio/frame_accumulator.cpp:18-33 | as many frames as are complete, 960 samples of the stream in each, under the index of the first |
| `FrameAccumulator.SplitDoesNotMatter` | src/audio/frame_accumulator.cpp:11-35 | the stream alone decides the frames, however the callbacks split it |
| `FrameRing.Ring.Push` | src/audio/frame_ring.cpp:8-18 | always succeeds; a full queue gives up exactly its oldest frame |
| `FrameRing.Ring.Pop` | src/audio/frame_ring.cpp:20-27 | the oldest frame, or nothing when empty |
| `FrameRing.Conserved` | src/audio/frame_ring.cpp:8-27 | pushed = taken + dropped + queued, always |
| `FrameRing.TakenInOrder` | src/audio/frame_ring.cpp:8-27 | what was taken is an in-order subsequence of what was pushed |
| `TxPacer.SleepUntil` | src/audio/tx_pacer.cpp:21-30 | waking never happens before the target, and at the first reading that reaches it |
| `TxPacer.Pacer.Tick` | src/audio/tx_pacer.cpp:66-124 | one tick: it wakes at the first reading past its target, takes the oldest frame queued or silence, and hands it over, or not, each thing counted once |
| `TxPacer.Pacer.Run` | src/audio/tx_pacer.cpp:59-125 | tick n aims at start + n*20 ms and never fires early; its frame is the head of what the queue keeps of all that came; counts, sends, callbacks and pops are those of the record |
| `TxPacer.PlaysInOrder` | src/audio/tx_pacer.cpp:66-76 | as long as a frame per tick has come and the queue does not run over, the n-th tick plays the n-th frame ever queued, and the first without a frame is the first for which too few have come |
| `TxPacer.SentAt` | src/audio/tx_pacer.cpp:87-103 | on the k-th open tick the sink gets that tick's frame, or 960 zeros for want of one |
| `TxPacer.EmissionAt` | src/audio/tx_pacer.cpp:102-123 | every accepted frame with a mark, and nothing else, is reported, in order, with that mark, at the handover plus the mark's samples in nanoseconds |
| `TxPacer.CountsBalance` | src/audio/tx_pacer.cpp:66-124 | ticks = sends + errors + gated = popped + underruns; callbacks only for accepted sends |
| `TxPacer.CountsMean` | src/audio/tx_pacer.cpp:78-123 | each counter is the number of ticks it is named for |
| `TxPacer.OffsetNs` | src/audio/tx_pacer.cpp:119-121 | a mark's offset in samples becomes nanoseconds, truncated, to within one |
| `TxPacer.LatenessBounds` | src/audio/tx_pacer.cpp:79-87 | the reported worst lateness bounds every tick's, and the mean never exceeds it |
| `TxPacer.LatenessIs` | src/audio/tx_pacer.cpp:71-88 | the reported mean is the total lateness over the ticks, the reported maximum some tick's own |
| `Transport.Transmit` | src/audio/engine.cpp:103-167 | however callbacks cut the stream, each frame the pacer takes is one aligned slice of it, rendered in the chain's state at that slice, at increasing places; slices = taken + dropped + queued; the sink gets those frames or silence |
| `Transport.RenderedInTurn` | src/audio/engine.cpp:107-166 | the k-th frame is the k-th 960 samples, rendered by the chain in the state all samples before have left it in, under number k and unmarked |
| `ChannelMix.Mixer.Compose` | src/audio/channel_mix.cpp:11-40 | one slot's frame and gain: each sample is the saturated sum of the voice and the feed at the ramp's own value there; nothing for a bad slot or nothing to send; no other slot's gain moves |
| `ChannelMix.MixedIs` | src/audio/channel_mix.cpp:22-37 | for all frames: sample i is mixed at max(target, g - (i + 1) step) going down, min(target, g + (i + 1) step) going up |
| `ChannelMix.NoClicks` | src/audio/channel_mix.cpp:19-37 | over a steady voice and feed no sample differs from the one before, in the frame before or this one, by more than a step of the feed and the rounding, whatever is keyed between |
| `ChannelMix.GainStays` | src/audio/channel_mix.cpp:19-30 | every slot's gain stays between the duck and 1 |
| `ChannelMix.GainCloses` | src/audio/channel_mix.cpp:22-30 | n samples take the gain n steps nearer its target, or onto it |
| `ChannelMix.GainSettles` | src/audio/channel_mix.cpp:22-30 | n samples with n steps of at least 0.7 together settle any gain |
| `ChannelMix.SaturateNear` | src/audio/channel_mix.cpp:34-36 | the conversion to 16 bits clips at the ends, moves less than a step otherwise, and never away from zero |
| `ChannelMix.BargeMixes` | src/audio/channel_mix.cpp:19-36 | under a flowing voice a settled slot plays its feed at three tenths |
| `ChannelMix.VoiceAlone` | src/audio/channel_mix.cpp:31-36 | a voice without a feed goes out sample for sample |
| `ChannelMix.FeedAlone` | src/audio/channel_mix.cpp:19-38 | a feed without a voice on a slot at rest goes out sample for sample and leaves it at rest |
| `ChannelBankSink.Sink.Send` | src/app/main.cpp:415-455 | every live slot with something to say gets exactly its own ramped frame, in slot order, and every call is counted; the tick fails only if something was refused and nothing accepted |
| `ChannelBankSink.SlotFrameIs` | src/app/main.cpp:427-448 | from the tick itself: a slot is handed something exactly when it is ready and keyed or fed, and what: the ramp's mix, going down only under a flowing voice |
| `ChannelBankSink.HandedIs` | src/app/main.cpp:436-454 | each slot with a frame is handed that frame once, in slot order, under that slot's own id |
| `ChannelBankSink.OwnFrame` | src/app/main.cpp:438-454 | what a slot is handed depends on its own gain and inputs only |
| `ChannelBankSink.VoiceStaysOut` | src/app/main.cpp:415-455 | two runs differing only in the operator's voice hand identical frames to every slot that is never keyed |
| `ChannelBankSink.FeedArrivesExactly` | src/app/main.cpp:427-448 | and those frames are that slot's feed, sample for sample |
| `ChannelBankSink.BargeSettles` | src/app/main.cpp:411-413 | with the sink's ramp any barge settles within 1680 samples |
| `Timebase.CaptureTimebase.AddAnchor` | spikes/a-tx-latency/src/timebase.cpp:10-14 | the window holds the latest anchors, as many as fit |
| `Timebase.CaptureTimebase.Fit` | spikes/a-tx-latency/src/timebase.cpp:16-46 | the two loops compute the centred fit |
| `Timebase.FitExistsIff` | spikes/a-tx-latency/src/timebase.cpp:18-39 | a fit exists exactly for at least eight anchors not all at one index |
| `Timebase.FitIsBest` | spikes/a-tx-latency/src/timebase.cpp:20-42 | no line has a smaller sum of squared residuals and no other line ties |
| `Timebase.CollinearRecovered` | spikes/a-tx-latency/src/timebase.cpp:16-46 | anchors on a line give back that line |
| `Timebase.HostIsOnTheLine` | spikes/a-tx-latency/src/timebase.cpp:48-55 | the centred evaluation is the fitted line's, up to half a nanosecond |
| `Timebase.HostFrameHost` | spikes/a-tx-latency/src/timebase.cpp:48-63 | time to index to time is the identity |
| `Timebase.FrameHostFrame` | spikes/a-tx-latency/src/timebase.cpp:48-63 | index to time to index is off by the rounding's half nanosecond at most |
| `Timebase.RateMatchesSlope` | spikes/a-tx-latency/src/timebase.cpp:65-71 | the measured rate and the fitted slope are reciprocal |
| `Timebase.FramesKeepOrder` | spikes/a-tx-latency/src/timebase.cpp:57-63 | later times never map to earlier samples |
| `TimebaseSlope.SlopeSign` | spikes/a-tx-latency/src/timebase.cpp:41-60 | on a capture stream the fitted slope is never negative, and positive exactly when the host clock moved within the window |
| `TimebaseSlope.MapsAnswerIff` | spikes/a-tx-latency/src/timebase.cpp:48-71 | with eight anchors index-to-time always answers, and time-to-index and the rate exactly when the clock moved |
| `Vectors.CauchySchwarz` | src/audio/correlator.cpp:34-42 | squared correlation never exceeds the product of the energies |
| `Vectors.FullMeansMultiple` | src/audio/correlator.cpp:34-42 | it reaches it, on a live window, exactly when the window is a nonzero multiple of the burst |
| `Correlator.Slide` | src/audio/correlator.cpp:44-50 | the running energy is the direct sum at every lag; the guard against drift never fires over reals |
| `Correlator.FindBurst` | src/audio/correlator.cpp:10-88 | the running search returns what direct sums at every lag give, early exits and the sub-sample fit included |
| `Correlator.FirstMaxMeans` | src/audio/correlator.cpp:53-55 | the peak is the first of the largest values |
| `Correlator.SidelobeMeans` | src/audio/correlator.cpp:59-63 | the sidelobe is the largest value outside the guard band |
| `Correlator.DirectBounds` | src/audio/correlator.cpp:34-42 | every normalised value lies in [0, 1], and is 1 exactly at a nonzero multiple of the burst |
| `Correlator.DirectIs` | src/audio/correlator.cpp:34-42 | a normalised value times both energies is the squared correlation; a silent window counts as zero |
| `Correlator.FindsTheBurst` | src/audio/correlator.cpp:53-87 | if the burst is anywhere, at any gain or polarity, the first such place is reported at full correlation; full correlation is reported nowhere else |
| `Correlator.FoundStandsOut` | src/audio/correlator.cpp:57-86 | a reported burst beats every lag outside its guard band by the required ratio |
| `Correlator.FoundIff` | src/audio/correlator.cpp:57-86 | exactly when a burst is reported: the peak reaches its bound and beats every lag outside its guard band by the ratio, or nothing correlates there, which counts as 999 |
| `Correlator.SearchableIff` | src/audio/correlator.cpp:14-19 | there is something to search exactly when the needle is not silent and not longer than the audio |
| `Correlator.ReportedValues` | src/audio/correlator.cpp:53-67 | the values reported with a lag are the correlation there and its ratio to the largest outside the guard band |
| `Correlator.OffsetWithinHalf` | src/audio/correlator.cpp:69-85 | the sub-sample fit moves the peak by half a sample at most |
| `Correlator.OffsetSide` | src/audio/correlator.cpp:69-82 | at an inner, not flat, peak the fit moves it later exactly when the lag after correlates better than the one before; elsewhere not at all |
| `Correlator.OffsetIsExact` | src/audio/correlator.cpp:72-82 | where the correlations around the peak lie on a downward parabola the burst is reported at its vertex |
| `Correlator.VertexNearPeak` | src/audio/correlator.cpp:74-82 | at a peak a fit is never rejected as bad |
| `Correlator.VertexIsExact` | src/audio/correlator.cpp:75-82 | three values of a downward parabola give back its vertex exactly |
| `Correlator.LevelDoesNotMatter` | src/audio/correlator.cpp:34-87 | scaling the audio by any nonzero factor changes no part of the verdict |
| `Probe.LatencyProbe.OnEmission` | spikes/a-tx-latency/src/probe.cpp:24-28 | one more emitted, one more pending |
| `Probe.LatencyProbe.OnCapture` | spikes/a-tx-latency/src/probe.cpp:30-56 | the buffer stays the most recent six seconds, base plus length is the total, and the anchor is the end of the block |
| `Probe.LatencyProbe.Search` | spikes/a-tx-latency/src/probe.cpp:121-140 | the slice searched is exactly the captured samples of its index range; the last bounds check never fails |
| `Probe.LatencyProbe.Examine` | spikes/a-tx-latency/src/probe.cpp:72-156 | the buffer's checks give the verdict that the whole stream would give |
| `Probe.LatencyProbe.Resolve` | spikes/a-tx-latency/src/probe.cpp:58-160 | every pending emission is judged once; emitted = resolved + undetected + gaps + pending afterwards; the rate is the measured one |
| `Probe.VerdictIs` | spikes/a-tx-latency/src/probe.cpp:72-156 | exactly what becomes of an emission: without a map, or before its audio has come, it waits until its deadline and is a gap from then on; out of the kept six seconds it is a gap; otherwise its window, to the sample, is searched and a hit timed by the map |
| `Probe.SettlingBalances` | spikes/a-tx-latency/src/probe.cpp:71-156 | judging a list counts or keeps each of its entries exactly once |
| `Probe.CountersMean` | spikes/a-tx-latency/src/probe.cpp:83-156 | each counter grows by exactly the verdicts it is named for |
| `Probe.SettledInOrder` | spikes/a-tx-latency/src/probe.cpp:71-158 | emissions kept and samples reported stand in the order of the emissions |
| `Probe.BestFailure` | spikes/a-tx-latency/src/probe.cpp:133-139 | the best failure on record is the strongest there was, and the first as strong |
| `Probe.NoneWaitsTooLong` | spikes/a-tx-latency/src/probe.cpp:80-111 | nothing is kept past its deadline |
| `Probe.FoundIsTimed` | spikes/a-tx-latency/src/probe.cpp:142-147 | a burst that was found is always timed |
| `Probe.HitStandsOut` | spikes/a-tx-latency/src/probe.cpp:90-156 | with the matched filter every latency reported is that of a burst that beats its whole search window outside its guard band, timed where it stands out |
| `Probe.MapMissingIff` | spikes/a-tx-latency/src/probe.cpp:79-89 | after eight captures an emission lacks a time map only while the clock stood still over the whole window |
| `DiagSplitter.Splitter.Feed` | src/app/diag_line.h:40-58 | chunks and held text are those of the whole stream so far |
| `DiagSplitter.Splitter.Drain` | src/app/diag_line.h:63-67 | the held text comes out as a line, and completes the stream |
| `DiagSplitter.ReadsDoNotMatter` | src/app/diag_line.h:40-58 | how reads cut the stream makes no difference |
| `DiagSplitter.Reproduces` | src/app/diag_line.h:40-67 | chunks plus held text are the stream |
| `DiagSplitter.Routed` | src/app/diag_line.h:12-18 | every chunk is one line, one repaint or a full buffer, and only repaints are kept from the file |
| `DiagSplitter.SentinelSeenIff` | src/app/diag_log.cpp:43-53 | the flush sentinel is recognised exactly when nothing was held before it |
| `LogParts.NamesAreDistinct` | src/app/log_parts.h:47-52 | each part has a file of its own |
| `LogRecord.WrittenKeeps` | src/app/diag_log.cpp:106-123 | one write more: its line or drop count enters the record once, a roll follows exactly when the part has filled up, and names the next part of the cycle |
| `LogRecord.LineReadsBack` | src/app/diag_log.cpp:170-178 | a line of the log is the stamp in brackets, a space, and the text, and each is told from the bytes |
| `LogRecord.DropNoteTells` | src/app/diag_log.cpp:141-146 | a drop note says how many lines went missing since the last note, then how many in all |
| `LogRecord.RollNoteTells` | src/app/diag_log.cpp:112-119 | a roll note says which part comes next |
| `LogParts.LogFile.WriteFileLine` | src/app/diag_log.cpp:106-123 | a line is appended; when it fills the part the note follows and the next part begins, or the log closes |
| `LogParts.WithinBudget` | src/app/log_parts.h:7-14 | the files never take more together than parts times (size - 1 + longest line + longest note) |
| `LogParts.NewestSurvive` | src/app/log_parts.h:7-14 | read in cycle order the files are exactly the newest parts, all but the last of them full |
| `DiagPump.Pump.Deliver` | src/app/diag_log.cpp:167-174 | the sentinel is counted and goes nowhere; everything else goes where it is routed |
| `DiagPump.Pump.NoteConsoleDrops` | src/app/diag_log.cpp:134-147 | a note exactly when the drop count moved and the 32-bit counter is not below the mark, which is then set a second on, modulo 2^32 |
| `DiagPump.NotesApartIff` | src/app/diag_log.cpp:135-140 | for every two times: the guard lets a note through exactly when a second has passed, if and only if no wrap of the counter gets in the way |
| `DiagPump.DropsAreNoted` | src/app/diag_log.cpp:134-147 | while the counter does not wrap a drop goes unnoted only while the last note is less than a second old |
| `DiagPump.Pump.Run` | src/app/diag_log.cpp:106-180 | the sinks are given what the bytes of the stream alone decide; the parts end to end are the record: every stream line, stamped, in order, once, each drop note behind the lines of the read it came with, with its numbers, and the roll notes, while opens succeed; after a failed open a prefix ending with that roll |
| `DiagPump.RunWithinBudget` | src/app/diag_log.cpp:28-29 | no run takes more than four parts of 8 MiB, each overshot by one line and one note |

## Left out

- The Zoom SDK, its adapters, the client window, roster and chat glue: every call's answer is an input, and every callback a step.
- Devices, loopback capture, WAV files, the echo canceller, the panel, the HTTP server, OAuth and token storage, HMAC, crash trap and watchdogs: input, output and foreign code.
- Floating-point rounding, and the exp, pow, cos and sqrt that produce coefficients and tables: samples are reals, coefficients are parameters, correlations are kept squared, the square root of the sub-sample fit is a parameter.
- 64-bit counters and sample indices are unbounded; so are the limiter's index and the pacer's clock.
- Slot masks are sets of slots; bits at or above the bank's size do not occur.
- Healer.MembershipHealer.HealPass: one clock reading serves a whole pass, where the code reads the clock at each comparison; log lines are left out.
- TalkbackChannels.Bank.CreateChannels: asked only while no channel has come, as the application does; ids from Zoom are non-empty and fresh.
- TalkbackChannels.Bank: the single-person invite, which nothing calls, and the background-volume call, which only forwards, are left out.
- BringUp.CreateBank: Zoom never repeats an id and answers only during a pump; the operator's progress lines are left out.
- BankInterleaving.BankIsSafe: the channel count does not change during a run.
- RoomReplan.Replan: a person is wanted in at most one room; `SatisfiableIffOneRoomEach` shows that otherwise no plan can succeed.
- RoomPlan.PlanRooms: the identity numbers of breakout rooms play no part in planning and are left out.
- Balance.AssignmentIsFair: the panel's own moves of intent are not part of the runs; people sit only where they are intended, which `Station.NobodyStrays` proves of composed runs; the ready set is fixed.
- Balance.EvenAfterIff: the same three assumptions, for one pass.
- Station.NobodyStrays: the panel's own moves of intent are not part of the runs, and no further channel comes up during one.
- Arrival.EverybodyArrives: no breakouts, whoever has been eligible stays so, and each call is taken and confirmed before the next pass.
- Housekeeping.KeptIff: roster ids are distinct, and the panel's own moves of intent are not part of the runs.
- HealerBackoff.WaitSurvivesIff: the clock is before the end of the wait; passes that find the wish met have a roster of distinct ids.
- HealerConvergence.HealingConverges: each call is accepted and confirmed before the next pass, and ten seats are enough for members and wanted together.
- SignalProtocol.DecodeSignal: a slot number outside 32 bits, which the encoder never prints, is read as an unbounded number.
- ExternFeed.LineReadsBack: a gain so large that its text is cut by the buffer, ties in rounding to a tenth, and exponents in gain text are left out.
- The feed chain's mixing, its mask coherence and drain timing: what a feed yields at each tick is an input.
- Limiter.PeakLimiter.Process: coefficients are any numbers in [0, 1).
- TxPacer.Pacer.Run: priming and the coarse sleep before the spin are left out; the emission callback is always set; producer pushes are placed between ticks, where the queue's lock would order them.
- ChannelBankSink.Sink.Send: the voice gate's decision is an input, the peak meter is left out, and the masks do not change during one call.
- Correlator.FindBurst: the guard band is given in samples.
- Probe.LatencyProbe.Resolve: the root-mean-square meter is left out; the search window's end is not before its start.
- LogParts.LogFile.WriteFileLine: writes are complete; an open that fails leaves the old file as it was.
- DiagPump.Pump.Run: the console queue's own dropping is an input count; the emergency line, written outside the parts' accounting, and the pruning of old runs are left out.
- Transport.Transmit: the processing between accumulator and ring is one parameter with a state of its own; meters and the sidetone tap are left out.
- Percentile summaries, argument and configuration parsing, names of enumerations and getters add nothing hard.
