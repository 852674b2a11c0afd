/**
 The seam between the paced transmit thread and the channel bank: src/app/main.cpp:409-469. One call a
 tick composes and sends one frame per live slot. Whether the voice gate is open, and what each
 latched feed yields, are inputs of the tick; the key and ready masks are read once, as the code does.
 */
module ChannelBankSink {
  import opened ChannelMix
  import opened Options
  import RealArithmetic
  import TalkbackChannels

  const FRAME_SAMPLES := 960

  // Everything one tick depends on besides the gains.
  datatype Tick = Tick(voice: Frame, voiceActive: bool, keys: set<nat>, feedTargets: set<nat>,
                       ready: set<nat>, feeds: map<nat, Frame>)

  datatype Handed = Handed(slot: nat, id: string, frame: Frame)

  ghost predicate WellFormed(t: Tick) {
    |t.voice| == FRAME_SAMPLES && forall s :: s in t.feeds ==> |t.feeds[s]| == FRAME_SAMPLES
  }

  // ----- the reference: what one slot gets, from its own gain -------------------------------------------

  function Live(t: Tick): set<nat> {
    (t.keys + t.feedTargets) * t.ready
  }

  function VoiceFor(t: Tick, slot: nat): Option<Frame> {
    if slot in t.keys then Some(t.voice) else None
  }

  function FeedFor(t: Tick, slot: nat): Option<Frame> {
    if slot in t.feedTargets && slot in t.feeds then Some(t.feeds[slot]) else None
  }

  predicate Sends(t: Tick, slot: nat) {
    slot in Live(t) && (VoiceFor(t, slot).Some? || FeedFor(t, slot).Some?)
  }

  function DuckFor(t: Tick, slot: nat): real {
    Target(VoiceFor(t, slot), FeedFor(t, slot), t.voiceActive)
  }

  function SlotGain(g: real, t: Tick, slot: nat, step: real): real {
    if Sends(t, slot) then GainAfter(g, DuckFor(t, slot), step, FRAME_SAMPLES) else g
  }

  ghost function SlotFrame(g: real, t: Tick, slot: nat, step: real): Option<Frame>
    requires WellFormed(t)
  {
    if Sends(t, slot)
    then Some(Mixed(VoiceFor(t, slot), FeedFor(t, slot), g, DuckFor(t, slot), step, FRAME_SAMPLES))
    else None
  }

  // Gains after the slots below n have been served.
  function GainsBelow(gains: seq<real>, t: Tick, step: real, n: nat): (r: seq<real>)
    ensures |r| == |gains|
  {
    seq(|gains|, s requires 0 <= s < |gains| => if s < n then SlotGain(gains[s], t, s, step) else gains[s])
  }

  // What is handed to Zoom for the slots below n, in slot order.
  ghost function HandedBelow(gains: seq<real>, ids: seq<string>, t: Tick, step: real, n: nat): seq<Handed>
    requires n <= |gains| && n <= |ids| && WellFormed(t)
  {
    if n == 0 then []
    else
      var frame := SlotFrame(gains[n - 1], t, n - 1, step);
      HandedBelow(gains, ids, t, step, n - 1) + if frame.Some? then [Handed(n - 1, ids[n - 1], frame.value)] else []
  }

  // ----- the sink ---------------------------------------------------------------------------------------

  class Sink {
    const bank: TalkbackChannels.Bank
    const mixer: Mixer

    ghost predicate Valid()
      reads mixer.gain, bank`sendIds
    {
      mixer.Valid() && bank.sendIds.Length == TalkbackChannels.MAX_CHANNELS
    }

    constructor (b: TalkbackChannels.Bank, m: Mixer)
      requires m.Valid() && b.sendIds.Length == TalkbackChannels.MAX_CHANNELS
      ensures Valid() && bank == b && mixer == m
    {
      bank, mixer := b, m;
    }

    // One slot's turn.
    method ServeSlot(t: Tick, slot: nat, accepted: set<nat>) returns (handed: Option<Handed>, ok: bool)
      requires Valid() && WellFormed(t) && slot < TalkbackChannels.MAX_CHANNELS
      requires bank.readyMask == t.ready
      modifies mixer.gain, bank`sendFailures, bank`channelSends, bank`sentMask
      ensures Valid()
      ensures var g := old(mixer.gain[..])[slot];
              && mixer.gain[..] == old(mixer.gain[..])[slot := SlotGain(g, t, slot, mixer.step)]
              && (handed.Some? <==> SlotFrame(g, t, slot, mixer.step).Some?)
              && (handed.Some? ==>
                    handed.value == Handed(slot, bank.sendIds[slot], SlotFrame(g, t, slot, mixer.step).value))
      ensures ok <==> handed.Some? && slot in accepted
      ensures bank.channelSends == old(bank.channelSends) + if ok then 1 else 0
      ensures bank.sendFailures == old(bank.sendFailures) + if handed.Some? && !ok then 1 else 0
      ensures bank.sentMask == old(bank.sentMask) + if ok then {slot} else {}
    {
      hide Mixed, GainAfter, Target;
      if slot !in Live(t) { return None, false; }
      var feed := FeedFor(t, slot);
      var out := mixer.Compose(slot, VoiceFor(t, slot), feed, t.voiceActive, FRAME_SAMPLES);
      if out.None? { return None, false; }
      var asked;
      ok, asked := bank.SendToSlot(slot, slot in accepted);
      handed := Some(Handed(slot, asked.value.id, out.value));
    }

    /**
     One tick. Every slot that is keyed or fed, and ready, and has something to say gets exactly its own
     frame, in slot order; the tick fails only when something was refused and nothing accepted.
     */
    method Send(voice: Frame, voiceActive: bool, feedTargets: set<nat>, feeds: map<nat, Frame>, accepted: set<nat>)
      returns (ok: bool, handed: seq<Handed>)
      requires Valid()
      requires WellFormed(Tick(voice, voiceActive, bank.keyMask, feedTargets, bank.readyMask, feeds))
      modifies mixer.gain, bank`sendFailures, bank`channelSends, bank`sentMask
      ensures Valid()
      ensures var t := Tick(voice, voiceActive, bank.keyMask, feedTargets, bank.readyMask, feeds);
              && handed == HandedBelow(old(mixer.gain[..]), bank.sendIds[..], t, mixer.step, TalkbackChannels.MAX_CHANNELS)
              && mixer.gain[..] == GainsBelow(old(mixer.gain[..]), t, mixer.step, TalkbackChannels.MAX_CHANNELS)
      ensures var t := Tick(voice, voiceActive, bank.keyMask, feedTargets, bank.readyMask, feeds);
              forall s :: 0 <= s < SLOTS ==>
                mixer.gain[s] == if s < 16 then SlotGain(old(mixer.gain[..])[s], t, s, mixer.step)
                                 else old(mixer.gain[..])[s]
      ensures ok <==> handed == [] || exists i :: 0 <= i < |handed| && handed[i].slot in accepted
      ensures bank.channelSends + bank.sendFailures == old(bank.channelSends + bank.sendFailures) + |handed|
      ensures bank.sentMask == old(bank.sentMask) + Taken(handed, accepted)
    {
      hide SlotFrame, SlotGain, Sends, Taken;
      NothingTaken(accepted);
      var t := Tick(voice, voiceActive, bank.keyMask, feedTargets, bank.readyMask, feeds);
      ghost var gains := mixer.gain[..];
      handed := [];
      if Live(t) == {} {
        NothingLive(gains, bank.sendIds[..], t, mixer.step, TalkbackChannels.MAX_CHANNELS);
        GainsAre(gains, t, mixer.step, mixer.gain[..]);
        return true, [];
      }
      var sent, failed := 0, false;
      GainsAtStart(gains, t, mixer.step);
      for s := 0 to TalkbackChannels.MAX_CHANNELS
        invariant Valid() && bank.sendIds[..] == old(bank.sendIds[..])
        invariant mixer.gain[..] == GainsBelow(gains, t, mixer.step, s)
        invariant handed == HandedBelow(gains, bank.sendIds[..], t, mixer.step, s)
        invariant sent > 0 <==> AnyAccepted(handed, accepted)
        invariant failed || sent > 0 || handed == []
        invariant failed ==> handed != []
        invariant sent >= 0
        invariant bank.channelSends + bank.sendFailures == old(bank.channelSends + bank.sendFailures) + |handed|
        invariant bank.sentMask == old(bank.sentMask) + Taken(handed, accepted)
      {
        hide GainsBelow;
        GainsNext(gains, t, mixer.step, s);
        var h, accepts := ServeSlot(t, s, accepted);
        if h.Some? {
          AnyAcceptedSnoc(handed, h.value, accepted);
          AcceptedSnoc(handed, h.value, accepted);
          handed := handed + [h.value];
          if accepts { sent := sent + 1; } else { failed := true; }
        }
      }
      ok := sent > 0 || !failed;
      GainsAre(gains, t, mixer.step, mixer.gain[..]);
    }
  }

  ghost predicate AnyAccepted(handed: seq<Handed>, accepted: set<nat>) {
    exists i :: 0 <= i < |handed| && handed[i].slot in accepted
  }

  lemma AnyAcceptedSnoc(handed: seq<Handed>, h: Handed, accepted: set<nat>)
    ensures AnyAccepted(handed + [h], accepted) <==> AnyAccepted(handed, accepted) || h.slot in accepted
  {
    if AnyAccepted(handed, accepted) {
      var i :| 0 <= i < |handed| && handed[i].slot in accepted;
      assert (handed + [h])[i].slot in accepted;
    }
    if h.slot in accepted { assert (handed + [h])[|handed|].slot in accepted; }
  }

  // The slots whose frame Zoom took.
  function Taken(handed: seq<Handed>, accepted: set<nat>): set<nat> {
    set h | h in handed && h.slot in accepted :: h.slot
  }

  lemma NothingTaken(accepted: set<nat>)
    ensures Taken([], accepted) == {}
  {
  }

  lemma AcceptedSnoc(handed: seq<Handed>, h: Handed, accepted: set<nat>)
    ensures Taken(handed + [h], accepted) == Taken(handed, accepted) + if h.slot in accepted then {h.slot} else {}
  {
  }

  lemma GainsAtStart(gains: seq<real>, t: Tick, step: real)
    ensures GainsBelow(gains, t, step, 0) == gains
  {
    hide SlotGain;
  }

  lemma GainsAre(gains: seq<real>, t: Tick, step: real, after: seq<real>)
    requires |gains| == SLOTS && after == GainsBelow(gains, t, step, TalkbackChannels.MAX_CHANNELS)
    ensures |after| == SLOTS
    ensures forall s :: 0 <= s < SLOTS ==> after[s] == if s < 16 then SlotGain(gains[s], t, s, step) else gains[s]
  {
    hide SlotGain;
  }

  lemma GainsNext(gains: seq<real>, t: Tick, step: real, n: nat)
    requires n < |gains|
    ensures GainsBelow(gains, t, step, n)[n] == gains[n]
    ensures GainsBelow(gains, t, step, n)[n := SlotGain(gains[n], t, n, step)] == GainsBelow(gains, t, step, n + 1)
  {
    hide SlotGain;
  }

  lemma {:induction false} NothingLive(gains: seq<real>, ids: seq<string>, t: Tick, step: real, n: nat)
    requires n <= |gains| && n <= |ids| && WellFormed(t) && Live(t) == {}
    ensures HandedBelow(gains, ids, t, step, n) == [] && GainsBelow(gains, t, step, n) == gains
  {
    if n > 0 { NothingLive(gains, ids, t, step, n - 1); }
  }

  // ----- a slot's view of a run ----------------------------------------------------------------------------

  // What one slot was handed in one tick.
  function FrameFor(slot: nat, handed: seq<Handed>): Option<Frame> {
    if handed == [] then None
    else
      var n := |handed| - 1;
      if handed[n].slot == slot then Some(handed[n].frame) else FrameFor(slot, handed[..n])
  }

  lemma {:induction false} NotHandedYet(slot: nat, gains: seq<real>, ids: seq<string>, t: Tick, step: real, n: nat)
    requires n <= slot && n <= |gains| && n <= |ids| && WellFormed(t)
    ensures FrameFor(slot, HandedBelow(gains, ids, t, step, n)) == None
  {
    if n > 0 {
      hide SlotFrame;
      NotHandedYet(slot, gains, ids, t, step, n - 1);
      FrameForSnoc(slot, HandedBelow(gains, ids, t, step, n - 1), ids[n - 1], n - 1, SlotFrame(gains[n - 1], t, n - 1, step));
    }
  }

  lemma FrameForSnoc(slot: nat, handed: seq<Handed>, id: string, at: nat, frame: Option<Frame>)
    ensures FrameFor(slot, handed + if frame.Some? then [Handed(at, id, frame.value)] else [])
         == if frame.Some? && at == slot then frame else FrameFor(slot, handed)
  {
    if frame.Some? {
      var more := handed + [Handed(at, id, frame.value)];
      assert more[..|more| - 1] == handed;
    } else {
      assert handed + [] == handed;
    }
  }

  // However many slots are served, each gets the frame of its own gain and inputs.
  lemma {:induction false} OwnFrame(slot: nat, gains: seq<real>, ids: seq<string>, t: Tick, step: real, n: nat)
    requires slot < n <= |gains| && n <= |ids| && WellFormed(t)
    ensures FrameFor(slot, HandedBelow(gains, ids, t, step, n)) == SlotFrame(gains[slot], t, slot, step)
    decreases n
  {
    hide SlotFrame;
    FrameForSnoc(slot, HandedBelow(gains, ids, t, step, n - 1), ids[n - 1], n - 1, SlotFrame(gains[n - 1], t, n - 1, step));
    if slot == n - 1 {
      NotHandedYet(slot, gains, ids, t, step, n - 1);
    } else {
      OwnFrame(slot, gains, ids, t, step, n - 1);
    }
  }

  // What is handed over: each slot that has a frame, once, in slot order, that frame under that slot's own id.
  ghost predicate EachOnce(handed: seq<Handed>, gains: seq<real>, ids: seq<string>, t: Tick, step: real, n: nat)
    requires n <= |gains| && n <= |ids| && WellFormed(t)
  {
    && (forall i :: 0 <= i < |handed| ==>
          var slot := handed[i].slot;
          slot < n && handed[i].id == ids[slot] && SlotFrame(gains[slot], t, slot, step) == Some(handed[i].frame))
    && (forall i, j :: 0 <= i < j < |handed| ==> handed[i].slot < handed[j].slot)
    && (forall slot: nat :: slot < n && SlotFrame(gains[slot], t, slot, step).Some? ==>
          exists i :: 0 <= i < |handed| && handed[i].slot == slot)
  }

  lemma OneMoreSlot(handed: seq<Handed>, gains: seq<real>, ids: seq<string>, t: Tick, step: real, n: nat)
    requires n < |gains| && n < |ids| && WellFormed(t) && EachOnce(handed, gains, ids, t, step, n)
    ensures var frame := SlotFrame(gains[n], t, n, step);
            EachOnce(handed + if frame.Some? then [Handed(n, ids[n], frame.value)] else [], gains, ids, t, step, n + 1)
  {
    hide SlotFrame;
    var frame := SlotFrame(gains[n], t, n, step);
    var more := handed + if frame.Some? then [Handed(n, ids[n], frame.value)] else [];
    assert forall i :: 0 <= i < |handed| ==> more[i] == handed[i];
    forall slot: nat | slot < n + 1 && SlotFrame(gains[slot], t, slot, step).Some?
      ensures exists i :: 0 <= i < |more| && more[i].slot == slot
    {
      if slot < n {
        var i :| 0 <= i < |handed| && handed[i].slot == slot;
        assert more[i].slot == slot;
      } else {
        assert more[|handed|].slot == slot;
      }
    }
  }

  lemma NextHanded(gains: seq<real>, ids: seq<string>, t: Tick, step: real, n: nat)
    requires 0 < n <= |gains| && n <= |ids| && WellFormed(t)
    ensures var frame := SlotFrame(gains[n - 1], t, n - 1, step);
            HandedBelow(gains, ids, t, step, n)
            == HandedBelow(gains, ids, t, step, n - 1) + if frame.Some? then [Handed(n - 1, ids[n - 1], frame.value)] else []
  {
    hide SlotFrame;
  }

  lemma NoneHanded(gains: seq<real>, ids: seq<string>, t: Tick, step: real)
    requires WellFormed(t)
    ensures EachOnce(HandedBelow(gains, ids, t, step, 0), gains, ids, t, step, 0)
  {
    hide SlotFrame;
  }

  lemma {:induction false} HandedIs(gains: seq<real>, ids: seq<string>, t: Tick, step: real, n: nat)
    requires n <= |gains| && n <= |ids| && WellFormed(t)
    ensures EachOnce(HandedBelow(gains, ids, t, step, n), gains, ids, t, step, n)
  {
    hide SlotFrame, EachOnce, HandedBelow;
    if n > 0 {
      HandedIs(gains, ids, t, step, n - 1);
      OneMoreSlot(HandedBelow(gains, ids, t, step, n - 1), gains, ids, t, step, n - 1);
      NextHanded(gains, ids, t, step, n);
    } else {
      NoneHanded(gains, ids, t, step);
    }
  }

  // The ticks of a run, one after another: what a slot is handed in each.
  ghost function StreamOf(slot: nat, gains: seq<real>, ids: seq<string>, ticks: seq<Tick>, step: real): seq<Option<Frame>>
    requires TalkbackChannels.MAX_CHANNELS <= |gains| && TalkbackChannels.MAX_CHANNELS <= |ids|
    requires forall i :: 0 <= i < |ticks| ==> WellFormed(ticks[i])
    decreases |ticks|
  {
    if ticks == [] then []
    else
      [FrameFor(slot, HandedBelow(gains, ids, ticks[0], step, TalkbackChannels.MAX_CHANNELS))]
      + StreamOf(slot, GainsBelow(gains, ticks[0], step, TalkbackChannels.MAX_CHANNELS), ids, ticks[1..], step)
  }

  ghost predicate NeverKeyed(slot: nat, ticks: seq<Tick>) {
    forall i :: 0 <= i < |ticks| ==> slot !in ticks[i].keys
  }

  // Two runs that may differ in what the operator says, and in nothing else.
  ghost predicate SameButVoice(one: seq<Tick>, other: seq<Tick>) {
    && |one| == |other|
    && forall i :: 0 <= i < |one| ==>
      one[i].(voice := [], voiceActive := false) == other[i].(voice := [], voiceActive := false)
  }

  lemma UnkeyedSlot(slot: nat, g: real, one: Tick, other: Tick, step: real)
    requires WellFormed(one) && WellFormed(other) && slot !in one.keys
    requires one.(voice := [], voiceActive := false) == other.(voice := [], voiceActive := false)
    ensures SlotFrame(g, one, slot, step) == SlotFrame(g, other, slot, step)
    ensures SlotGain(g, one, slot, step) == SlotGain(g, other, slot, step)
  {
    hide GainAfter, Mixed;
  }

  /** A slot that is never keyed hears nothing of the operator: its frames are the same whatever is said. */
  lemma {:induction false} VoiceStaysOut(slot: nat, gains: seq<real>, gains': seq<real>, ids: seq<string>,
                                         one: seq<Tick>, other: seq<Tick>, step: real)
    requires |gains| == |gains'| == SLOTS && |ids| == TalkbackChannels.MAX_CHANNELS
    requires slot < TalkbackChannels.MAX_CHANNELS && gains[slot] == gains'[slot]
    requires forall i :: 0 <= i < |one| ==> WellFormed(one[i])
    requires forall i :: 0 <= i < |other| ==> WellFormed(other[i])
    requires SameButVoice(one, other) && NeverKeyed(slot, one)
    ensures StreamOf(slot, gains, ids, one, step) == StreamOf(slot, gains', ids, other, step)
    decreases |one|
  {
    if one != [] {
      hide SlotFrame, SlotGain, HandedBelow, FrameFor;
      OwnFrame(slot, gains, ids, one[0], step, TalkbackChannels.MAX_CHANNELS);
      OwnFrame(slot, gains', ids, other[0], step, TalkbackChannels.MAX_CHANNELS);
      UnkeyedSlot(slot, gains[slot], one[0], other[0], step);
      VoiceStaysOut(slot, GainsBelow(gains, one[0], step, TalkbackChannels.MAX_CHANNELS),
                    GainsBelow(gains', other[0], step, TalkbackChannels.MAX_CHANNELS), ids, one[1..], other[1..], step);
    }
  }

  lemma UnkeyedFeed(slot: nat, t: Tick, step: real)
    requires WellFormed(t) && slot !in t.keys
    ensures SlotFrame(1.0, t, slot, step) == if slot in t.ready then FeedFor(t, slot) else None
    ensures SlotGain(1.0, t, slot, step) == 1.0
  {
    hide GainAfter, Mixed;
    if FeedFor(t, slot).Some? { FeedAlone(t.feeds[slot], step); }
  }

  /** And what it does hear is its feed, sample for sample. */
  lemma {:induction false} FeedArrivesExactly(slot: nat, gains: seq<real>, ids: seq<string>, ticks: seq<Tick>, step: real, i: nat)
    requires |gains| == SLOTS && |ids| == TalkbackChannels.MAX_CHANNELS
    requires slot < TalkbackChannels.MAX_CHANNELS && gains[slot] == 1.0 && i < |ticks|
    requires forall i :: 0 <= i < |ticks| ==> WellFormed(ticks[i])
    requires NeverKeyed(slot, ticks)
    ensures |StreamOf(slot, gains, ids, ticks, step)| == |ticks|
    ensures StreamOf(slot, gains, ids, ticks, step)[i] == if slot in ticks[i].ready then FeedFor(ticks[i], slot) else None
    decreases |ticks|
  {
    hide SlotFrame, SlotGain, HandedBelow, FrameFor;
    var next := GainsBelow(gains, ticks[0], step, TalkbackChannels.MAX_CHANNELS);
    OwnFrame(slot, gains, ids, ticks[0], step, TalkbackChannels.MAX_CHANNELS);
    UnkeyedFeed(slot, ticks[0], step);
    StreamLength(slot, next, ids, ticks[1..], step);
    if i > 0 { FeedArrivesExactly(slot, next, ids, ticks[1..], step, i - 1); }
  }

  lemma {:induction false} StreamLength(slot: nat, gains: seq<real>, ids: seq<string>, ticks: seq<Tick>, step: real)
    requires TalkbackChannels.MAX_CHANNELS <= |gains| && TalkbackChannels.MAX_CHANNELS <= |ids|
    requires forall i :: 0 <= i < |ticks| ==> WellFormed(ticks[i])
    ensures |StreamOf(slot, gains, ids, ticks, step)| == |ticks|
    decreases |ticks|
  {
    if ticks != [] {
      hide HandedBelow, FrameFor;
      StreamLength(slot, GainsBelow(gains, ticks[0], step, TalkbackChannels.MAX_CHANNELS), ids, ticks[1..], step);
    }
  }

  /** What a slot is handed, from the tick itself: nothing unless it is ready and keyed, or ready and fed; else the
      operator if it is keyed, and its own feed along the ramp, which goes down only under a flowing voice. */
  lemma SlotFrameIs(g: real, t: Tick, slot: nat, step: real)
    requires WellFormed(t) && step > 0.0
    ensures var keyed, fed := slot in t.keys, slot in t.feedTargets && slot in t.feeds;
            var voice, feed := if keyed then Some(t.voice) else None, if fed then Some(t.feeds[slot]) else None;
            var target := if keyed && fed && t.voiceActive then 0.3 else 1.0;
            && (SlotFrame(g, t, slot, step).Some? <==> slot in t.ready && (keyed || fed))
            && (SlotFrame(g, t, slot, step).Some? ==>
                  RampedMix(SlotFrame(g, t, slot, step).value, voice, feed, g, target, step, FRAME_SAMPLES))
            && SlotGain(g, t, slot, step)
               == if slot in t.ready && (keyed || fed) then RampedTo(g, target, step, FRAME_SAMPLES) else g
  {
    hide GainAfter, Mixed, RampedMix, RampedTo;
    if Sends(t, slot) {
      MixedIs(VoiceFor(t, slot), FeedFor(t, slot), g, DuckFor(t, slot), step, FRAME_SAMPLES);
      GainIs(g, DuckFor(t, slot), step, FRAME_SAMPLES);
    }
  }

  /** With the sink's ramp of 50 ms at 48 kHz, any barge has settled within 1680 samples. */
  lemma BargeSettles(g: real, target: real, step: real, n: nat)
    requires step * 2400.0 == 1.0 && InRange(g) && InRange(target) && n >= 1680
    ensures GainAfter(g, target, step, n) == target
  {
    assert RealArithmetic.Product(n as real, step) >= 0.7 by { assert n as real * step >= 1680.0 * step; }
    GainSettles(g, target, step, n);
  }
}
