/**
 From the capture callback to the meeting: the accumulator (src/audio/engine.cpp:107-166), the ring and the
 pacer, in one run. The signal chain between accumulator and ring is a parameter: any step that keeps its own
 state from frame to frame.
 */
module Transport {
  import opened FrameAccumulator
  import opened FrameRing
  import opened TxPacer

  datatype Chain<!S> = Chain(first: S, step: (S, seq<real>) -> (S, seq<int>))

  // ----- the reference: what the stream is turned into -------------------------------------------------

  // The chain's state once it has seen these frames.
  function StateAfter<S>(c: Chain<S>, frames: seq<Frame>): S {
    if frames == [] then c.first
    else
      var n := |frames| - 1;
      c.step(StateAfter(c, frames[..n]), frames[n].samples).0
  }

  // The k-th frame as it enters the ring: unmarked, numbered by its place in the stream.
  function TxOf<S>(c: Chain<S>, frames: seq<Frame>, k: nat): TxFrame
    requires k < |frames|
  {
    TxFrame(c.step(StateAfter(c, frames[..k]), frames[k].samples).1,
            frames[k].start / FrameAccumulator.FRAME_SAMPLES, -1, 0, false)
  }

  function TxAll<S>(c: Chain<S>, frames: seq<Frame>): seq<TxFrame> {
    seq(|frames|, k requires 0 <= k < |frames| => TxOf(c, frames, k))
  }

  lemma TxGrows<S>(c: Chain<S>, frames: seq<Frame>, more: seq<Frame>)
    ensures TxAll(c, frames) <= TxAll(c, frames + more)
  {
    forall k | 0 <= k < |frames| ensures TxOf(c, frames + more, k) == TxOf(c, frames, k) {
      assert (frames + more)[..k] == frames[..k];
    }
  }

  lemma TxSnoc<S>(c: Chain<S>, frames: seq<Frame>, f: Frame)
    ensures var made := c.step(StateAfter(c, frames), f.samples);
            && StateAfter(c, frames + [f]) == made.0
            && TxAll(c, frames + [f])
               == TxAll(c, frames) + [TxFrame(made.1, f.start / FrameAccumulator.FRAME_SAMPLES, -1, 0, false)]
  {
    TxGrows(c, frames, [f]);
    assert (frames + [f])[..|frames|] == frames;
  }

  // ----- the producer -----------------------------------------------------------------------------------

  class Producer<S> {
    const chain: Chain<S>
    const accumulator: Accumulator
    var state: S

    ghost predicate Valid()
      reads this, accumulator, accumulator.partial
    {
      accumulator.Valid() && state == StateAfter(chain, accumulator.emitted)
    }

    constructor (c: Chain<S>)
      ensures Valid() && fresh(accumulator) && fresh(accumulator.partial)
      ensures chain == c && accumulator.stream == [] && accumulator.emitted == []
    {
      chain, state := c, c.first;
      accumulator := new Accumulator();
    }

    // One capture callback: each frame it completes goes through the chain.
    method OnCapture(block: seq<real>) returns (out: seq<TxFrame>)
      requires Valid()
      modifies this, accumulator, accumulator.partial
      ensures Valid() && accumulator.partial == old(accumulator.partial)
      ensures accumulator.stream == old(accumulator.stream) + block
      ensures TxAll(chain, accumulator.emitted) == TxAll(chain, old(accumulator.emitted)) + out
    {
      hide TxAll, StateAfter;
      ghost var before := accumulator.emitted;
      var frames := accumulator.Push(block);
      out := [];
      assert before + frames[..0] == before;
      assert TxAll(chain, before) + out == TxAll(chain, before);
      for i := 0 to |frames|
        invariant accumulator.Valid() && accumulator.partial == old(accumulator.partial)
        invariant accumulator.stream == old(accumulator.stream) + block && accumulator.emitted == before + frames
        invariant state == StateAfter(chain, before + frames[..i])
        invariant TxAll(chain, before + frames[..i]) == TxAll(chain, before) + out
      {
        TxSnoc(chain, before + frames[..i], frames[i]);
        assert before + frames[..i] + [frames[i]] == before + frames[..i + 1];
        var made := chain.step(state, frames[i].samples);
        var f := TxFrame(made.1, frames[i].start / FrameAccumulator.FRAME_SAMPLES, -1, 0, false);
        assert TxAll(chain, before) + out + [f] == TxAll(chain, before) + (out + [f]);
        state, out := made.0, out + [f];
      }
      assert before + frames[..|frames|] == before + frames;
    }

    // The callbacks between two ticks.
    method OnCaptures(blocks: seq<seq<real>>) returns (out: seq<TxFrame>)
      requires Valid()
      modifies this, accumulator, accumulator.partial
      ensures Valid() && accumulator.partial == old(accumulator.partial)
      ensures accumulator.stream == old(accumulator.stream) + Joined(blocks)
      ensures TxAll(chain, accumulator.emitted) == TxAll(chain, old(accumulator.emitted)) + out
    {
      hide TxAll;
      out := [];
      for i := 0 to |blocks|
        invariant Valid() && accumulator.partial == old(accumulator.partial)
        invariant accumulator.stream == old(accumulator.stream) + Joined(blocks[..i])
        invariant TxAll(chain, accumulator.emitted) == TxAll(chain, old(accumulator.emitted)) + out
      {
        assert blocks[..i + 1][..i] == blocks[..i];
        Associates(old(accumulator.stream), Joined(blocks[..i]), blocks[i]);
        var more := OnCapture(blocks[i]);
        Associates(TxAll(chain, old(accumulator.emitted)), out, more);
        out := out + more;
      }
      assert blocks[..|blocks|] == blocks;
    }
  }

  function Joined(blocks: seq<seq<real>>): seq<real> {
    if blocks == [] then [] else Joined(blocks[..|blocks| - 1]) + blocks[|blocks| - 1]
  }

  // ----- the run -------------------------------------------------------------------------------------------

  // What the outside does around one tick: a moment of the pacer, with capture blocks for frames.
  datatype Beat = Beat(blocks: seq<seq<real>>, readings: seq<int>, lag: nat, canSend: bool, handover: nat,
                       accepted: bool)

  // Every sample captured.
  function Heard(beats: seq<Beat>): seq<real> {
    if beats == [] then [] else Heard(beats[..|beats| - 1]) + Joined(beats[|beats| - 1].blocks)
  }

  ghost predicate OfBeat(m: Moment, b: Beat) {
    m.readings == b.readings && m.lag == b.lag && m.canSend == b.canSend && m.handover == b.handover
    && m.accepted == b.accepted
  }

  ghost predicate OfBeats(moments: seq<Moment>, beats: seq<Beat>) {
    |moments| == |beats| && forall k :: 0 <= k < |beats| ==> OfBeat(moments[k], beats[k])
  }

  function MomentOf(b: Beat, arrivals: seq<TxFrame>): Moment {
    Moment(b.readings, b.lag, arrivals, b.canSend, b.handover, b.accepted)
  }

  lemma BeatSnoc(moments: seq<Moment>, beats: seq<Beat>, i: nat, arrivals: seq<TxFrame>)
    requires i < |beats| && OfBeats(moments, beats[..i])
    ensures Heard(beats[..i + 1]) == Heard(beats[..i]) + Joined(beats[i].blocks)
    ensures var more := moments + [MomentOf(beats[i], arrivals)];
            OfBeats(more, beats[..i + 1]) && ArrivalsOf(more) == ArrivalsOf(moments) + arrivals
  {
    assert beats[..i + 1][..i] == beats[..i];
    assert (moments + [MomentOf(beats[i], arrivals)])[..i] == moments;
  }

  lemma BeatsEnd(beats: seq<Beat>)
    ensures beats[..|beats|] == beats && beats[..0] == []
    ensures Heard([]) == [] && ArrivalsOf([]) == [] && OfBeats([], [])
  {
  }

  // The moments of a run: each brings the frames its own callbacks complete.
  method Gather<S>(producer: Producer<S>, beats: seq<Beat>) returns (moments: seq<Moment>)
    requires producer.Valid() && producer.accumulator.stream == [] && producer.accumulator.emitted == []
    modifies producer, producer.accumulator, producer.accumulator.partial
    ensures producer.Valid() && producer.accumulator.stream == Heard(beats)
    ensures OfBeats(moments, beats)
    ensures ArrivalsOf(moments) == TxAll(producer.chain, producer.accumulator.emitted)
  {
    hide *;
    moments := [];
    BeatsEnd(beats);
    NoFrames(producer.chain);
    for i := 0 to |beats|
      invariant producer.Valid() && producer.accumulator.partial == old(producer.accumulator.partial)
      invariant producer.accumulator.stream == Heard(beats[..i])
      invariant OfBeats(moments, beats[..i])
      invariant ArrivalsOf(moments) == TxAll(producer.chain, producer.accumulator.emitted)
    {
      var out := producer.OnCaptures(beats[i].blocks);
      BeatSnoc(moments, beats, i, out);
      moments := moments + [MomentOf(beats[i], out)];
    }
  }

  lemma NoFrames<S>(c: Chain<S>)
    ensures TxAll(c, []) == []
  {
  }

  // A frame of the stream as the pacer sees it.
  function TxAt<S>(c: Chain<S>, stream: seq<real>, k: nat): TxFrame
    requires k < |FramesOf(stream)|
  {
    TxOf(c, FramesOf(stream), k)
  }

  function SliceOf(stream: seq<real>, k: nat): seq<real>
    requires 960 * k + 960 <= |stream|
  {
    stream[960 * k..960 * k + 960]
  }

  // The chain's states over the slices of the stream, one after another.
  ghost predicate StepsThrough<S(!new)>(c: Chain<S>, stream: seq<real>, states: seq<S>, k: nat) {
    && |states| == k + 1 && 960 * k + 960 <= |stream| && states[0] == c.first
    && forall i :: 0 <= i < k ==> states[i + 1] == c.step(states[i], SliceOf(stream, i)).0
  }

  lemma {:induction false} StateIs<S(!new)>(c: Chain<S>, stream: seq<real>, states: seq<S>, k: nat)
    requires StepsThrough(c, stream, states, k)
    ensures k < |FramesOf(stream)| && StateAfter(c, FramesOf(stream)[..k]) == states[k]
  {
    var frames := FramesOf(stream);
    if k > 0 {
      StateIs(c, stream, states[..k], k - 1);
      assert frames[..k][..k - 1] == frames[..k - 1];
      assert frames[k - 1] == FrameAt(stream, k - 1);
      assert states[k] == c.step(states[k - 1], SliceOf(stream, k - 1)).0;
    }
  }

  /** What the pacer sees as the k-th frame: the k-th 960 samples, rendered by the chain in the state that all the
      samples before have left it in, under their number and without a mark. */
  lemma RenderedInTurn<S(!new)>(c: Chain<S>, stream: seq<real>, states: seq<S>, k: nat)
    requires StepsThrough(c, stream, states, k)
    ensures k < |FramesOf(stream)|
    ensures TxAt(c, stream, k) == TxFrame(c.step(states[k], SliceOf(stream, k)).1, k, -1, 0, false)
  {
    StateIs(c, stream, states, k);
    assert FramesOf(stream)[k] == FrameAt(stream, k);
  }

  lemma {:induction false} UnmarkedEmitNothing(log: seq<Record>)
    requires forall f :: f in PoppedOf(log) ==> f.markId < 0
    ensures EmissionsOf(log) == []
    decreases |log|
  {
    if log != [] {
      var n := |log| - 1;
      assert log[n].frame.Some? ==> PoppedOf(log)[|PoppedOf(log)| - 1] == log[n].frame.value;
      assert forall f :: f in PoppedOf(log[..n]) ==> f in PoppedOf(log);
      UnmarkedEmitNothing(log[..n]);
    }
  }

  lemma HandedOver<S>(producer: Producer<S>)
    requires producer.Valid()
    ensures producer.accumulator.emitted == FramesOf(producer.accumulator.stream)
  {
    var accumulator := producer.accumulator;
    SplitDoesNotMatter(accumulator.stream, accumulator.emitted, FramesOf(accumulator.stream));
  }

  // Rendered slices of the stream at these places, which only move forward.
  ghost predicate InOrder<S>(c: Chain<S>, stream: seq<real>, got: seq<TxFrame>, places: seq<nat>) {
    && |places| == |got| && Increasing(places, |FramesOf(stream)|)
    && forall i :: 0 <= i < |got| ==> got[i] == TxAt(c, stream, places[i])
  }

  // Everything pushed, told apart into what the pacer popped, what was dropped and what is still queued.
  lemma Traced<S>(c: Chain<S>, stream: seq<real>, ring: Ring<TxFrame>)
    requires ring.Valid() && ring.pushed == TxAll(c, FramesOf(stream))
    ensures |Taken(ring.gone)| + ring.drops + ring.count == |stream| / FrameAccumulator.FRAME_SAMPLES
    ensures InOrder(c, stream, Taken(ring.gone), Places(ring.gone))
  {
    hide Stored;
    Conserved(ring);
    TakenInOrder(ring.gone);
    var places := Places(ring.gone);
    forall i | 0 <= i < |places| ensures Taken(ring.gone)[i] == TxAt(c, stream, places[i]) {
      assert ring.pushed[places[i]] == Frames(ring.gone)[places[i]];
    }
  }

  lemma NothingMarked<S>(c: Chain<S>, stream: seq<real>, log: seq<Record>, places: seq<nat>)
    requires InOrder(c, stream, PoppedOf(log), places)
    ensures EmissionsOf(log) == []
  {
    forall f | f in PoppedOf(log) ensures f.markId < 0 {
      var i :| 0 <= i < |PoppedOf(log)| && PoppedOf(log)[i] == f;
      assert f == TxAt(c, stream, places[i]);
    }
    UnmarkedEmitNothing(log);
  }

  // What is asked of the beats is what the pacer asks of the moments.
  lemma BeatsPass(moments: seq<Moment>, beats: seq<Beat>, start: int)
    requires OfBeats(moments, beats)
    requires forall k :: 0 <= k < |beats| ==> Passes(beats[k].readings, Target(start, k + 1))
    ensures |moments| == |beats|
    ensures forall k :: 0 <= k < |moments| ==> Passes(moments[k].readings, Target(start, k + 1))
  {
    hide Passes;
    forall k | 0 <= k < |moments| ensures Passes(moments[k].readings, Target(start, k + 1)) {
      assert OfBeat(moments[k], beats[k]);
    }
  }

  lemma NothingQueued<T(0)>(ring: Ring<T>)
    requires ring.Valid() && ring.pushed == []
    ensures ring.queue == []
  {
  }

  lemma FromNothing<T>(s: seq<T>)
    ensures Taken<T>([]) == [] && [] + s == s && s + [] == s
  {
  }

  /**
   However the callbacks cut the stream, whatever the clock and the sink do: each frame the pacer takes is one
   complete, aligned 20 ms slice of the stream, rendered by the chain in the state all slices before it left,
   numbered by its place; places only move forward; and every slice was taken, dropped or is still queued. The
   sink is handed those frames, or silence, on the open ticks, and nothing is reported as marked. (The producer
   never looks at the ring, so its frames may be worked out first.)
   */
  method Transmit<S>(producer: Producer<S>, ring: Ring<TxFrame>, pacer: Pacer, start: int, beats: seq<Beat>)
    returns (log: seq<Record>, moments: seq<Moment>)
    requires producer.Valid() && producer.accumulator.stream == [] && producer.accumulator.emitted == []
    requires ring.Valid() && ring.pushed == [] && ring.gone == []
    requires forall k :: 0 <= k < |beats| ==> Passes(beats[k].readings, Target(start, k + 1))
    modifies producer, producer.accumulator, producer.accumulator.partial, ring, ring.buf, pacer
    ensures ring.Valid() && ring.pushed == TxAll(producer.chain, FramesOf(Heard(beats)))
    ensures OfBeats(moments, beats) && Follows(start, [], ring.buf.Length, moments, log, |moments|)
    ensures |PoppedOf(log)| + ring.drops + ring.count == |Heard(beats)| / FrameAccumulator.FRAME_SAMPLES
    ensures InOrder(producer.chain, Heard(beats), PoppedOf(log), Places(ring.gone))
    ensures pacer.stats == Tally(old(pacer.stats), log)
    ensures pacer.sent == old(pacer.sent) + SentOf(log) && pacer.emissions == old(pacer.emissions)
  {
    hide *;
    moments := Gather(producer, beats);
    HandedOver(producer);
    BeatsPass(moments, beats, start);
    NothingQueued(ring);
    log := pacer.Run(ring, start, moments);
    FromNothing(ring.pushed);
    FromNothing(PoppedOf(log));
    FromNothing(old(pacer.emissions));
    Traced(producer.chain, Heard(beats), ring);
    NothingMarked(producer.chain, Heard(beats), log, Places(ring.gone));
  }
}
