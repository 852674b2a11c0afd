/** Re-chunking capture blocks of any size into exact 20 ms frames: src/audio/frame_accumulator.cpp. */
module FrameAccumulator {

  const FRAME_SAMPLES := 960

  datatype Frame = Frame(samples: seq<real>, start: nat)

  // The k-th frame of a stream.
  function FrameAt(stream: seq<real>, k: nat): Frame
    requires FRAME_SAMPLES * k + FRAME_SAMPLES <= |stream|
  {
    Frame(stream[FRAME_SAMPLES * k..FRAME_SAMPLES * k + FRAME_SAMPLES], FRAME_SAMPLES * k)
  }

  /** Every complete frame of the stream has been handed over, once, in order, and nothing else. */
  ghost predicate Framed(stream: seq<real>, frames: seq<Frame>) {
    && FRAME_SAMPLES * |frames| <= |stream| < FRAME_SAMPLES * |frames| + FRAME_SAMPLES
    && forall k :: 0 <= k < |frames| ==> frames[k] == FrameAt(stream, k)
  }

  // All complete frames of a stream.
  function FramesOf(stream: seq<real>): (frames: seq<Frame>)
    ensures Framed(stream, frames)
  {
    seq(|stream| / FRAME_SAMPLES, k requires 0 <= k < |stream| / FRAME_SAMPLES => FrameAt(stream, k))
  }

  /** The stream alone decides the frames, so how the callbacks split it cannot matter. */
  lemma SplitDoesNotMatter(stream: seq<real>, one: seq<Frame>, other: seq<Frame>)
    requires Framed(stream, one) && Framed(stream, other)
    ensures one == other
  {
    assert |one| == |other|;
    forall k | 0 <= k < |one| ensures one[k] == other[k] {
      assert one[k] == FrameAt(stream, k) == other[k];
    }
  }

  lemma FrameAtKeeps(stream: seq<real>, more: seq<real>, k: nat)
    requires FRAME_SAMPLES * k + FRAME_SAMPLES <= |stream|
    ensures FrameAt(stream + more, k) == FrameAt(stream, k)
  {
    assert (stream + more)[FRAME_SAMPLES * k..FRAME_SAMPLES * k + FRAME_SAMPLES]
        == stream[FRAME_SAMPLES * k..FRAME_SAMPLES * k + FRAME_SAMPLES];
  }

  lemma FramedCarries(stream: seq<real>, frames: seq<Frame>, more: seq<real>)
    requires Framed(stream, frames) && |stream| + |more| < FRAME_SAMPLES * |frames| + FRAME_SAMPLES
    ensures Framed(stream + more, frames)
  {
    forall k | 0 <= k < |frames| ensures frames[k] == FrameAt(stream + more, k) {
      FrameAtKeeps(stream, more, k);
    }
  }

  lemma FramedCompletes(stream: seq<real>, frames: seq<Frame>, more: seq<real>)
    requires Framed(stream, frames) && |stream| + |more| == FRAME_SAMPLES * |frames| + FRAME_SAMPLES
    ensures Framed(stream + more, frames + [FrameAt(stream + more, |frames|)])
  {
    forall k | 0 <= k < |frames| ensures frames[k] == FrameAt(stream + more, k) {
      FrameAtKeeps(stream, more, k);
    }
  }

  // Each frame holds its 960 samples of the stream, under the index of the first of them.
  ghost predicate AreSlices(stream: seq<real>, frames: seq<Frame>) {
    forall k :: 0 <= k < |frames| ==>
      && frames[k].start == 960 * k && 960 * k + 960 <= |stream|
      && frames[k].samples == stream[960 * k..960 * k + 960]
  }

  /** What has been handed over: as many frames as are complete, and in each its own samples of the stream. */
  lemma FramedAreSlices(stream: seq<real>, frames: seq<Frame>)
    requires Framed(stream, frames)
    ensures AreSlices(stream, frames)
    ensures |frames| == |stream| / 960
  {
    forall k | 0 <= k < |frames| ensures frames[k] == FrameAt(stream, k) {}
  }

  lemma Joins(s: seq<real>, i: nat, j: nat)
    requires i <= j <= |s|
    ensures s[..i] + s[i..j] == s[..j] && s[..|s|] == s
  {
  }

  class Accumulator {
    var partial: array<real>
    var fill: nat
    var samplesIn: nat
    var framesOut: nat
    var nextFrameStart: nat
    ghost var stream: seq<real>     // every sample taken in
    ghost var emitted: seq<Frame>   // every frame handed over

    // What the loop keeps; the sample counter runs ahead of it during a call.
    ghost predicate Carrying()
      reads this, partial
    {
      && partial.Length == FRAME_SAMPLES
      && Framed(stream, emitted)
      && framesOut == |emitted|
      && nextFrameStart == FRAME_SAMPLES * framesOut
      && fill == |stream| - nextFrameStart && fill < FRAME_SAMPLES
      && partial[..fill] == stream[nextFrameStart..]
    }

    ghost predicate Valid()
      reads this, partial
    {
      Carrying() && samplesIn == |stream|
    }

    constructor ()
      ensures Valid() && fresh(partial) && stream == [] && emitted == []
    {
      partial := new real[FRAME_SAMPLES](_ => 0.0);
      fill, samplesIn, framesOut, nextFrameStart := 0, 0, 0, 0;
      stream, emitted := [], [];
    }

    method Copy(block: seq<real>)
      requires fill + |block| <= partial.Length
      modifies partial
      ensures partial[..fill] == old(partial[..fill]) && partial[fill..fill + |block|] == block
    {
      forall i | 0 <= i < |block| { partial[fill + i] := block[i]; }
    }

    // Not enough to complete a frame: the remainder is carried.
    method Carry(block: seq<real>)
      requires Carrying() && fill + |block| < FRAME_SAMPLES
      modifies this`fill, this`stream, partial
      ensures Carrying() && partial == old(partial)
      ensures stream == old(stream) + block
    {
      FramedCarries(stream, emitted, block);
      Copy(block);
      ghost var before, was := partial[..fill], fill;
      fill := fill + |block|;
      assert partial[..fill] == before + partial[was..fill];
      stream := stream + block;
    }

    // The frame is complete: out it goes, under the index of its first sample.
    method Complete(block: seq<real>) returns (frame: Frame)
      requires Carrying() && fill + |block| == FRAME_SAMPLES
      modifies this`fill, this`framesOut, this`nextFrameStart, this`stream, this`emitted, partial
      ensures Carrying() && partial == old(partial) && fill == 0
      ensures stream == old(stream) + block && emitted == old(emitted) + [frame]
    {
      FramedCompletes(stream, emitted, block);
      Copy(block);
      assert partial[..] == partial[..fill] + partial[fill..fill + |block|];
      assert partial[..] == (stream + block)[nextFrameStart..];
      frame := Frame(partial[..], nextFrameStart);
      stream := stream + block;
      assert frame == FrameAt(stream, |emitted|);
      fill := 0;
      nextFrameStart := nextFrameStart + FRAME_SAMPLES;
      framesOut := framesOut + 1;
      emitted := emitted + [frame];
      assert partial[..0] == stream[nextFrameStart..];
    }

    /** One capture callback: the frames it completes, in order. */
    method Push(samples: seq<real>) returns (frames: seq<Frame>)
      requires Valid()
      modifies this, partial
      ensures Valid() && partial == old(partial)
      ensures stream == old(stream) + samples && emitted == old(emitted) + frames
    {
      hide Framed;
      frames := [];
      Joins(samples, 0, 0);
      if |samples| == 0 { return; }
      samplesIn := samplesIn + |samples|;
      var offset := 0;
      while offset < |samples|
        invariant offset <= |samples| && Carrying() && partial == old(partial)
        invariant samplesIn == old(|stream|) + |samples|
        invariant stream == old(stream) + samples[..offset]
        invariant emitted == old(emitted) + frames
      {
        var want := FRAME_SAMPLES - fill;
        var have := |samples| - offset;
        if have < want {
          Joins(samples, offset, |samples|);
          Carry(samples[offset..|samples|]);
          return;
        }
        Joins(samples, offset, offset + want);
        var frame := Complete(samples[offset..offset + want]);
        frames := frames + [frame];
        offset := offset + want;
      }
    }
  }
}
