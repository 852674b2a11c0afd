/** The bounded drop-oldest queue between producer and transmit thread: src/audio/frame_ring.cpp. */
module FrameRing {
  import Modulo
  import opened Options

  // How a frame left the queue: taken by the consumer, or discarded to make room.
  datatype Departure<T> = Departure(frame: T, taken: bool)

  function Frames<T>(gone: seq<Departure<T>>): (s: seq<T>)
    ensures |s| == |gone|
  {
    seq(|gone|, i requires 0 <= i < |gone| => gone[i].frame)
  }

  // The frames the consumer got, in the order it got them.
  function Taken<T>(gone: seq<Departure<T>>): seq<T> {
    if gone == [] then []
    else
      var n := |gone| - 1;
      Taken(gone[..n]) + if gone[n].taken then [gone[n].frame] else []
  }

  function Dropped<T>(gone: seq<Departure<T>>): nat {
    if gone == [] then 0
    else
      var n := |gone| - 1;
      Dropped(gone[..n]) + if gone[n].taken then 0 else 1
  }

  // Where the taken frames stood among all frames ever pushed.
  function Places<T>(gone: seq<Departure<T>>): seq<nat> {
    if gone == [] then []
    else
      var n := |gone| - 1;
      Places(gone[..n]) + if gone[n].taken then [n] else []
  }

  lemma Leave<T>(gone: seq<Departure<T>>, d: Departure<T>)
    ensures Frames(gone + [d]) == Frames(gone) + [d.frame]
    ensures Taken(gone + [d]) == Taken(gone) + if d.taken then [d.frame] else []
    ensures Dropped(gone + [d]) == Dropped(gone) + if d.taken then 0 else 1
  {
    assert (gone + [d])[..|gone|] == gone;
  }

  ghost predicate Increasing(places: seq<nat>, bound: nat) {
    && (forall i :: 0 <= i < |places| ==> places[i] < bound)
    && (forall i, j :: 0 <= i < j < |places| ==> places[i] < places[j])
  }

  /** What the consumer got is an in-order subsequence of what was pushed; the rest was dropped. */
  lemma {:induction false} TakenInOrder<T>(gone: seq<Departure<T>>)
    ensures |Taken(gone)| + Dropped(gone) == |gone|
    ensures |Places(gone)| == |Taken(gone)| && Increasing(Places(gone), |gone|)
    ensures forall i :: 0 <= i < |Places(gone)| ==> Taken(gone)[i] == gone[Places(gone)[i]].frame
    decreases |gone|
  {
    if gone != [] {
      var n := |gone| - 1;
      TakenInOrder(gone[..n]);
      var before := Places(gone[..n]);
      forall i | 0 <= i < |Places(gone)| ensures Taken(gone)[i] == gone[Places(gone)[i]].frame {
        if i < |before| { assert gone[before[i]] == gone[..n][before[i]]; }
      }
    }
  }

  function Place(head: nat, i: nat, size: nat): (p: nat)
    requires size > 0
    ensures p < size
  {
    (head + i) % size
  }

  // Queue position i is kept at its place of the ring.
  ghost predicate Stored<T>(buf: seq<T>, head: nat, queue: seq<T>) {
    |buf| > 0 && |queue| <= |buf| && forall i :: 0 <= i < |queue| ==> buf[Place(head, i, |buf|)] == queue[i]
  }

  lemma StoreLast<T>(buf: seq<T>, head: nat, queue: seq<T>, f: T)
    requires Stored(buf, head, queue) && |queue| < |buf|
    ensures Stored(buf[Place(head, |queue|, |buf|) := f], head, queue + [f])
  {
    forall i | 0 <= i < |queue| ensures Place(head, i, |buf|) != Place(head, |queue|, |buf|) {
      Modulo.Distinct(head + i, head + |queue|, |buf|);
    }
  }

  lemma StoreRest<T>(buf: seq<T>, head: nat, queue: seq<T>)
    requires Stored(buf, head, queue) && queue != [] && head < |buf|
    ensures buf[head] == queue[0] && Stored(buf, Place(head, 1, |buf|), queue[1..])
  {
    Modulo.Small(head, |buf|);
    assert Place(head, 0, |buf|) == head;
    forall i | 0 <= i < |queue| - 1 ensures buf[Place(Place(head, 1, |buf|), i, |buf|)] == queue[1..][i] {
      PlaceAdds(head, i, |buf|);
      assert queue[1..][i] == queue[1 + i];
    }
  }

  lemma PlaceAdds(head: nat, i: nat, size: nat)
    requires size > 0
    ensures Place(Place(head, 1, size), i, size) == Place(head, 1 + i, size)
  {
    Modulo.Add(head + 1, i, size);
  }

  class Ring<T(0)> {
    var buf: array<T>
    var head: nat
    var count: nat
    var drops: nat
    ghost var queue: seq<T>              // oldest first
    ghost var pushed: seq<T>             // every frame ever pushed
    ghost var gone: seq<Departure<T>>    // every frame that left, in order

    ghost predicate Valid()
      reads this, buf
    {
      && buf.Length > 0 && head < buf.Length && count == |queue|
      && Stored(buf[..], head, queue)
      && pushed == Frames(gone) + queue
      && drops == Dropped(gone)
    }

    constructor (capacity: nat)
      ensures Valid() && fresh(buf) && pushed == [] && gone == []
      ensures buf.Length == if capacity == 0 then 1 else capacity
    {
      buf := new T[if capacity == 0 then 1 else capacity];
      head, count, drops := 0, 0, 0;
      queue, pushed, gone := [], [], [];
    }

    // The oldest frame leaves.
    method Advance(taken: bool)
      requires Valid() && count > 0
      modifies this`head, this`count, this`queue, this`gone, this`drops
      ensures Valid() && queue == old(queue[1..])
      ensures gone == old(gone) + [Departure(old(queue[0]), taken)]
    {
      hide Stored, Place, Frames, Dropped;
      StoreRest(buf[..], head, queue);
      Leave(gone, Departure(queue[0], taken));
      head := Place(head, 1, buf.Length);
      count := count - 1;
      if !taken { drops := drops + 1; }
      gone := gone + [Departure(queue[0], taken)];
      assert queue == [queue[0]] + queue[1..];
      queue := queue[1..];
    }

    /** Always succeeds; a full queue gives up its oldest frame. */
    method Push(f: T)
      requires Valid()
      modifies this, buf
      ensures Valid() && buf == old(buf) && pushed == old(pushed) + [f]
      ensures if old(count) == buf.Length
              then queue == old(queue[1..]) + [f] && gone == old(gone) + [Departure(old(queue[0]), false)]
              else queue == old(queue) + [f] && gone == old(gone)
    {
      if count == buf.Length { Advance(false); }
      ghost var before := buf[..];
      StoreLast(before, head, queue, f);
      var tail := Place(head, count, buf.Length);
      buf[tail] := f;
      assert buf[..] == before[tail := f];
      count := count + 1;
      queue, pushed := queue + [f], pushed + [f];
    }

    /** The oldest frame, or nothing when the queue is empty. */
    method Pop() returns (r: Option<T>)
      requires Valid()
      modifies this
      ensures Valid() && buf == old(buf) && pushed == old(pushed)
      ensures old(queue) == [] ==> r == None && queue == [] && gone == old(gone)
      ensures old(queue) != [] ==>
                && r == Some(old(queue[0])) && queue == old(queue[1..])
                && gone == old(gone) + [Departure(old(queue[0]), true)]
    {
      if count == 0 { return None; }
      StoreRest(buf[..], head, queue);
      r := Some(buf[head]);
      Advance(true);
    }
  }

  /** Conservation: every frame ever pushed was taken, dropped, or is still queued. */
  lemma Conserved<T(0)>(r: Ring<T>)
    requires r.Valid()
    ensures |r.pushed| == |Taken(r.gone)| + r.drops + r.count
    ensures r.count <= r.buf.Length
  {
    TakenInOrder(r.gone);
  }
}
