/**
 A monotonic deque that holds the minimum of the last `span` values of a stream:
 src/audio/limiter.cpp:68-74, over any stream of reals.
 */
module SlidingMinimum {

  datatype Entry = Entry(at: nat, value: real)

  type Deque = seq<Entry>

  // ----- the reference ---------------------------------------------------------------------------

  function Window(r: seq<real>, span: nat): seq<real> {
    if |r| <= span then r else r[|r| - span..]
  }

  function Least(w: seq<real>): real
    requires w != []
  {
    var last := w[|w| - 1];
    if |w| == 1 then last
    else
      var before := Least(w[..|w| - 1]);
      if before < last then before else last
  }

  /** The reference minimum is one: below every value of the window, and one of them. */
  lemma {:induction false} LeastBounds(w: seq<real>)
    requires w != []
    ensures Least(w) in w
    ensures forall k :: 0 <= k < |w| ==> Least(w) <= w[k]
  {
    var n := |w| - 1;
    if n > 0 {
      LeastBounds(w[..n]);
      forall k | 0 <= k < |w| ensures Least(w) <= w[k] {
        if k < n { assert w[k] == w[..n][k]; }
      }
    }
  }

  lemma LeastIs(w: seq<real>, m: real)
    requires m in w && forall k :: 0 <= k < |w| ==> m <= w[k]
    ensures Least(w) == m
  {
    LeastBounds(w);
  }

  // ----- the deque -------------------------------------------------------------------------------

  function WindowStart(n: nat, span: nat): nat {
    if n <= span then 0 else n - span
  }

  // Indices and values increase from front to back, and every entry is a value of the stream.
  ghost predicate Sorted(mins: Deque, r: seq<real>) {
    && (forall i :: 0 <= i < |mins| ==> mins[i].at < |r| && mins[i].value == r[mins[i].at])
    && (forall i, j :: 0 <= i < j < |mins| ==> mins[i].at < mins[j].at && mins[i].value < mins[j].value)
  }

  // Position k lies behind the entry in front of the i-th.
  ghost predicate Behind(mins: Deque, i: nat, k: nat)
    requires i < |mins|
  {
    i == 0 || mins[i - 1].at < k
  }

  // Each entry is the smallest of everything behind the entry in front of it.
  ghost predicate SuffixMinima(mins: Deque, r: seq<real>, from: nat) {
    && (r != [] ==> mins != [] && mins[|mins| - 1].at == |r| - 1)
    && (forall i, k :: 0 <= i < |mins| && from <= k < |r| && Behind(mins, i, k) ==> mins[i].value <= r[k])
  }

  ghost predicate NotBefore(mins: Deque, start: nat) {
    forall i :: 0 <= i < |mins| ==> start <= mins[i].at
  }

  ghost predicate Fits(mins: Deque, r: seq<real>, span: nat) {
    var start := WindowStart(|r|, span);
    Sorted(mins, r) && SuffixMinima(mins, r, start) && NotBefore(mins, start)
  }

  /** The deque's front is the smallest value of the window. */
  lemma FrontIsLeast(mins: Deque, r: seq<real>, span: nat)
    requires span >= 1 && r != [] && Fits(mins, r, span)
    ensures mins != [] && mins[0].value == Least(Window(r, span))
  {
    var start := WindowStart(|r|, span);
    var w := Window(r, span);
    forall k | 0 <= k < |w| ensures mins[0].value <= w[k] {
      assert w[k] == r[start + k] && Behind(mins, 0, start + k);
    }
    assert w[mins[0].at - start] == mins[0].value;
    LeastIs(w, mins[0].value);
  }

  // Popping the back while it is no smaller than the newcomer, then pushing the newcomer.
  lemma PushFits(mins: Deque, r: seq<real>, start: nat, x: real, kept: nat)
    requires Sorted(mins, r) && SuffixMinima(mins, r, start) && NotBefore(mins, start) && start <= |r|
    requires kept <= |mins|
    requires forall i :: kept <= i < |mins| ==> mins[i].value >= x
    requires kept > 0 ==> mins[kept - 1].value < x
    ensures var pushed := mins[..kept] + [Entry(|r|, x)];
            Sorted(pushed, r + [x]) && SuffixMinima(pushed, r + [x], start) && NotBefore(pushed, start)
  {
    hide SuffixMinima;
    PushMinima(mins, r, start, x, kept);
  }

  lemma PushMinima(mins: Deque, r: seq<real>, start: nat, x: real, kept: nat)
    requires Sorted(mins, r) && SuffixMinima(mins, r, start) && start <= |r| && kept <= |mins|
    requires forall i :: kept <= i < |mins| ==> mins[i].value >= x
    requires kept > 0 ==> mins[kept - 1].value < x
    ensures SuffixMinima(mins[..kept] + [Entry(|r|, x)], r + [x], start)
  {
    var pushed := mins[..kept] + [Entry(|r|, x)];
    var more := r + [x];
    forall i, k | 0 <= i < |pushed| && start <= k < |more| && Behind(pushed, i, k)
      ensures pushed[i].value <= more[k]
    {
      if k < |r| {
        assert more[k] == r[k];
        if i < |mins| { assert Behind(mins, i, k); }
      } else if i < kept {
        assert mins[i].value <= mins[kept - 1].value;
      }
    }
  }

  // Dropping front entries that have left the window loses nothing.
  lemma DropFits(mins: Deque, r: seq<real>, start: nat, gone: nat, from: nat)
    requires Sorted(mins, r) && SuffixMinima(mins, r, from) && from <= start
    requires gone < |mins| && start <= mins[gone].at
    requires forall i :: 0 <= i < gone ==> mins[i].at < start
    ensures Sorted(mins[gone..], r) && SuffixMinima(mins[gone..], r, start) && NotBefore(mins[gone..], start)
  {
    var rest := mins[gone..];
    forall i, k | 0 <= i < |rest| && start <= k < |r| && Behind(rest, i, k)
      ensures rest[i].value <= r[k]
    {
      assert Behind(mins, gone + i, k);
    }
  }

  // The first loop and the push.
  method PushNewest(mins: Deque, index: nat, start: nat, x: real, ghost r: seq<real>)
    returns (mins': Deque, popped: nat)
    requires |r| == index && start <= index
    requires Sorted(mins, r) && SuffixMinima(mins, r, start) && NotBefore(mins, start)
    ensures Sorted(mins', r + [x]) && SuffixMinima(mins', r + [x], start) && NotBefore(mins', start)
    ensures |mins'| + popped == |mins| + 1
  {
    mins', popped := mins, 0;
    while mins' != [] && mins'[|mins'| - 1].value >= x
      invariant |mins'| <= |mins| && mins' == mins[..|mins'|] && |mins'| + popped == |mins|
      invariant forall i :: |mins'| <= i < |mins| ==> mins[i].value >= x
      decreases |mins'|
    {
      mins' := mins'[..|mins'| - 1];
      popped := popped + 1;
    }
    PushFits(mins, r, start, x, |mins'|);
    mins' := mins' + [Entry(index, x)];
  }

  // The second loop: entries whose index has left the window.
  method DropOldest(mins: Deque, index: nat, span: nat, ghost r: seq<real>, ghost from: nat)
    returns (mins': Deque, popped: nat)
    requires span >= 1 && |r| == index + 1 && from <= WindowStart(|r|, span)
    requires Sorted(mins, r) && SuffixMinima(mins, r, from)
    ensures Fits(mins', r, span) && |mins'| + popped == |mins|
  {
    mins', popped := mins, 0;
    while mins' != [] && mins'[0].at + span <= index
      invariant popped < |mins| && mins' == mins[popped..]
      invariant forall i :: 0 <= i < popped ==> mins[i].at + span <= index
      decreases |mins'|
    {
      mins' := mins'[1..];
      popped := popped + 1;
    }
    DropFits(mins, r, WindowStart(|r|, span), popped, from);
  }

  /** One sample through the deque. `popped` counts what both loops removed. */
  method Slide(mins: Deque, index: nat, span: nat, x: real, ghost r: seq<real>)
    returns (mins': Deque, popped: nat)
    requires span >= 1 && |r| == index && Fits(mins, r, span)
    ensures Fits(mins', r + [x], span)
    ensures mins' != [] && mins'[0].value == Least(Window(r + [x], span))
    ensures |mins'| + popped == |mins| + 1
  {
    var more, dropped;
    more, popped := PushNewest(mins, index, WindowStart(index, span), x, r);
    mins', dropped := DropOldest(more, index, span, r + [x], WindowStart(index, span));
    popped := popped + dropped;
    FrontIsLeast(mins', r + [x], span);
  }
}
