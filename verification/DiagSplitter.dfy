/** The rule that routes the diagnostic stream: src/app/diag_line.h. Characters stand for bytes. */
module DiagSplitter {

  const MAX_HELD := 8192

  datatype Chunk = Chunk(text: string, toFile: bool, toConsole: bool)

  // ----- the reference: a function of everything that ever came off the stream ------------------------

  datatype Split = Split(chunks: seq<Chunk>, held: string)

  predicate Ends(c: char) {
    c == '\n' || c == '\r'
  }

  function Step(s: Split, c: char): Split {
    var held := s.held + [c];
    if c == '\n' then Split(s.chunks + [Chunk(held, true, true)], "")
    else if c == '\r' then Split(s.chunks + [Chunk(held, false, true)], "")
    else if |held| >= MAX_HELD then Split(s.chunks + [Chunk(held, true, true)], "")
    else Split(s.chunks, held)
  }

  function From(s: Split, data: string): Split {
    if data == "" then s else Step(From(s, data[..|data| - 1]), data[|data| - 1])
  }

  function Whole(stream: string): Split {
    From(Split([], ""), stream)
  }

  /** However the reads cut the stream, the outcome is that of the whole of it. */
  lemma {:induction false} ReadsDoNotMatter(s: Split, one: string, two: string)
    ensures From(From(s, one), two) == From(s, one + two)
    decreases |two|
  {
    if two == "" {
      assert one + two == one;
    } else {
      hide Step;
      var n := |two| - 1;
      ReadsDoNotMatter(s, one, two[..n]);
      assert (one + two)[..|one + two| - 1] == one + two[..n];
    }
  }

  function TextOf(chunks: seq<Chunk>): string {
    if chunks == [] then "" else TextOf(chunks[..|chunks| - 1]) + chunks[|chunks| - 1].text
  }

  lemma TextSnoc(chunks: seq<Chunk>, c: Chunk)
    ensures TextOf(chunks + [c]) == TextOf(chunks) + c.text
  {
    assert (chunks + [c])[..|chunks|] == chunks;
  }

  lemma StepReproduces(s: Split, c: char)
    ensures TextOf(Step(s, c).chunks) + Step(s, c).held == TextOf(s.chunks) + s.held + [c]
  {
    var held := s.held + [c];
    TextSnoc(s.chunks, Chunk(held, true, true));
    TextSnoc(s.chunks, Chunk(held, false, true));
    assert TextOf(s.chunks) + s.held + [c] == TextOf(s.chunks) + held;
  }

  /** Nothing is lost, added or reordered: the chunks and what is held are the stream. */
  lemma {:induction false} Reproduces(stream: string)
    ensures TextOf(Whole(stream).chunks) + Whole(stream).held == stream
    decreases |stream|
  {
    if stream != "" {
      hide Step, TextOf;
      var n := |stream| - 1;
      Reproduces(stream[..n]);
      StepReproduces(Whole(stream[..n]), stream[n]);
      assert stream == stream[..n] + [stream[n]];
    }
  }

  ghost predicate NoEnd(s: string) {
    forall i :: 0 <= i < |s| ==> !Ends(s[i])
  }

  /** Every chunk is one line, one repaint, or a full buffer; only a repaint is kept out of the file. */
  ghost predicate WellRouted(c: Chunk) {
    && 1 <= |c.text| <= MAX_HELD && NoEnd(c.text[..|c.text| - 1])
    && (Ends(c.text[|c.text| - 1]) || |c.text| == MAX_HELD)
    && c.toConsole && (c.toFile <==> c.text[|c.text| - 1] != '\r')
  }

  ghost predicate Holds(held: string) {
    |held| < MAX_HELD && NoEnd(held)
  }

  ghost predicate AllRouted(chunks: seq<Chunk>) {
    forall i :: 0 <= i < |chunks| ==> WellRouted(chunks[i])
  }

  lemma StepRoutes(s: Split, c: char)
    requires AllRouted(s.chunks) && Holds(s.held)
    ensures AllRouted(Step(s, c).chunks) && Holds(Step(s, c).held)
  {
    var held := s.held + [c];
    assert held[..|held| - 1] == s.held;
    assert !Ends(c) ==> NoEnd(held);
    assert WellRouted(Chunk(held, c != '\r', true)) || (!Ends(c) && |held| < MAX_HELD);
  }

  lemma {:induction false} RoutedFrom(s: Split, data: string)
    requires AllRouted(s.chunks) && Holds(s.held)
    ensures AllRouted(From(s, data).chunks) && Holds(From(s, data).held)
    decreases |data|
  {
    if data != "" {
      hide Step, AllRouted, Holds;
      var n := |data| - 1;
      RoutedFrom(s, data[..n]);
      StepRoutes(From(s, data[..n]), data[n]);
    }
  }

  lemma Routed(stream: string)
    ensures AllRouted(Whole(stream).chunks) && Holds(Whole(stream).held)
  {
    RoutedFrom(Split([], ""), stream);
  }

  // ----- the flush sentinel ----------------------------------------------------------------------------

  const SYNC_LINE: string := [1 as char, 'Z', 'C', 'D', 'I', 'A', 'G', 'S', 'Y', 'N', 'C', '\n']

  // Text without line ends only fills the buffer, flushing it once if it does not fit.
  lemma {:induction false} FromBody(s: Split, body: string)
    requires Holds(s.held) && NoEnd(body) && |body| < MAX_HELD
    ensures var room := MAX_HELD - |s.held|;
            From(s, body) == if |body| < room then Split(s.chunks, s.held + body)
                             else Split(s.chunks + [Chunk(s.held + body[..room], true, true)], body[room..])
    decreases |body|
  {
    var room := MAX_HELD - |s.held|;
    if body == "" {
      assert s.held + body == s.held;
    } else {
      var n := |body| - 1;
      FromBody(s, body[..n]);
      BodyStep(s, body, n);
    }
  }

  lemma BodyStep(s: Split, body: string, n: nat)
    requires Holds(s.held) && NoEnd(body) && n + 1 == |body| < MAX_HELD
    ensures var room := MAX_HELD - |s.held|;
            var before := if n < room then Split(s.chunks, s.held + body[..n])
                          else Split(s.chunks + [Chunk(s.held + body[..n][..room], true, true)], body[..n][room..]);
            Step(before, body[n]) == if n + 1 < room then Split(s.chunks, s.held + body)
                                     else Split(s.chunks + [Chunk(s.held + body[..room], true, true)], body[room..])
  {
    var room := MAX_HELD - |s.held|;
    assert !Ends(body[n]);
    if n < room {
      assert s.held + body[..n] + [body[n]] == s.held + body;
      if n + 1 == room { assert body[..room] == body && body[room..] == ""; }
    } else {
      assert body[..n][..room] == body[..room];
      assert body[..n][room..] + [body[n]] == body[room..];
    }
  }

  ghost predicate Flushed(before: seq<Chunk>, after: seq<Chunk>) {
    exists i :: |before| <= i < |after| && after[i].text == SYNC_LINE
  }

  /** The sentinel is recognised exactly when no partial line was held before it. */
  lemma SentinelSeenIff(stream: string)
    ensures Flushed(Whole(stream).chunks, Whole(stream + SYNC_LINE).chunks) <==> Whole(stream).held == ""
  {
    hide Whole;
    var s, body := Whole(stream), SYNC_LINE[..11];
    Routed(stream);
    ReadsInTwo(stream, SYNC_LINE);
    FromBody(s, body);
    AfterBody(s, body);
  }

  lemma ReadsInTwo(stream: string, more: string)
    ensures Whole(stream + more) == From(Whole(stream), more)
  {
    ReadsDoNotMatter(Split([], ""), stream, more);
  }

  lemma AfterBody(s: Split, body: string)
    requires body == SYNC_LINE[..11] && Holds(s.held)
    requires var room := MAX_HELD - |s.held|;
             From(s, body) == if |body| < room then Split(s.chunks, s.held + body)
                              else Split(s.chunks + [Chunk(s.held + body[..room], true, true)], body[room..])
    ensures Flushed(s.chunks, From(s, SYNC_LINE).chunks) <==> s.held == ""
  {
    var room := MAX_HELD - |s.held|;
    var r := From(s, SYNC_LINE);
    assert r == Step(From(s, body), '\n');
    if |body| < room {
      assert r.chunks == s.chunks + [Chunk(s.held + body + ['\n'], true, true)];
      assert r.chunks[|s.chunks|].text == s.held + SYNC_LINE;
    } else {
      assert r.chunks == s.chunks + [Chunk(s.held + body[..room], true, true), Chunk(body[room..] + ['\n'], true, true)];
    }
  }

  // ----- the object --------------------------------------------------------------------------------------

  class Splitter {
    var held: string
    ghost var stream: string          // everything fed since the last drain
    ghost var emitted: seq<Chunk>     // every chunk handed out for it

    ghost predicate Valid()
      reads this
    {
      Whole(stream) == Split(emitted, held)
    }

    constructor ()
      ensures Valid() && stream == "" && emitted == []
    {
      held, stream, emitted := "", "", [];
    }

    method Feed(data: string) returns (out: seq<Chunk>)
      requires Valid()
      modifies this
      ensures Valid() && stream == old(stream) + data && emitted == old(emitted) + out
      ensures AllRouted(out)
    {
      out := [];
      ghost var start := Split(emitted, held);
      for i := 0 to |data|
        invariant From(start, data[..i]) == Split(emitted + out, held)
        invariant emitted == old(emitted) && stream == old(stream)
      {
        hide From;
        FromNext(start, data, i);
        held, out := FeedOne(emitted, out, held, data[i]);
      }
      assert data[..|data|] == data;
      ReadsInTwo(stream, data);
      stream, emitted := stream + data, emitted + out;
      Routed(stream);
      assert forall i :: 0 <= i < |out| ==> out[i] == emitted[|old(emitted)| + i];
    }

    /** What is still held, as a real line. */
    method Drain() returns (c: Chunk)
      requires Valid()
      modifies this
      ensures Valid() && stream == "" && emitted == [] && held == ""
      ensures c == Chunk(old(held), old(held) != "", old(held) != "")
      ensures TextOf(old(emitted)) + c.text == old(stream)
    {
      Reproduces(stream);
      c := Chunk(held, held != "", held != "");
      held, stream, emitted := "", "", [];
    }
  }

  lemma FromNext(s: Split, data: string, i: nat)
    requires i < |data|
    ensures From(s, data[..i + 1]) == Step(From(s, data[..i]), data[i])
  {
    hide Step;
    assert data[..i + 1][..i] == data[..i];
  }

  // The loop body.
  method FeedOne(ghost before: seq<Chunk>, sofar: seq<Chunk>, held: string, c: char) returns (held': string, out: seq<Chunk>)
    ensures Split(before + out, held') == Step(Split(before + sofar, held), c)
  {
    held', out := held + [c], sofar;
    if c == '\n' {
      assert before + (sofar + [Chunk(held', true, true)]) == before + sofar + [Chunk(held', true, true)];
      out := out + [Chunk(held', true, true)];
      held' := "";
    } else if c == '\r' {
      assert before + (sofar + [Chunk(held', false, true)]) == before + sofar + [Chunk(held', false, true)];
      out := out + [Chunk(held', false, true)];
      held' := "";
    } else if |held'| >= MAX_HELD {
      assert before + (sofar + [Chunk(held', true, true)]) == before + sofar + [Chunk(held', true, true)];
      out := out + [Chunk(held', true, true)];
      held' := "";
    }
  }
}
