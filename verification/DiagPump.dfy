/**
 The pump between the diagnostic pipe and its two sinks: src/app/diag_log.cpp:125-180. Time stamps,
 the outcome of each file open and the console queue's drop count come from outside.
 */
module DiagPump {
  import Decimal
  import opened DiagSplitter
  import opened LogParts
  import opened LogRecord

  const STAMP_LENGTH := 12
  const LINE_MAX := 8207    // a stamp in brackets, a space, and the longest chunk
  const NOTE_MAX := 65
  const NOTE_EVERY_MS := 1000

  // The system's millisecond counter: 32 bits, so it starts again every 49.7 days.
  const WRAP_MS := 0x1_0000_0000

  type Ms = t: nat | t < WRAP_MS

  // One read off the pipe, and what the console queue and the clock say after it.
  datatype Read = Read(data: string, dropped: nat, nowMs: Ms)

  // Before when the next note is held back: the sum wraps like the counter.
  function HoldUntil(nowMs: Ms): Ms {
    (nowMs + NOTE_EVERY_MS) % WRAP_MS
  }

  // The stamps that go with the k-th call to the writer, and whether the open that may follow it succeeds.
  datatype Env = Env(stamp: nat -> string, rollStamp: nat -> string, opens: nat -> bool)

  ghost predicate Stamps(env: Env) {
    forall k :: |env.stamp(k)| == STAMP_LENGTH && |env.rollStamp(k)| == STAMP_LENGTH
  }

  // ----- the reference: what reaches each sink -----------------------------------------------------------

  // Lines meant for the file, without their stamps.
  function ForFile(chunks: seq<Chunk>): seq<string> {
    if chunks == [] then []
    else
      var n := |chunks| - 1;
      ForFile(chunks[..n]) + if chunks[n].toFile && chunks[n].text != SYNC_LINE then [chunks[n].text] else []
  }

  function ForConsole(chunks: seq<Chunk>): seq<string> {
    if chunks == [] then []
    else
      var n := |chunks| - 1;
      ForConsole(chunks[..n]) + if chunks[n].toConsole && chunks[n].text != SYNC_LINE then [chunks[n].text] else []
  }

  function Syncs(chunks: seq<Chunk>): nat {
    if chunks == [] then 0
    else
      var n := |chunks| - 1;
      Syncs(chunks[..n]) + if chunks[n].text == SYNC_LINE then 1 else 0
  }

  function DataOf(input: seq<Read>): string {
    if input == [] then "" else DataOf(input[..|input| - 1]) + input[|input| - 1].data
  }

  lemma Snoc(chunks: seq<Chunk>, c: Chunk)
    ensures ForFile(chunks + [c]) == ForFile(chunks) + if c.toFile && c.text != SYNC_LINE then [c.text] else []
    ensures ForConsole(chunks + [c]) == ForConsole(chunks) + if c.toConsole && c.text != SYNC_LINE then [c.text] else []
    ensures Syncs(chunks + [c]) == Syncs(chunks) + if c.text == SYNC_LINE then 1 else 0
  {
    assert (chunks + [c])[..|chunks|] == chunks;
  }

  lemma DataSnoc(input: seq<Read>, i: nat)
    requires i < |input|
    ensures DataOf(input[..i + 1]) == DataOf(input[..i]) + input[i].data
  {
    assert input[..i + 1][..i] == input[..i];
  }

  lemma NoData()
    ensures DataOf([]) == ""
  {
  }

  // ----- the notes of dropped console lines -------------------------------------------------------------

  // The drops noted so far, and the mark of the millisecond counter before which no note comes.
  datatype Marks = Marks(noted: nat, next: Ms)

  predicate NoteDue(m: Marks, r: Read) {
    r.dropped != m.noted && r.nowMs >= m.next
  }

  function Marked(m: Marks, input: seq<Read>): Marks {
    if input == [] then m
    else
      var n := |input| - 1;
      var before := Marked(m, input[..n]);
      if NoteDue(before, input[n]) then Marks(input[n].dropped, HoldUntil(input[n].nowMs)) else before
  }

  // The notes of a run: one at the end of each read for which one is due, behind all the lines read by then.
  function NotesFor(m: Marks, input: seq<Read>): seq<NoteAt> {
    if input == [] then []
    else
      var n := |input| - 1;
      var before := Marked(m, input[..n]);
      NotesFor(m, input[..n])
      + if NoteDue(before, input[n])
        then [NoteAt(input[n].dropped - before.noted, input[n].dropped, |ForFile(Whole(DataOf(input)).chunks)|)] else []
  }

  lemma NothingMarked(m: Marks, notes: seq<NoteAt>)
    ensures Marked(m, []) == m && notes + NotesFor(m, []) == notes
  {
  }

  lemma NotesSnoc(m: Marks, input: seq<Read>, i: nat)
    requires i < |input|
    ensures var before, r := Marked(m, input[..i]), input[i];
            var due := r.dropped != before.noted && r.nowMs >= before.next;
            && Marked(m, input[..i + 1]) == (if due then Marks(r.dropped, HoldUntil(r.nowMs)) else before)
            && NotesFor(m, input[..i + 1]) == NotesFor(m, input[..i])
               + if due then [NoteAt(r.dropped - before.noted, r.dropped,
                                     |ForFile(Whole(DataOf(input[..i + 1])).chunks)|)] else []
  {
    hide ForFile, Whole, DataOf;
    assert input[..i + 1][..i] == input[..i];
  }

  lemma Extends(start: seq<NoteAt>, before: seq<NoteAt>, after: seq<NoteAt>, notes: seq<NoteAt>)
    requires exists more: seq<NoteAt> :: after == before + more && notes == start + before + more
    ensures notes == start + after
  {
  }

  // The counter does not wrap while these reads come in.
  ghost predicate NoWrap(input: seq<Read>) {
    && (forall i :: 0 <= i < |input| ==> input[i].nowMs + 1000 < 0x1_0000_0000)
    && (forall i, j :: 0 <= i <= j < |input| ==> input[i].nowMs <= input[j].nowMs)
  }

  // A read at which a note came.
  ghost predicate Notes(m: Marks, input: seq<Read>, i: nat)
    ensures Notes(m, input, i) ==> i < |input|
  {
    i < |input| && NoteDue(Marked(m, input[..i]), input[i])
  }

  lemma NotedBefore(m: Marks, input: seq<Read>, n: nat, i: nat)
    requires n <= |input| && Notes(m, input[..n], i)
    ensures Notes(m, input, i) && input[..n][i] == input[i]
  {
    hide NoteDue, Marked;
    assert input[..n][..i] == input[..i];
  }

  // The mark is a second past the last note.
  ghost predicate MarkedBy(m: Marks, input: seq<Read>, next: nat, i: nat) {
    Notes(m, input, i) && next == input[i].nowMs + 1000
  }

  lemma {:induction false} LastNote(input: seq<Read>)
    requires NoWrap(input)
    ensures var m := Marks(0, 0);
            Marked(m, input).next == 0 || exists i: nat :: MarkedBy(m, input, Marked(m, input).next, i)
    decreases |input|
  {
    if input != [] {
      hide HoldUntil;
      var m, n := Marks(0, 0), |input| - 1;
      LastNote(input[..n]);
      MarkIs(input[n].nowMs);
      var before := Marked(m, input[..n]);
      if NoteDue(before, input[n]) {
        assert MarkedBy(m, input, Marked(m, input).next, n);
      } else if before.next != 0 {
        var i: nat :| MarkedBy(m, input[..n], before.next, i);
        NotedBefore(m, input, n, i);
        assert MarkedBy(m, input, Marked(m, input).next, i);
      }
    }
  }

  /** Without a wrap a drop goes unnoted only while the last note is less than a second old. */
  lemma DropsAreNoted(input: seq<Read>)
    requires input != [] && NoWrap(input)
    ensures var m, last := Marks(0, 0), input[|input| - 1];
            || Marked(m, input).noted == last.dropped
            || exists i: nat :: Notes(m, input, i) && last.nowMs < input[i].nowMs + 1000
  {
    hide HoldUntil, Notes;
    var m, n := Marks(0, 0), |input| - 1;
    LastNote(input[..n]);
    var before := Marked(m, input[..n]);
    if input[n].dropped != before.noted && input[n].nowMs < before.next {
      var i: nat :| MarkedBy(m, input[..n], before.next, i);
      NotedBefore(m, input, n, i);
      assert Notes(m, input, i) && input[n].nowMs < input[i].nowMs + 1000;
    }
  }

  // ----- lengths --------------------------------------------------------------------------------------------

  lemma NoteLength(stamp: string, next: nat)
    requires |stamp| == STAMP_LENGTH && next < MAX_PARTS
    ensures |Note(stamp, MEGABYTES, next)| <= NOTE_MAX
  {
    assert |Decimal.OfNat(MEGABYTES)| == 1 && |Decimal.OfNat(next)| == 1;
  }

  lemma DropNoteLength(since: nat, total: nat)
    requires since < 0x1_0000_0000_0000_0000 && total < 0x1_0000_0000_0000_0000
    ensures |DropNote(since, total)| <= 8192
  {
    Uint64Length(since);
    Uint64Length(total);
  }

  lemma Uint64Length(n: nat)
    requires n < 0x1_0000_0000_0000_0000
    ensures |Decimal.OfNat(n)| <= 20
  {
    assert Decimal.Pow10(5) == 100000 by { assert Decimal.Pow10(3) == 1000; }
    assert Decimal.Pow10(10) == 100000 * Decimal.Pow10(5) by { assert Decimal.Pow10(8) == 1000 * Decimal.Pow10(5); }
    assert Decimal.Pow10(15) == 100000 * Decimal.Pow10(10) by { assert Decimal.Pow10(13) == 1000 * Decimal.Pow10(10); }
    assert Decimal.Pow10(20) == 100000 * Decimal.Pow10(15) by { assert Decimal.Pow10(18) == 1000 * Decimal.Pow10(15); }
    Decimal.OfNatLength(n, 20);
  }

  // ----- the pump --------------------------------------------------------------------------------------------

  class Pump {
    const log: LogFile
    const hasConsole: bool
    var console: seq<string>     // offered to the console queue
    var syncs: nat
    var dropsNoted: nat
    var nextNoteMs: Ms
    var written: nat             // calls to the file writer so far
    ghost var lines: seq<string>   // stream lines given to it, without stamps
    ghost var notes: seq<NoteAt>   // notes given to it
    ghost var entries: seq<Entry>  // everything it wrote

    // The log's parts, end to end, hold exactly the record.
    ghost predicate Recorded()
      reads this`entries, log, log.parts
    {
      && log.Valid() && log.parts.maxParts == MAX_PARTS && log.parts.maxBytes == MAX_PART_BYTES
      && log.megabytes == MEGABYTES && log.lineMax == LINE_MAX && log.noteMax == NOTE_MAX
      && Concat(log.contents) == LogText(entries)
      && WellRolled(entries) && !Filled(entries)
      && log.parts.part == Rolls(entries) % MAX_PARTS && log.parts.bytes == SinceRoll(entries)
    }

    // Nothing is missing from the record while the log is open; once it is closed, what is missing comes after
    // the roll that closed it.
    ghost predicate Complete()
      reads this`entries, this`lines, this`notes, this`dropsNoted, log
    {
      && LinesOf(entries) <= lines && NotesOf(entries) <= notes && DropsIn(entries) <= dropsNoted
      && (log.open ==> LinesOf(entries) == lines && NotesOf(entries) == notes && DropsIn(entries) == dropsNoted)
      && (!log.open && entries != [] ==> entries[|entries| - 1].Roll?)
    }

    ghost predicate Valid()
      reads this`entries, this`lines, this`notes, this`dropsNoted, log, log.parts
    {
      Recorded() && Complete()
    }

    constructor (attached: bool, opens: bool)
      ensures Valid() && fresh(log) && fresh(log.parts) && hasConsole == attached && log.open == opens
      ensures console == [] && syncs == 0 && written == 0 && dropsNoted == 0 && nextNoteMs == 0
      ensures lines == [] && notes == [] && entries == []
    {
      var file := new LogFile(MAX_PART_BYTES, MAX_PARTS, MEGABYTES, LINE_MAX, NOTE_MAX);
      file.OpenPart(opens);
      log, hasConsole := file, attached;
      console, syncs, dropsNoted, nextNoteMs, written, lines, notes, entries := [], 0, 0, 0, 0, [], [], [];
    }

    // One call of the writer: the entry, and the roll it brings on, if the log is open.
    method WriteLine(text: string, env: Env, ghost e: Entry)
      requires Recorded() && |text| <= MAX_HELD && Stamps(env)
      requires !e.Roll? && Bytes(e) == Stamped(env.stamp(written), text)
      modifies this`written, this`entries, log`files, log`open, log`contents, log.parts
      ensures Recorded() && written == old(written) + 1
      ensures !old(log.open) ==> !log.open && entries == old(entries) && log.files == old(log.files)
      ensures old(log.open) ==> entries == Written(old(entries), e, env.rollStamp(old(written)))
      ensures old(log.open) ==>
        && LinesOf(entries) == LinesOf(old(entries)) + (if e.Line? then [e.text] else [])
        && DropsIn(entries) == DropsIn(old(entries)) + (if e.Dropped? then e.since else 0)
        && NotesOf(entries) == NotesOf(old(entries))
                               + (if e.Dropped? then [NoteAt(e.since, e.total, |LinesOf(old(entries))|)] else [])
        && log.open == (env.opens(old(written)) || !entries[|entries| - 1].Roll?)
    {
      hide Note, Concat, LogText, LinesOf, NotesOf, DropsIn, Rolls, SinceRoll, WellRolled, DropNote, OnDisk, EachWithin;
      var stamp, rollStamp := env.stamp(written), env.rollStamp(written);
      forall next | 0 <= next < MAX_PARTS ensures |Note(rollStamp, MEGABYTES, next)| <= NOTE_MAX {
        NoteLength(rollStamp, next);
      }
      assert log.parts.NextPart() == (Rolls(entries) + 1) % MAX_PARTS;
      WrittenKeeps(entries, e, rollStamp);
      ghost var open := log.open;
      log.WriteFileLine(Stamped(stamp, text), rollStamp, env.opens(written));
      written := written + 1;
      if open { entries := Written(entries, e, rollStamp); }
    }

    // A line of the stream, stamped.
    method WriteStreamLine(text: string, env: Env)
      requires Valid() && |text| <= MAX_HELD && Stamps(env)
      modifies this`written, this`entries, this`lines, log`files, log`open, log`contents, log.parts
      ensures Valid() && lines == old(lines) + [text]
      ensures !old(log.open) ==> !log.open && entries == old(entries) && log.files == old(log.files)
      ensures old(log.open) && env.opens(old(written)) ==> log.open
    {
      hide Recorded, LinesOf, NotesOf, DropsIn, Written;
      WriteLine(text, env, Line(env.stamp(written), text));
      lines := lines + [text];
    }

    // One chunk: the sentinel is counted and goes nowhere, the rest goes where it is routed.
    method Deliver(c: Chunk, env: Env)
      requires Valid() && |c.text| <= MAX_HELD && Stamps(env)
      modifies this`console, this`syncs, this`written, this`entries, this`lines
      modifies log`files, log`open, log`contents, log.parts
      ensures Valid()
      ensures lines == old(lines) + if c.toFile && c.text != SYNC_LINE then [c.text] else []
      ensures console == old(console) + if hasConsole && c.toConsole && c.text != SYNC_LINE then [c.text] else []
      ensures syncs == old(syncs) + if c.text == SYNC_LINE then 1 else 0
      ensures !old(log.open) ==> !log.open && entries == old(entries) && log.files == old(log.files)
      ensures old(log.open) && AlwaysOpens(env) ==> log.open
    {
      hide Valid;
      if c.text == SYNC_LINE {
        syncs := syncs + 1;
        return;
      }
      if c.toFile { WriteStreamLine(c.text, env); }
      if c.toConsole && hasConsole { console := console + [c.text]; }
    }

    /** A note when lines were dropped since the last, and the counter is not below the mark the last one set. */
    method NoteConsoleDrops(dropped: nat, nowMs: Ms, env: Env)
      requires Valid() && Stamps(env) && dropsNoted <= dropped < 0x1_0000_0000_0000_0000
      modifies this`written, this`entries, this`notes, this`dropsNoted, this`nextNoteMs
      modifies log`files, log`open, log`contents, log.parts
      ensures Valid() && dropsNoted <= dropped
      ensures var due := dropped != old(dropsNoted) && nowMs >= old(nextNoteMs);
              notes == old(notes) + if due then [NoteAt(dropped - old(dropsNoted), dropped, |lines|)] else []
      ensures var due := dropped != old(dropsNoted) && nowMs >= old(nextNoteMs);
              if due then dropsNoted == dropped && nextNoteMs == HoldUntil(nowMs) && written == old(written) + 1
              else dropsNoted == old(dropsNoted) && nextNoteMs == old(nextNoteMs) && written == old(written)
      ensures !old(log.open) ==> !log.open && entries == old(entries) && log.files == old(log.files)
      ensures old(log.open) && AlwaysOpens(env) ==> log.open
    {
      hide Recorded, LinesOf, NotesOf, DropsIn, Written, DropNote;
      if dropped == dropsNoted || nowMs < nextNoteMs { return; }
      nextNoteMs := HoldUntil(nowMs);
      var since := dropped - dropsNoted;
      var note := DropNote(since, dropped);
      DropNoteLength(since, dropped);
      dropsNoted := dropped;
      notes := notes + [NoteAt(since, dropped, |lines|)];
      WriteLine(note, env, Dropped(env.stamp(written), since, dropped));
    }

    // The chunks of one read.
    method DeliverAll(chunks: seq<Chunk>, env: Env, ghost before: seq<Chunk>)
      requires Valid() && AllRouted(chunks) && Stamps(env)
      requires Delivered(before)
      modifies this`console, this`syncs, this`written, this`entries, this`lines
      modifies log`files, log`open, log`contents, log.parts
      ensures Valid() && Delivered(before + chunks)
      ensures !old(log.open) ==> !log.open && entries == old(entries) && log.files == old(log.files)
      ensures old(log.open) && AlwaysOpens(env) ==> log.open
    {
      hide ForFile, ForConsole, Syncs, Valid;
      assert before + chunks[..0] == before;
      for i := 0 to |chunks|
        invariant Valid() && Delivered(before + chunks[..i])
        invariant !old(log.open) ==> !log.open && entries == old(entries) && log.files == old(log.files)
        invariant old(log.open) && AlwaysOpens(env) ==> log.open
      {
        Snoc(before + chunks[..i], chunks[i]);
        assert before + chunks[..i] + [chunks[i]] == before + chunks[..i + 1];
        assert WellRouted(chunks[i]);
        Deliver(chunks[i], env);
      }
      assert before + chunks[..|chunks|] == before + chunks;
    }

    // One read: its chunks, then the note that may be due.
    method TakeRead(split: Splitter, read: Read, env: Env)
      requires Valid() && split.Valid() && Stamps(env) && Delivered(split.emitted)
      requires dropsNoted <= read.dropped < 0x1_0000_0000_0000_0000
      modifies this`console, this`syncs, this`written, this`entries, this`lines, this`notes, this`dropsNoted, this`nextNoteMs
      modifies split, log`files, log`open, log`contents, log.parts
      ensures Valid() && split.Valid() && split.stream == old(split.stream) + read.data && Delivered(split.emitted)
      ensures dropsNoted <= read.dropped
      ensures var due := read.dropped != old(dropsNoted) && read.nowMs >= old(nextNoteMs);
              && dropsNoted == (if due then read.dropped else old(dropsNoted))
              && nextNoteMs == (if due then HoldUntil(read.nowMs) else old(nextNoteMs))
              && notes == old(notes) + if due then [NoteAt(read.dropped - old(dropsNoted), read.dropped,
                                                           |ForFile(split.emitted)|)] else []
      ensures !old(log.open) ==> !log.open && entries == old(entries) && log.files == old(log.files)
      ensures old(log.open) && AlwaysOpens(env) ==> log.open
    {
      hide Valid, AllRouted;
      ghost var before := split.emitted;
      var chunks := split.Feed(read.data);
      DeliverAll(chunks, env, before);
      NoteConsoleDrops(read.dropped, read.nowMs, env);
    }

    // Both sinks and the counter are up to date with these chunks, from a fresh start.
    ghost predicate Delivered(chunks: seq<Chunk>)
      reads this
    {
      && lines == ForFile(chunks) && syncs == Syncs(chunks)
      && console == if hasConsole then ForConsole(chunks) else []
    }

    // Everything read before the pipe closes.
    method TakeAll(split: Splitter, input: seq<Read>, env: Env)
      requires Valid() && split.Valid() && split.stream == "" && split.emitted == [] && Stamps(env)
      requires Delivered([])
      requires forall k :: 0 <= k < |input| ==> dropsNoted <= input[k].dropped < 0x1_0000_0000_0000_0000
      requires forall j, k :: 0 <= j <= k < |input| ==> input[j].dropped <= input[k].dropped
      modifies this`console, this`syncs, this`written, this`entries, this`lines, this`notes, this`dropsNoted, this`nextNoteMs
      modifies split, log`files, log`open, log`contents, log.parts
      ensures Valid() && split.Valid() && split.stream == DataOf(input) && Delivered(split.emitted)
      ensures Marks(dropsNoted, nextNoteMs) == Marked(Marks(old(dropsNoted), old(nextNoteMs)), input)
      ensures notes == old(notes) + NotesFor(Marks(old(dropsNoted), old(nextNoteMs)), input)
      ensures !old(log.open) ==> !log.open && entries == old(entries) && log.files == old(log.files)
      ensures old(log.open) && AlwaysOpens(env) ==> log.open
    {
      hide DataOf, Valid, Delivered, AlwaysOpens, Stamps, Marked, NotesFor, ForFile, Whole;
      ghost var start := Marks(dropsNoted, nextNoteMs);
      NoData();
      NothingMarked(start, notes);
      for i := 0 to |input|
        invariant Valid() && split.Valid() && split.stream == DataOf(input[..i]) && Delivered(split.emitted)
        invariant forall k :: i <= k < |input| ==> dropsNoted <= input[k].dropped
        invariant Marks(dropsNoted, nextNoteMs) == Marked(start, input[..i])
        invariant notes == old(notes) + NotesFor(start, input[..i])
        invariant !old(log.open) ==> !log.open && entries == old(entries) && log.files == old(log.files)
        invariant old(log.open) && AlwaysOpens(env) ==> log.open
      {
        DataSnoc(input, i);
        NotesSnoc(start, input, i);
        ghost var before := NotesFor(start, input[..i]);
        TakeRead(split, input[i], env);
        Extends(old(notes), before, NotesFor(start, input[..i + 1]), notes);
      }
      assert input[..|input|] == input;
    }

    // The pipe has closed: whatever the splitter still holds is a line of its own.
    method Finish(split: Splitter, env: Env)
      requires Valid() && split.Valid() && Stamps(env) && Delivered(split.emitted)
      modifies this`console, this`written, this`entries, this`lines
      modifies split, log`files, log`open, log`contents, log.parts
      ensures Valid() && syncs == old(syncs)
      ensures var whole := Whole(old(split.stream));
              && syncs == Syncs(whole.chunks)
              && lines == ForFile(whole.chunks) + (if whole.held == "" then [] else [whole.held + "\n"])
              && console == if !hasConsole then []
                            else ForConsole(whole.chunks) + if whole.held == "" then [] else [whole.held]
      ensures !old(log.open) ==> !log.open && entries == old(entries) && log.files == old(log.files)
      ensures old(log.open) && AlwaysOpens(env) ==> log.open
    {
      hide Whole, ForFile, ForConsole, Syncs, AllRouted, WellRouted, Valid;
      Routed(split.stream);
      var tail := split.Drain();
      if tail.toFile { WriteStreamLine(tail.text + "\n", env); }
      if tail.toConsole && hasConsole { console := console + [tail.text]; }
    }

    /**
     The whole life of the pump. What each sink is given, and how many flushes are acknowledged, depends only on
     the bytes of the stream. The log's parts, end to end, are the record: while every open succeeds it holds each
     of those lines, stamped and in order, with notes that account for every drop noted and rolls exactly where a
     part filled up; after a failed open nothing more is written, and the record is a prefix that ends with the
     roll that closed it.
     */
    method Run(split: Splitter, input: seq<Read>, env: Env)
      requires Valid() && split.Valid() && split.stream == "" && split.emitted == [] && Stamps(env)
      requires Delivered([])
      requires forall k :: 0 <= k < |input| ==> dropsNoted <= input[k].dropped < 0x1_0000_0000_0000_0000
      requires forall j, k :: 0 <= j <= k < |input| ==> input[j].dropped <= input[k].dropped
      modifies this, split, log`files, log`open, log`contents, log.parts
      ensures Valid()
      ensures var whole := Whole(DataOf(input));
              && syncs == Syncs(whole.chunks)
              && lines == ForFile(whole.chunks) + (if whole.held == "" then [] else [whole.held + "\n"])
              && console == if !hasConsole then []
                            else ForConsole(whole.chunks) + if whole.held == "" then [] else [whole.held]
      ensures Marks(dropsNoted, nextNoteMs) == Marked(Marks(old(dropsNoted), old(nextNoteMs)), input)
      ensures notes == old(notes) + NotesFor(Marks(old(dropsNoted), old(nextNoteMs)), input)
      ensures Concat(log.contents) == LogText(entries) && WellRolled(entries)
      ensures old(log.open) && AlwaysOpens(env) ==>
        LinesOf(entries) == lines && NotesOf(entries) == notes && DropsIn(entries) == dropsNoted
      ensures !log.open ==>
        LinesOf(entries) <= lines && NotesOf(entries) <= notes && (entries == [] || entries[|entries| - 1].Roll?)
      ensures !old(log.open) ==> !log.open && entries == old(entries) && log.files == old(log.files)
    {
      hide Whole, ForFile, ForConsole, Syncs, DataOf, LogText, LinesOf, NotesOf, DropsIn, WellRolled, Concat, Valid;
      hide Marked, NotesFor;
      TakeAll(split, input, env);
      Finish(split, env);
      ReadOff();
    }

    lemma ReadOff()
      requires Valid()
      ensures Concat(log.contents) == LogText(entries) && WellRolled(entries)
      ensures log.open ==> LinesOf(entries) == lines && NotesOf(entries) == notes && DropsIn(entries) == dropsNoted
      ensures !log.open ==> LinesOf(entries) <= lines && NotesOf(entries) <= notes && (entries == [] || entries[|entries| - 1].Roll?)
    {
    }
  }

  ghost predicate AlwaysOpens(env: Env) {
    forall k :: env.opens(k)
  }

  // ----- how far apart notes come --------------------------------------------------------------------------

  // What the counter shows after so many milliseconds.
  function Shown(t: nat): Ms {
    t % WRAP_MS
  }

  // After a note at t the next one may come at u.
  predicate MayNote(t: nat, u: nat) {
    Shown(u) >= HoldUntil(Shown(t))
  }

  /**
   Notes are meant to be a second apart, and no more than that. The guard says so exactly except around a wrap of
   the counter: a note in the counter's last second holds back nothing until the wrap; and after any other note, once
   the counter has wrapped, notes are held back whenever it is below the mark, for up to 49.7 days.
   */
  lemma NotesApartIff(t: nat, u: nat)
    requires t <= u
    ensures (MayNote(t, u) <==> u >= t + NOTE_EVERY_MS) <==>
      var wraps := u / WRAP_MS - t / WRAP_MS;
      var mark := HoldUntil(Shown(t));
      if Shown(t) + NOTE_EVERY_MS < WRAP_MS then wraps == 0 || Shown(u) >= mark
      else wraps == 1 || (wraps > 1 && Shown(u) >= mark)
  {
    var q, r := t / WRAP_MS, u / WRAP_MS;
    assert t == q * WRAP_MS + Shown(t) && u == r * WRAP_MS + Shown(u);
    MarkIs(Shown(t));
  }

  lemma MarkIs(nowMs: Ms)
    ensures HoldUntil(nowMs) ==
      if nowMs + NOTE_EVERY_MS < WRAP_MS then nowMs + NOTE_EVERY_MS else nowMs + NOTE_EVERY_MS - WRAP_MS
  {
  }

  /** No run takes more disk than four parts of 8 MiB, each overshot by at most a line and a roll note. */
  lemma RunWithinBudget(p: Pump)
    requires p.Valid()
    ensures TotalBelow(p.log.files, MAX_PARTS) <= MAX_PARTS * (MAX_PART_BYTES - 1 + LINE_MAX + NOTE_MAX)
    ensures forall part :: part in p.log.files ==> part < MAX_PARTS
  {
    WithinBudget(p.log);
  }
}
