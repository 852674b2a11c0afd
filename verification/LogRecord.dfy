/**
 What a run's log consists of: the stream's lines, the notes of dropped console lines and the notes that a
 part is full, in the order src/app/diag_log.cpp:107-147 writes them.
 */
module LogRecord {
  import Decimal
  import opened LogParts

  const MAX_PART_BYTES := 8388608
  const MAX_PARTS := 4
  const MEGABYTES := 8

  datatype Entry =
    | Line(stamp: string, text: string)
    | Dropped(stamp: string, since: nat, total: nat)
    | Roll(stamp: string, next: nat)

  function Stamped(stamp: string, text: string): string {
    "[" + stamp + "] " + text
  }

  function DropNote(since: nat, total: nat): string {
    "[diag] console wedged: dropped " + Decimal.OfNat(since) + " console lines (" + Decimal.OfNat(total)
    + " this run). The file below is complete; the console is not.\n"
  }

  function Bytes(e: Entry): string {
    match e
    case Line(stamp, text) => Stamped(stamp, text)
    case Dropped(stamp, since, total) => Stamped(stamp, DropNote(since, total))
    case Roll(stamp, next) => Note(stamp, MEGABYTES, next)
  }

  function LogText(entries: seq<Entry>): string {
    if entries == [] then "" else LogText(entries[..|entries| - 1]) + Bytes(entries[|entries| - 1])
  }

  // ----- what the record tells ------------------------------------------------------------------------

  function LinesOf(entries: seq<Entry>): seq<string> {
    if entries == [] then []
    else
      var n := |entries| - 1;
      LinesOf(entries[..n]) + if entries[n].Line? then [entries[n].text] else []
  }

  // Dropped console lines the notes account for.
  function DropsIn(entries: seq<Entry>): nat {
    if entries == [] then 0
    else
      var n := |entries| - 1;
      DropsIn(entries[..n]) + if entries[n].Dropped? then entries[n].since else 0
  }

  // A note of dropped lines: how many since the last, how many in all, and how many stream lines stand before it.
  datatype NoteAt = NoteAt(since: int, total: nat, lines: nat)

  function NotesOf(entries: seq<Entry>): seq<NoteAt> {
    if entries == [] then []
    else
      var n := |entries| - 1;
      var e := entries[n];
      NotesOf(entries[..n]) + if e.Dropped? then [NoteAt(e.since, e.total, |LinesOf(entries[..n])|)] else []
  }

  function Rolls(entries: seq<Entry>): nat {
    if entries == [] then 0
    else
      var n := |entries| - 1;
      Rolls(entries[..n]) + if entries[n].Roll? then 1 else 0
  }

  // Bytes in the part that the last roll began.
  function SinceRoll(entries: seq<Entry>): nat {
    if entries == [] then 0
    else
      var n := |entries| - 1;
      if entries[n].Roll? then 0 else SinceRoll(entries[..n]) + |Bytes(entries[n])|
  }

  ghost predicate Filled(entries: seq<Entry>) {
    SinceRoll(entries) >= MAX_PART_BYTES
  }

  // A roll comes exactly where a part has filled up, and names the next part of the cycle.
  ghost predicate WellRolled(entries: seq<Entry>) {
    forall k :: 0 <= k < |entries| ==> RollInPlace(entries[..k], entries[k])
  }

  ghost predicate RollInPlace(before: seq<Entry>, e: Entry) {
    && (e.Roll? <==> Filled(before))
    && (e.Roll? ==> e.next == (Rolls(before) + 1) % MAX_PARTS)
  }

  // ----- what the bytes tell ----------------------------------------------------------------------------

  /** A line is told from its bytes: behind twelve characters of time in brackets and a space. */
  lemma LineReadsBack(stamp: string, text: string)
    requires |stamp| == 12
    ensures var line := Bytes(Line(stamp, text));
            |line| == 15 + |text| && line[0] == '[' && line[1..13] == stamp && line[13..15] == "] " && line[15..] == text
  {
    var line := Bytes(Line(stamp, text));
    assert line == "[" + stamp + "] " + text;
  }

  // Behind `before` characters stands this number.
  ghost predicate NumberAt(text: string, before: nat, n: nat) {
    var digits := Decimal.OfNat(n);
    before + |digits| <= |text| && text[before..before + |digits|] == digits
  }

  lemma DropNoteHolds(since: nat, total: nat)
    ensures NumberAt(DropNote(since, total), 31, since)
    ensures NumberAt(DropNote(since, total), 31 + |Decimal.OfNat(since)| + 16, total)
  {
    hide Decimal.OfNat;
    var a, b := Decimal.OfNat(since), Decimal.OfNat(total);
    var head := "[diag] console wedged: dropped ";
    var middle, tail := " console lines (", " this run). The file below is complete; the console is not.\n";
    assert DropNote(since, total) == head + a + middle + b + tail;
    assert |head| == 31 && |middle| == 16;
  }

  lemma NumberBehind(front: string, text: string, before: nat, n: nat)
    requires NumberAt(text, before, n)
    ensures NumberAt(front + text, |front| + before, n)
  {
    hide Decimal.OfNat;
    var digits := Decimal.OfNat(n);
    assert (front + text)[|front| + before..|front| + before + |digits|] == text[before..before + |digits|];
  }

  /** A drop note, stamped, says how many lines are missing since the last note, then how many in all. */
  lemma DropNoteTells(stamp: string, since: nat, total: nat)
    requires |stamp| == 12
    ensures NumberAt(Bytes(Dropped(stamp, since, total)), 46, since)
    ensures NumberAt(Bytes(Dropped(stamp, since, total)), 46 + |Decimal.OfNat(since)| + 16, total)
  {
    hide Decimal.OfNat, DropNote, NumberAt;
    var front, note := "[" + stamp + "] ", DropNote(since, total);
    DropNoteHolds(since, total);
    NumberBehind(front, note, 31, since);
    NumberBehind(front, note, 31 + |Decimal.OfNat(since)| + 16, total);
    assert Bytes(Dropped(stamp, since, total)) == front + note;
  }

  /** A roll note says how big a part may get and which part comes next. */
  lemma RollNoteTells(stamp: string, next: nat)
    requires |stamp| == 12
    ensures NumberAt(Bytes(Roll(stamp, next)), 37, 8)
    ensures NumberAt(Bytes(Roll(stamp, next)), 38 + 25, next)
  {
    hide Decimal.OfNat;
    var a, b := Decimal.OfNat(8), Decimal.OfNat(next);
    var head, middle := "[" + stamp + "] [diag] log part full (", " MB), continuing in part ";
    EightIsOneDigit();
    assert Note(stamp, 8, next) == head + a + middle + b + "\n";
    assert |head| == 37 && |middle| == 25;
  }

  lemma EightIsOneDigit()
    ensures |Decimal.OfNat(8)| == 1
  {
  }

  // ----- one entry more ---------------------------------------------------------------------------------

  // The record after an entry, and after the roll it brings on.
  function Written(entries: seq<Entry>, e: Entry, rollStamp: string): seq<Entry> {
    var more := entries + [e];
    if SinceRoll(more) >= MAX_PART_BYTES then more + [Roll(rollStamp, (Rolls(more) + 1) % MAX_PARTS)] else more
  }

  lemma EntrySnoc(entries: seq<Entry>, e: Entry)
    ensures LogText(entries + [e]) == LogText(entries) + Bytes(e)
    ensures LinesOf(entries + [e]) == LinesOf(entries) + if e.Line? then [e.text] else []
    ensures DropsIn(entries + [e]) == DropsIn(entries) + if e.Dropped? then e.since else 0
    ensures NotesOf(entries + [e])
         == NotesOf(entries) + if e.Dropped? then [NoteAt(e.since, e.total, |LinesOf(entries)|)] else []
    ensures Rolls(entries + [e]) == Rolls(entries) + if e.Roll? then 1 else 0
    ensures SinceRoll(entries + [e]) == if e.Roll? then 0 else SinceRoll(entries) + |Bytes(e)|
  {
    hide Bytes;
    assert (entries + [e])[..|entries|] == entries;
  }

  lemma RollsSnoc(entries: seq<Entry>, e: Entry)
    requires WellRolled(entries) && RollInPlace(entries, e)
    ensures WellRolled(entries + [e])
  {
    hide RollInPlace;
    var more := entries + [e];
    forall k | 0 <= k < |more| ensures RollInPlace(more[..k], more[k]) {
      if k < |entries| {
        assert more[..k] == entries[..k];
      } else {
        assert more[..k] == entries;
      }
    }
  }

  /** One entry more, and the roll it may bring on: what the record tells afterwards. */
  lemma WrittenKeeps(entries: seq<Entry>, e: Entry, rollStamp: string)
    requires WellRolled(entries) && !Filled(entries) && !e.Roll?
    ensures var after := Written(entries, e, rollStamp);
            && WellRolled(after) && !Filled(after)
            && LinesOf(after) == LinesOf(entries) + (if e.Line? then [e.text] else [])
            && DropsIn(after) == DropsIn(entries) + (if e.Dropped? then e.since else 0)
            && NotesOf(after)
               == NotesOf(entries) + if e.Dropped? then [NoteAt(e.since, e.total, |LinesOf(entries)|)] else []
    ensures var bytes := SinceRoll(entries) + |Bytes(e)|;
            var after := Written(entries, e, rollStamp);
            if bytes >= MAX_PART_BYTES then
              var next := (Rolls(entries) + 1) % MAX_PARTS;
              && LogText(after) == LogText(entries) + Bytes(e) + Note(rollStamp, MEGABYTES, next)
              && Rolls(after) == Rolls(entries) + 1 && SinceRoll(after) == 0 && after[|after| - 1].Roll?
            else
              && LogText(after) == LogText(entries) + Bytes(e)
              && Rolls(after) == Rolls(entries) && SinceRoll(after) == bytes && after[|after| - 1] == e
  {
    hide LogText, LinesOf, DropsIn, NotesOf, Rolls, SinceRoll, WellRolled, Stamped, Note, DropNote;
    var more := entries + [e];
    EntrySnoc(entries, e);
    RollsSnoc(entries, e);
    if SinceRoll(more) >= MAX_PART_BYTES {
      var roll := Roll(rollStamp, (Rolls(more) + 1) % MAX_PARTS);
      EntrySnoc(more, roll);
      RollsSnoc(more, roll);
      assert LinesOf(more) + [] == LinesOf(more) && NotesOf(more) + [] == NotesOf(more);
    }
  }
}
