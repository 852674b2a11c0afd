/**
 The cycling log parts: src/app/log_parts.h, and the writer that rolls them, src/app/diag_log.cpp:87-123.
 The directory is a map from part number to content; an open that succeeds truncates, one that
 fails leaves the old file alone and the log closed. Writes are complete.
 */
module LogParts {
  import Decimal
  import Modulo

  // ----- names --------------------------------------------------------------------------------------

  function Name(stamp: string, part: nat): string {
    if part == 0 then "\\zcomms-" + stamp + ".log"
    else "\\zcomms-" + stamp + "." + Decimal.OfNat(part) + ".log"
  }

  lemma NumbersDiffer(i: nat, j: nat)
    requires Decimal.OfNat(i) == Decimal.OfNat(j)
    ensures i == j
  {
    Decimal.OfNatDigits(i);
    Decimal.OfNatDigits(j);
  }

  // The part of a numbered name between the stamp and the extension.
  lemma Middle(a: string, b: string, digits: string, c: string)
    ensures (a + b + digits + c)[|a + b|..|a + b| + |digits|] == digits
    ensures |a + b + digits + c| == |a| + |b| + |digits| + |c|
  {
  }

  /** Each part has a file of its own. */
  lemma NamesAreDistinct(stamp: string, i: nat, j: nat)
    requires Name(stamp, i) == Name(stamp, j)
    ensures i == j
  {
    Decimal.OfNatDigits(i);
    Decimal.OfNatDigits(j);
    Middle("\\zcomms-" + stamp, ".", Decimal.OfNat(i), ".log");
    Middle("\\zcomms-" + stamp, ".", Decimal.OfNat(j), ".log");
    if i > 0 && j > 0 {
      var name := Name(stamp, i);
      assert |Decimal.OfNat(i)| == |Decimal.OfNat(j)|;
      NumbersDiffer(i, j);
    }
  }

  // ----- the policy -----------------------------------------------------------------------------------

  class Parts {
    const maxBytes: int
    const maxParts: nat
    var part: nat
    var bytes: int

    constructor (maxPartBytes: int, parts: nat)
      ensures maxBytes == maxPartBytes && maxParts == parts && part == 0 && bytes == 0
    {
      maxBytes, maxParts, part, bytes := maxPartBytes, parts, 0, 0;
    }

    function NextPart(): nat
      requires maxParts > 0
      reads this`part
    {
      (part + 1) % maxParts
    }

    method Wrote(n: nat) returns (full: bool)
      modifies this`bytes
      ensures bytes == old(bytes) + n && (full <==> bytes >= maxBytes)
    {
      bytes := bytes + n;
      full := bytes >= maxBytes;
    }

    method Advance()
      requires maxParts > 0
      modifies this
      ensures part == old(NextPart()) && bytes == 0
    {
      part := NextPart();
      bytes := 0;
    }
  }

  // ----- the reference: the parts ever begun, in order ------------------------------------------------

  // The whole log of a run, were no part ever reused.
  function Concat(contents: seq<string>): string {
    if contents == [] then "" else Concat(contents[..|contents| - 1]) + contents[|contents| - 1]
  }

  // The last `keep` parts are the ones on disk, each in its place of the cycle.
  ghost predicate OnDisk(files: map<nat, string>, contents: seq<string>, keep: nat)
    requires keep > 0
  {
    && (forall p :: p in files ==> p < keep && p < |contents|)
    && (forall q :: 0 <= q < |contents| && |contents| <= q + keep ==> q % keep in files && files[q % keep] == contents[q])
  }

  lemma BeginPart(files: map<nat, string>, contents: seq<string>, keep: nat)
    requires keep > 0 && OnDisk(files, contents, keep)
    ensures OnDisk(files[|contents| % keep := ""], contents + [""], keep)
  {
    var n := |contents|;
    forall q | 0 <= q < n && n + 1 <= q + keep ensures q % keep != n % keep {
      Modulo.Distinct(q, n, keep);
    }
    assert n % keep <= n by { var d, r := Modulo.Decompose(n, keep); assert d * keep >= 0; }
  }

  lemma AppendToLast(files: map<nat, string>, contents: seq<string>, keep: nat, text: string)
    requires keep > 0 && contents != [] && OnDisk(files, contents, keep)
    ensures var last := |contents| - 1;
            && last % keep in files && files[last % keep] == contents[last]
            && OnDisk(files[last % keep := contents[last] + text], contents[last := contents[last] + text], keep)
  {
    var last := |contents| - 1;
    forall q | 0 <= q < last && last + 1 <= q + keep ensures q % keep != last % keep {
      Modulo.Distinct(q, last, keep);
    }
  }

  lemma ConcatAppend(contents: seq<string>, text: string)
    requires contents != []
    ensures var last := |contents| - 1;
            Concat(contents[last := contents[last] + text]) == Concat(contents) + text
  {
    var last := |contents| - 1;
    var more := contents[last := contents[last] + text];
    assert more[..last] == contents[..last];
    assert Concat(contents[..last]) + (contents[last] + text) == Concat(contents[..last]) + contents[last] + text;
  }

  lemma ConcatBegin(contents: seq<string>)
    ensures Concat(contents + [""]) == Concat(contents)
  {
    assert (contents + [""])[..|contents|] == contents;
  }

  // ----- the budget ------------------------------------------------------------------------------------

  function TotalBelow(files: map<nat, string>, n: nat): nat {
    if n == 0 then 0 else TotalBelow(files, n - 1) + if n - 1 in files then |files[n - 1]| else 0
  }

  ghost predicate EachWithin(files: map<nat, string>, most: nat) {
    forall p :: p in files ==> |files[p]| <= most
  }

  lemma {:induction false} TotalWithin(files: map<nat, string>, n: nat, most: nat)
    requires EachWithin(files, most)
    ensures TotalBelow(files, n) <= n * most
  {
    if n > 0 {
      TotalWithin(files, n - 1, most);
      assert n * most == (n - 1) * most + most;
    }
  }

  // ----- the writer ---------------------------------------------------------------------------------------

  function Note(stamp: string, megabytes: nat, next: nat): string {
    "[" + stamp + "] [diag] log part full (" + Decimal.OfNat(megabytes) + " MB), continuing in part "
    + Decimal.OfNat(next) + "\n"
  }

  class LogFile {
    const parts: Parts
    const megabytes: nat
    var files: map<nat, string>
    var open: bool
    ghost var contents: seq<string>   // every part ever begun
    ghost const lineMax: nat          // what no line, and no roll note, exceeds
    ghost const noteMax: nat

    ghost predicate Placed()
      reads this, parts
    {
      && parts.maxParts > 0 && parts.maxBytes > 0
      && OnDisk(files, contents, parts.maxParts)
      && (open ==> contents != [] && parts.part == (|contents| - 1) % parts.maxParts)
      && (!open ==> parts.part == |contents| % parts.maxParts)
    }

    ghost function PartMax(): nat
      requires parts.maxBytes > 0
    {
      parts.maxBytes - 1 + lineMax + noteMax
    }

    // Every finished part was full and is within its bound; the current one still has room.
    ghost predicate Sized()
      reads this, parts
    {
      && parts.maxBytes > 0
      && EachWithin(files, PartMax())
      && (forall q :: 0 <= q < |contents| - (if open then 1 else 0) ==> |contents[q]| >= parts.maxBytes)
      && (open ==> contents != [] && |contents[|contents| - 1]| == parts.bytes < parts.maxBytes)
    }

    ghost predicate Valid()
      reads this, parts
    {
      Placed() && Sized()
    }

    constructor (maxPartBytes: nat, maxParts: nat, mb: nat, ghost longestLine: nat, ghost longestNote: nat)
      requires maxPartBytes > 0 && maxParts > 0
      ensures Valid() && fresh(parts) && !open && contents == [] && files == map[]
      ensures parts.maxBytes == maxPartBytes && parts.maxParts == maxParts && parts.bytes == 0 && megabytes == mb
      ensures lineMax == longestLine && noteMax == longestNote
    {
      parts := new Parts(maxPartBytes, maxParts);
      megabytes := mb;
      files, open, contents := map[], false, [];
      lineMax, noteMax := longestLine, longestNote;
      new;
      Modulo.Small(0, maxParts);
    }

    /** A reused part starts empty; a failed open closes the log and leaves the old file. */
    method OpenPart(opens: bool)
      requires Valid() && !open && parts.bytes == 0
      modifies this`files, this`open, this`contents
      ensures Valid() && open == opens
      ensures contents == old(contents) + if opens then [""] else []
      ensures !opens ==> files == old(files)
    {
      hide OnDisk;
      if opens {
        BeginPart(files, contents, parts.maxParts);
        files := files[parts.part := ""];
        contents := contents + [""];
        open := true;
      }
    }

    // The bytes of one write, at the end of the current part.
    method Append(text: string)
      requires Placed() && open
      modifies this`files, this`contents
      ensures Placed() && open
      ensures var last := |old(contents)| - 1; contents == old(contents)[last := old(contents)[last] + text]
      ensures parts.part in old(files) && old(files)[parts.part] == old(contents)[|old(contents)| - 1]
      ensures files == old(files)[parts.part := contents[|contents| - 1]]
    {
      hide OnDisk;
      AppendToLast(files, contents, parts.maxParts, text);
      var last := parts.part;
      files := files[last := files[last] + text];
      contents := contents[|contents| - 1 := contents[|contents| - 1] + text];
    }

    // On to the next part.
    method Turn(opens: bool)
      requires Placed() && open && EachWithin(files, PartMax())
      requires forall q :: 0 <= q < |contents| ==> |contents[q]| >= parts.maxBytes
      modifies this`files, this`open, this`contents, parts
      ensures Valid() && open == opens && parts.part == old(parts.NextPart()) && parts.bytes == 0
      ensures Concat(contents) == Concat(old(contents))
    {
      hide OnDisk, Concat, EachWithin;
      ConcatBegin(contents);
      Modulo.Add(|contents| - 1, 1, parts.maxParts);
      parts.Advance();
      open := false;
      assert Placed() && Sized();
      OpenPart(opens);
      assert old(contents) + [] == old(contents);
    }

    // The part is full: the note, the next part, the reopening.
    method Roll(stamp: string, opens: bool)
      requires Placed() && open && EachWithin(files, PartMax())
      requires |Note(stamp, megabytes, parts.NextPart())| <= noteMax
      requires parts.maxBytes <= |contents[|contents| - 1]| <= parts.maxBytes - 1 + lineMax
      requires forall q :: 0 <= q < |contents| - 1 ==> |contents[q]| >= parts.maxBytes
      modifies this`files, this`open, this`contents, parts
      ensures Valid() && open == opens && parts.part == old(parts.NextPart()) && parts.bytes == 0
      ensures Concat(contents) == Concat(old(contents)) + Note(stamp, megabytes, old(parts.NextPart()))
    {
      hide OnDisk, Note, Concat;
      var note := Note(stamp, megabytes, parts.NextPart());
      ConcatAppend(contents, note);
      Append(note);
      Turn(opens);
    }

    /** One line. A closed log takes nothing; a line that fills the part is followed by the roll. */
    method WriteFileLine(text: string, stamp: string, opens: bool)
      requires Valid() && |text| <= lineMax
      requires forall next :: 0 <= next < parts.maxParts ==> |Note(stamp, megabytes, next)| <= noteMax
      modifies this`files, this`open, this`contents, parts
      ensures Valid()
      ensures !old(open) ==> !open && files == old(files) && contents == old(contents)
      ensures !old(open) ==> parts.part == old(parts.part) && parts.bytes == old(parts.bytes)
      ensures old(open) && old(parts.bytes) + |text| >= parts.maxBytes ==>
        && Concat(contents) == Concat(old(contents)) + text + Note(stamp, megabytes, old(parts.NextPart()))
        && open == opens && parts.part == old(parts.NextPart()) && parts.bytes == 0
      ensures old(open) && old(parts.bytes) + |text| < parts.maxBytes ==>
        && Concat(contents) == Concat(old(contents)) + text
        && open && parts.part == old(parts.part) && parts.bytes == old(parts.bytes) + |text|
    {
      if !open { return; }
      hide OnDisk, Note, Concat;
      ConcatAppend(contents, text);
      Append(text);
      var full := parts.Wrote(|text|);
      if full {
        Roll(stamp, opens);
      }
    }
  }

  /** However long a run, the files it leaves never take more than the parts' budget together. */
  lemma WithinBudget(log: LogFile)
    requires log.Valid()
    ensures TotalBelow(log.files, log.parts.maxParts) <= log.parts.maxParts * log.PartMax()
    ensures forall p :: p in log.files ==> p < log.parts.maxParts
  {
    TotalWithin(log.files, log.parts.maxParts, log.PartMax());
  }

  // The newest parts, oldest first.
  function Newest(contents: seq<string>, keep: nat): seq<string> {
    if |contents| <= keep then contents else contents[|contents| - keep..]
  }

  // The same, read off the directory in cycle order.
  function ReadBack(files: map<nat, string>, begun: nat, keep: nat, n: nat): (r: seq<string>)
    requires keep > 0 && n <= begun && n <= keep
    requires forall q :: begun - n <= q < begun ==> q % keep in files
    ensures |r| == n
  {
    seq(n, i requires 0 <= i < n => files[(begun - n + i) % keep])
  }

  lemma OnDiskFrom(files: map<nat, string>, contents: seq<string>, keep: nat, first: nat)
    requires keep > 0 && OnDisk(files, contents, keep) && first <= |contents| <= first + keep
    ensures forall q :: first <= q < |contents| ==> q % keep in files && files[q % keep] == contents[q]
  {
  }

  lemma ReadBackAt(files: map<nat, string>, begun: nat, keep: nat, n: nat, i: nat)
    requires keep > 0 && n <= begun && n <= keep && i < n
    requires forall q :: begun - n <= q < begun ==> q % keep in files
    ensures ReadBack(files, begun, keep, n)[i] == files[(begun - n + i) % keep]
  {
  }

  lemma NewestOnDisk(files: map<nat, string>, contents: seq<string>, keep: nat)
    requires keep > 0 && OnDisk(files, contents, keep)
    ensures |Newest(contents, keep)| <= |contents| && |Newest(contents, keep)| <= keep
    ensures forall q :: |contents| - |Newest(contents, keep)| <= q < |contents| ==> q % keep in files
    ensures ReadBack(files, |contents|, keep, |Newest(contents, keep)|) == Newest(contents, keep)
  {
    var n, begun := |Newest(contents, keep)|, |contents|;
    hide OnDisk, ReadBack;
    OnDiskFrom(files, contents, keep, begun - n);
    var r := ReadBack(files, begun, keep, n);
    forall i | 0 <= i < n ensures r[i] == Newest(contents, keep)[i] { ReadBackAt(files, begun, keep, n, i); }
  }

  /**
   What is on disk, read in cycle order, is exactly the newest parts; and all but the newest of them is
   full. So while the log is open, the most recent (parts - 1) * maxBytes bytes are never lost.
   */
  lemma NewestSurvive(log: LogFile, n: nat)
    requires log.Valid() && n == |Newest(log.contents, log.parts.maxParts)|
    ensures forall q :: |log.contents| - n <= q < |log.contents| ==> q % log.parts.maxParts in log.files
    ensures ReadBack(log.files, |log.contents|, log.parts.maxParts, n) == Newest(log.contents, log.parts.maxParts)
    ensures forall q :: 0 <= q < |log.contents| - 1 ==> |log.contents[q]| >= log.parts.maxBytes
  {
    hide EachWithin, OnDisk, Newest;
    NewestOnDisk(log.files, log.contents, log.parts.maxParts);
  }
}
