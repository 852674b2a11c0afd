/**
 Feed descriptions as text: src/audio/extern_feed.cpp:13-68.

 A device name may hold colons, commas and dashes, so every field is split from the end.
 */
module ExternFeed {
  import opened CText
  import opened Decimal
  import opened Options

  const BUFFER := 32

  datatype FeedConfig = FeedConfig(device: string, chA: int, chB: int, gainDb: real, latch: bool)

  // ----- splitting ---------------------------------------------------------------------------------

  // std::string::rfind
  function LastIndex(s: string, c: char): (at: Option<nat>)
    ensures at.Some? ==> at.value < |s| && s[at.value] == c
  {
    if s == "" then None
    else if s[|s| - 1] == c then Some(|s| - 1)
    else LastIndex(s[..|s| - 1], c)
  }

  // std::string::find
  function FirstIndex(s: string, c: char): (at: Option<nat>)
    ensures at.Some? ==> at.value < |s| && s[at.value] == c
  {
    if s == "" then None
    else if s[0] == c then Some(0)
    else
      var rest := FirstIndex(s[1..], c);
      if rest.None? then None else Some(rest.value + 1)
  }

  // ----- reading numbers ---------------------------------------------------------------------------

  // strtol, with a 32-bit long: out of range saturates.
  function Clamp(n: int): int {
    if n > INT_MAX then INT_MAX else if n < INT_MIN then INT_MIN else n
  }

  // A channel number fills the whole text and is at least 1.
  function Channel(s: string): Option<int> {
    var text := CString(s);
    var r := Scan(text);
    if r.end != |text| || Clamp(r.value) < 1 then None else Some(Clamp(r.value))
  }

  datatype Channels = Channels(a: int, b: int)

  function ParseChannels(s: string): Option<Channels> {
    if s == "" then None
    else
      var dash := FirstIndex(s, '-');
      var a := Channel(if dash.None? then s else s[..dash.value]);
      if a.None? then None
      else if dash.None? then Some(Channels(a.value, -1))
      else
        var b := Channel(s[dash.value + 1..]);
        if b.None? then None else Some(Channels(a.value, b.value))
  }

  function ParseFeedSpec(spec: string): Option<FeedConfig> {
    var colon := LastIndex(spec, ':');
    if colon.None? || colon.value == 0 then None
    else
      var channels := ParseChannels(spec[colon.value + 1..]);
      if channels.None? then None
      else Some(FeedConfig(spec[..colon.value], channels.value.a, channels.value.b, 0.0, false))
  }

  // atof, for plain decimal notation
  function Atof(s: string): real {
    var start := SpaceRun(s);
    var signed := start < |s| && (s[start] == '-' || s[start] == '+');
    var text := s[if signed then start + 1 else start..];
    if signed && s[start] == '-' then -Unsigned(text) else Unsigned(text)
  }

  function Fraction(s: string): real {
    var n := DigitRun(s);
    ValueOf(s[..n]) as real / Pow10(n) as real
  }

  datatype LineFields = LineFields(spec: string, gain: string, latch: string)

  // The last two commas separate the fields.
  function SplitFields(line: string): Option<LineFields> {
    var c2 := LastIndex(line, ',');
    if c2.None? || c2.value == 0 then None
    else
      var c1 := LastIndex(line[..c2.value], ',');
      if c1.None? then None
      else Some(LineFields(line[..c1.value], line[c1.value + 1..c2.value], line[c2.value + 1..]))
  }

  function ParseFeedLine(line: string): Option<FeedConfig> {
    var fields := SplitFields(line);
    if fields.None? then None
    else
      var c := ParseFeedSpec(fields.value.spec);
      if c.None? then None
      else Some(c.value.(gainDb := Atof(fields.value.gain), latch := fields.value.latch == "1"))
  }

  // ----- printing ----------------------------------------------------------------------------------

  function FormatFeedSpec(c: FeedConfig): string {
    c.device + Cut(if c.chB > 0 then ":" + OfInt(c.chA) + "-" + OfInt(c.chB) else ":" + OfInt(c.chA), BUFFER)
  }

  // The size of a gain in tenths of a decibel, to the nearest.
  function Tenths(gain: real): nat {
    var size := if gain < 0.0 then -gain else gain;
    (size * 10.0 + 0.5).Floor
  }

  // %.1f
  function GainText(gain: real): string {
    var t := Tenths(gain);
    (if gain < 0.0 then "-" else "") + (OfNat(t / 10) + "." + [Digit(t % 10)])
  }

  function FlagText(on: bool): string {
    if on then "1" else "0"
  }

  function FormatFeedLine(c: FeedConfig): string {
    FormatFeedSpec(c) + Cut("," + GainText(c.gainDb) + "," + FlagText(c.latch), BUFFER)
  }

  // ----- splitting what was printed ----------------------------------------------------------------

  lemma {:induction false} LastIndexOf(x: string, c: char, y: string)
    requires c !in y
    ensures LastIndex(x + [c] + y, c) == Some(|x|)
  {
    var s := x + [c] + y;
    if y == "" {
      assert s[|s| - 1] == c;
    } else {
      assert s[|s| - 1] == y[|y| - 1];
      assert s[..|s| - 1] == x + [c] + y[..|y| - 1];
      LastIndexOf(x, c, y[..|y| - 1]);
    }
  }

  lemma {:induction false} FirstIndexOf(x: string, c: char, y: string)
    requires c !in x
    ensures FirstIndex(x + [c] + y, c) == Some(|x|)
  {
    var s := x + [c] + y;
    if x != "" {
      assert s[0] == x[0];
      assert s[1..] == x[1..] + [c] + y;
      FirstIndexOf(x[1..], c, y);
    }
  }

  lemma {:induction false} NotThere(s: string, c: char)
    requires c !in s
    ensures FirstIndex(s, c) == None
  {
    if s != "" { NotThere(s[1..], c); }
  }

  lemma {:induction false} NoNul(s: string)
    requires '\0' !in s
    ensures CString(s) == s
  {
    if s != "" {
      NoNul(s[1..]);
      assert s == [s[0]] + s[1..];
    }
  }

  // ----- channels ----------------------------------------------------------------------------------

  lemma ChannelOfInt(n: int)
    requires 0 <= n <= INT_MAX
    ensures Channel(OfInt(n)) == if n >= 1 then Some(n) else None
  {
    OfIntHasOnly(n, '\0');
    NoNul(OfInt(n));
    ScanOfInt(n, "");
    assert OfInt(n) + "" == OfInt(n);
  }

  lemma ChannelOfNothing()
    ensures Channel("") == None
  {
    assert Scan("").end == 0;
  }

  lemma ParseOne(a: int)
    requires IsInt32(a)
    ensures ParseChannels(OfInt(a)) == if a >= 1 then Some(Channels(a, -1)) else None
  {
    var s := OfInt(a);
    OfNatDigits(if a < 0 then -a else a);
    if a >= 0 {
      OfNatHasOnlyDigits(a, '-');
      NotThere(s, '-');
      ChannelOfInt(a);
    } else {
      assert s == "" + ['-'] + OfNat(-a);
      FirstIndexOf("", '-', OfNat(-a));
      ChannelOfNothing();
      assert s[..0] == "";
    }
  }

  lemma ParseTwo(a: int, b: int)
    requires IsInt32(a) && 1 <= b <= INT_MAX
    ensures ParseChannels(OfInt(a) + "-" + OfInt(b)) == if a >= 1 then Some(Channels(a, b)) else None
  {
    var s := OfInt(a) + ['-'] + OfInt(b);
    if a >= 0 {
      OfNatHasOnlyDigits(a, '-');
      FirstIndexOf(OfInt(a), '-', OfInt(b));
      assert s[..|OfInt(a)|] == OfInt(a) && s[|OfInt(a)| + 1..] == OfInt(b);
      ChannelOfInt(a);
      ChannelOfInt(b);
    } else {
      var rest := OfNat(-a) + ['-'] + OfInt(b);
      assert s == "" + ['-'] + rest;
      FirstIndexOf("", '-', rest);
      ChannelOfNothing();
      assert s[..0] == "";
    }
  }

  // ----- the spec ----------------------------------------------------------------------------------

  function ChannelText(c: FeedConfig): string {
    if c.chB > 0 then OfInt(c.chA) + "-" + OfInt(c.chB) else OfInt(c.chA)
  }

  lemma SpecText(c: FeedConfig)
    requires IsInt32(c.chA) && IsInt32(c.chB)
    ensures FormatFeedSpec(c) == c.device + [':'] + ChannelText(c)
    ensures ':' !in ChannelText(c) && ',' !in ChannelText(c)
  {
    Int32Length(c.chA);
    Int32Length(c.chB);
    OfIntHasOnly(c.chA, ':');
    OfIntHasOnly(c.chB, ':');
    OfIntHasOnly(c.chA, ',');
    OfIntHasOnly(c.chB, ',');
    if c.chB > 0 {
      assert ":" + OfInt(c.chA) + "-" + OfInt(c.chB) == ":" + ChannelText(c);
    }
    assert c.device + (":" + ChannelText(c)) == c.device + [':'] + ChannelText(c);
  }

  lemma ParseChannelText(c: FeedConfig)
    requires IsInt32(c.chA) && IsInt32(c.chB)
    ensures ParseChannels(ChannelText(c)) ==
      if c.chA >= 1 then Some(Channels(c.chA, if c.chB > 0 then c.chB else -1)) else None
  {
    if c.chB > 0 { ParseTwo(c.chA, c.chB); } else { ParseOne(c.chA); }
  }

  /** What reading a printed spec gives, for every configuration: the device whatever it is called, the
      channels, -1 for a missing second one; nothing at all for an empty name or a first channel below 1. */
  lemma SpecReadsBack(c: FeedConfig)
    requires IsInt32(c.chA) && IsInt32(c.chB)
    ensures ParseFeedSpec(FormatFeedSpec(c)) ==
      if c.device != "" && c.chA >= 1
      then Some(FeedConfig(c.device, c.chA, if c.chB > 0 then c.chB else -1, 0.0, false)) else None
  {
    SpecText(c);
    var spec := FormatFeedSpec(c);
    LastIndexOf(c.device, ':', ChannelText(c));
    ParseChannelText(c);
    assert spec[..|c.device|] == c.device && spec[|c.device| + 1..] == ChannelText(c);
  }

  // ----- the line ----------------------------------------------------------------------------------

  // The gain as printed: the nearest tenth.
  function PrintedGain(gain: real): real {
    var v := Tenths(gain) as real / 10.0;
    if gain < 0.0 then -v else v
  }

  lemma AtofDigits(whole: nat, tenth: nat)
    requires tenth < 10
    ensures var text := OfNat(whole) + "." + [Digit(tenth)];
            DigitRun(text) == |OfNat(whole)| && ValueOf(text[..DigitRun(text)]) == whole
            && Fraction(text[|OfNat(whole)| + 1..]) == tenth as real / 10.0
  {
    var ds := OfNat(whole);
    var text := ds + "." + [Digit(tenth)];
    OfNatDigits(whole);
    assert text == ds + ("." + [Digit(tenth)]);
    DigitRunOf(ds, "." + [Digit(tenth)]);
    assert text[..|ds|] == ds;
    var f := [Digit(tenth)];
    assert text[|ds| + 1..] == f;
    DigitRunOf(f, "");
    assert f + "" == f && f[..1] == f;
    assert f[..0] == "";
    assert ValueOf(f) == tenth;
    assert Pow10(1) == 10;
  }

  lemma UnsignedParts(whole: nat, tenth: nat)
    requires tenth < 10
    ensures var text := OfNat(whole) + "." + [Digit(tenth)];
            Unsigned(text) == whole as real + tenth as real / 10.0 && text != "" && IsDigit(text[0])
  {
    var text := OfNat(whole) + "." + [Digit(tenth)];
    OfNatDigits(whole);
    AtofDigits(whole, tenth);
    assert text[0] == OfNat(whole)[0] && text[|OfNat(whole)|] == '.';
  }

  lemma AtofParts(whole: nat, tenth: nat, negative: bool)
    requires tenth < 10
    ensures var v := whole as real + tenth as real / 10.0;
            Atof((if negative then "-" else "") + (OfNat(whole) + "." + [Digit(tenth)])) == if negative then -v else v
  {
    var text := OfNat(whole) + "." + [Digit(tenth)];
    UnsignedParts(whole, tenth);
    AtofSigned(text, negative);
  }

  function Unsigned(text: string): real {
    var n := DigitRun(text);
    var whole := ValueOf(text[..n]) as real;
    if n < |text| && text[n] == '.' then whole + Fraction(text[n + 1..]) else whole
  }

  lemma AtofSigned(text: string, negative: bool)
    requires text != "" && IsDigit(text[0])
    ensures Atof((if negative then "-" else "") + text) == if negative then -Unsigned(text) else Unsigned(text)
  {
    var s := (if negative then "-" else "") + text;
    assert SpaceRun(s) == 0;
    if negative { assert s[1..] == text; } else { assert s[0..] == text && s == text; }
  }

  lemma AtofGain(gain: real)
    ensures Atof(GainText(gain)) == PrintedGain(gain)
  {
    var t := Tenths(gain);
    AtofParts(t / 10, t % 10, gain < 0.0);
    assert t as real / 10.0 == (t / 10) as real + (t % 10) as real / 10.0;
  }

  lemma GainHasNoComma(gain: real)
    ensures ',' !in GainText(gain)
  {
    OfNatHasOnlyDigits(Tenths(gain) / 10, ',');
  }

  ghost predicate GainFits(gain: real) {
    |GainText(gain)| <= 28
  }

  lemma LineText(c: FeedConfig)
    requires GainFits(c.gainDb)
    ensures FormatFeedLine(c) == FormatFeedSpec(c) + [','] + GainText(c.gainDb) + [','] + FlagText(c.latch)
  {
    var gain, flag := GainText(c.gainDb), FlagText(c.latch);
    var tail := "," + gain + "," + flag;
    assert Cut(tail, BUFFER) == tail;
    assert tail == [','] + gain + [','] + flag;
    Associate(FormatFeedSpec(c), gain, flag);
  }

  lemma Associate(spec: string, gain: string, flag: string)
    ensures spec + ([','] + gain + [','] + flag) == spec + [','] + gain + [','] + flag
  {
  }

  lemma SplitLine(spec: string, gain: string, flag: string)
    requires ',' !in gain && ',' !in flag && spec != ""
    ensures SplitFields(spec + [','] + gain + [','] + flag) == Some(LineFields(spec, gain, flag))
  {
    var front := spec + [','] + gain;
    var line := front + [','] + flag;
    LastIndexOf(front, ',', flag);
    assert line[..|front|] == front && line[|front| + 1..] == flag;
    LastIndexOf(spec, ',', gain);
    assert line[..|spec|] == spec && line[|spec| + 1..|front|] == gain;
  }

  /** A gain below 1000 dB either way always fits. */
  lemma EverydayGainFits(gain: real)
    requires -1000.0 < gain < 1000.0
    ensures GainFits(gain)
  {
    assert Pow10(4) == 10000;
    OfNatLength(Tenths(gain) / 10, 4);
  }

  lemma LineParses(c: FeedConfig)
    requires GainFits(c.gainDb) && FormatFeedSpec(c) != ""
    ensures ParseFeedLine(FormatFeedLine(c)) ==
      var spec := ParseFeedSpec(FormatFeedSpec(c));
      if spec.None? then None else Some(spec.value.(gainDb := Atof(GainText(c.gainDb)), latch := c.latch))
  {
    LineText(c);
    GainHasNoComma(c.gainDb);
    SplitLine(FormatFeedSpec(c), GainText(c.gainDb), FlagText(c.latch));
    assert FlagText(c.latch) == "1" <==> c.latch;
  }

  /** What reading a printed line gives, whenever the gain fits its buffer: the same configuration with
      the gain at the nearest tenth and -1 for a missing second channel, or nothing. */
  lemma LineReadsBack(c: FeedConfig)
    requires IsInt32(c.chA) && IsInt32(c.chB) && GainFits(c.gainDb)
    ensures ParseFeedLine(FormatFeedLine(c)) ==
      if c.device != "" && c.chA >= 1
      then Some(FeedConfig(c.device, c.chA, if c.chB > 0 then c.chB else -1, PrintedGain(c.gainDb), c.latch)) else None
  {
    SpecText(c);
    SpecReadsBack(c);
    LineParses(c);
    AtofGain(c.gainDb);
  }

  ghost predicate WholeTenths(gain: real) {
    (gain * 10.0).Floor as real == gain * 10.0
  }

  lemma TenthsOf(k: int)
    ensures WholeTenths(k as real / 10.0)
  {
    assert k as real / 10.0 * 10.0 == k as real;
  }

  lemma TenthsNear(size: real, t: int)
    requires t as real <= size * 10.0 + 0.5 < t as real + 1.0
    ensures -0.05 <= t as real / 10.0 - size <= 0.05
  {
  }

  /** The gain printed is a whole number of tenths, and no other is nearer. */
  lemma PrintedNearest(gain: real)
    ensures WholeTenths(PrintedGain(gain)) && -0.05 <= PrintedGain(gain) - gain <= 0.05
  {
    var t: int := Tenths(gain);
    TenthsNear(if gain < 0.0 then -gain else gain, t);
    TenthsOf(t);
    TenthsOf(-t);
    hide Tenths, WholeTenths;
    assert (-t) as real / 10.0 == -(t as real / 10.0);
  }

  lemma FloorOf(x: real, k: int)
    requires k as real <= x < k as real + 1.0
    ensures x.Floor == k
  {
  }

  lemma RoundingWhole(x: real)
    ensures (x + 0.5).Floor as real == x <==> x.Floor as real == x
  {
    var k, n := x.Floor, (x + 0.5).Floor;
    if k as real == x { FloorOf(x + 0.5, k); }
    if n as real == x { FloorOf(x, n); }
  }

  lemma NegatedWhole(x: real)
    ensures (-x).Floor as real == -x <==> x.Floor as real == x
  {
    var k, l := x.Floor, (-x).Floor;
    if k as real == x { assert (-k) as real == -x; }
    if l as real == -x { assert (-l) as real == x; }
  }

  lemma PrintedExactly(gain: real)
    ensures PrintedGain(gain) == gain <==> WholeTenths(gain)
  {
    var size := if gain < 0.0 then -gain else gain;
    RoundingWhole(size * 10.0);
    NegatedWhole(gain * 10.0);
    assert -(gain * 10.0) == -gain * 10.0;
  }

  /** The line round trip is exact if and only if the device has a name, the first channel is at least 1,
      the second is -1 or at least 1, and the gain is a whole number of tenths. */
  lemma LineRoundTripIff(c: FeedConfig)
    requires IsInt32(c.chA) && IsInt32(c.chB) && GainFits(c.gainDb)
    ensures ParseFeedLine(FormatFeedLine(c)) == Some(c) <==>
      c.device != "" && c.chA >= 1 && (c.chB == -1 || c.chB >= 1) && WholeTenths(c.gainDb)
  {
    LineReadsBack(c);
    PrintedExactly(c.gainDb);
  }

  // ----- which texts are accepted -------------------------------------------------------------------------

  ghost predicate AllSpaces(s: string) {
    forall i :: 0 <= i < |s| ==> IsSpace(s[i])
  }

  // Spaces, a plus or nothing, and digits to the end; the number stays within 32 bits and is at least 1.
  ghost predicate NumeralAs(text: string, n: int, space: string, plus: bool, digits: string) {
    && text == space + (if plus then "+" else "") + digits
    && AllSpaces(space) && digits != "" && AllDigits(digits)
    && n == (if ValueOf(digits) > 0x7fff_ffff then 0x7fff_ffff else ValueOf(digits)) && n >= 1
  }

  ghost predicate Numeral(text: string, n: int) {
    exists space: string, plus: bool, digits: string :: NumeralAs(text, n, space, plus, digits)
  }

  lemma {:induction false} SpaceRunIs(s: string)
    ensures AllSpaces(s[..SpaceRun(s)]) && (SpaceRun(s) < |s| ==> !IsSpace(s[SpaceRun(s)]))
  {
    if s != "" && IsSpace(s[0]) {
      SpaceRunIs(s[1..]);
      assert s[..SpaceRun(s)] == [s[0]] + s[1..][..SpaceRun(s[1..])];
    }
  }

  lemma {:induction false} SpaceRunOf(space: string, rest: string)
    requires AllSpaces(space) && rest != "" && !IsSpace(rest[0])
    ensures SpaceRun(space + rest) == |space|
  {
    if space == "" {
      assert space + rest == rest;
    } else {
      assert (space + rest)[1..] == space[1..] + rest;
      SpaceRunOf(space[1..], rest);
    }
  }

  lemma DigitsAreNotSpaces(c: char)
    ensures IsDigit(c) ==> !IsSpace(c) && c != '-' && c != '+'
    ensures !IsSpace('+')
  {
  }

  lemma ScansWhole(text: string, n: int, space: string, plus: bool, digits: string)
    requires NumeralAs(text, n, space, plus, digits)
    ensures Scan(text) == Scanned(ValueOf(digits), |text|)
  {
    hide SpaceRun, DigitRun, ValueOf;
    var tail := (if plus then "+" else "") + digits;
    assert text == space + tail;
    DigitsAreNotSpaces(digits[0]);
    SpaceRunOf(space, tail);
    DigitRunOf(digits, "");
    assert digits + "" == digits && digits[..|digits|] == digits;
    var at := if plus then |space| + 1 else |space|;
    assert text[at..] == digits;
  }

  lemma WholeIsNumeral(text: string, n: int)
    requires Scan(text).end == |text| && text != "" && n == Clamp(Scan(text).value) && n >= 1
    ensures Numeral(text, n)
  {
    hide SpaceRun, DigitRun, ValueOf;
    SpaceRunIs(text);
    var start := SpaceRun(text);
    var signed := start < |text| && (text[start] == '-' || text[start] == '+');
    var at := if signed then start + 1 else start;
    var digits := text[at..];
    assert digits[..|digits|] == digits;
    assert text == text[..start] + (if signed then "+" else "") + digits;
    assert NumeralAs(text, n, text[..start], signed, digits);
  }

  lemma NothingToScan()
    ensures Scan("") == Scanned(0, 0)
  {
  }

  lemma ChannelIff(s: string, n: int)
    ensures Channel(s) == Some(n) <==> Numeral(CString(s), n)
  {
    hide Scan, CString;
    var text := CString(s);
    NothingToScan();
    if Channel(s) == Some(n) { WholeIsNumeral(text, n); }
    if Numeral(text, n) {
      var space, plus, digits :| NumeralAs(text, n, space, plus, digits);
      ScansWhole(text, n, space, plus, digits);
    }
  }

  lemma {:induction false} LastIndexIff(s: string, c: char, at: nat)
    ensures LastIndex(s, c) == Some(at) <==> at < |s| && s[at] == c && c !in s[at + 1..]
  {
    if at < |s| && s[at] == c && c !in s[at + 1..] {
      LastIndexOf(s[..at], c, s[at + 1..]);
      assert s == s[..at] + [c] + s[at + 1..];
    }
    if LastIndex(s, c) == Some(at) && at != |s| - 1 {
      LastIndexIff(s[..|s| - 1], c, at);
      assert s[at + 1..] == s[..|s| - 1][at + 1..] + [s[|s| - 1]];
    }
  }

  lemma {:induction false} FirstIndexIff(s: string, c: char, at: nat)
    ensures FirstIndex(s, c) == Some(at) <==> at < |s| && s[at] == c && c !in s[..at]
  {
    if at < |s| && s[at] == c && c !in s[..at] {
      FirstIndexOf(s[..at], c, s[at + 1..]);
      assert s == s[..at] + [c] + s[at + 1..];
    }
    if FirstIndex(s, c) == Some(at) && at != 0 {
      FirstIndexIff(s[1..], c, at - 1);
      assert s[..at] == [s[0]] + s[1..][..at - 1];
    }
  }

  lemma {:induction false} NoFirstIndexIff(s: string, c: char)
    ensures FirstIndex(s, c) == None <==> c !in s
  {
    if s != "" {
      NoFirstIndexIff(s[1..], c);
      assert s == [s[0]] + s[1..];
    }
  }

  // One channel, or two with the first dash between them.
  ghost predicate TwoChannels(s: string, dash: nat, a: int, b: int) {
    && dash < |s| && s[dash] == '-' && '-' !in s[..dash]
    && Numeral(CString(s[..dash]), a) && Numeral(CString(s[dash + 1..]), b)
  }

  ghost predicate ChannelsAs(s: string, a: int, b: int) {
    || ('-' !in s && Numeral(CString(s), a) && b == -1)
    || exists dash: nat :: TwoChannels(s, dash, a, b)
  }

  lemma NothingIsNoNumeral(n: int)
    ensures !Numeral("", n) && CString("") == ""
  {
  }

  lemma ChannelsIff(s: string, a: int, b: int)
    ensures ParseChannels(s) == Some(Channels(a, b)) <==> ChannelsAs(s, a, b)
  {
    hide Channel, Numeral, FirstIndex, CString;
    NothingIsNoNumeral(a);
    NoFirstIndexIff(s, '-');
    if '-' in s {
      var dash := FirstIndex(s, '-').value;
      FirstIndexIff(s, '-', dash);
      ChannelIff(s[..dash], a);
      ChannelIff(s[dash + 1..], b);
      if ParseChannels(s) == Some(Channels(a, b)) { assert TwoChannels(s, dash, a, b); }
      forall d: nat | TwoChannels(s, d, a, b) ensures d == dash { FirstIndexIff(s, '-', d); }
    } else {
      ChannelIff(s, a);
      assert forall dash: nat :: !TwoChannels(s, dash, a, b);
    }
  }

  // A device's name, the last colon, and its channels.
  ghost predicate SpecAs(spec: string, c: FeedConfig, colon: nat) {
    && 0 < colon < |spec| && spec[colon] == ':' && ':' !in spec[colon + 1..]
    && c.device == spec[..colon] && ChannelsAs(spec[colon + 1..], c.chA, c.chB)
  }

  /** Exactly which texts describe a feed, and which: a name of any kind, the last colon, and one or two whole numbers
      from 1 up, with nothing behind them. */
  lemma SpecParsesIff(spec: string, c: FeedConfig)
    ensures ParseFeedSpec(spec) == Some(c) <==>
      c.gainDb == 0.0 && !c.latch && exists colon: nat :: SpecAs(spec, c, colon)
  {
    hide ParseChannels, ChannelsAs, LastIndex;
    if ParseFeedSpec(spec) == Some(c) {
      var colon := LastIndex(spec, ':').value;
      LastIndexIff(spec, ':', colon);
      ChannelsIff(spec[colon + 1..], c.chA, c.chB);
      assert SpecAs(spec, c, colon);
    }
    forall colon: nat | SpecAs(spec, c, colon) && c.gainDb == 0.0 && !c.latch ensures ParseFeedSpec(spec) == Some(c) {
      LastIndexIff(spec, ':', colon);
      ChannelsIff(spec[colon + 1..], c.chA, c.chB);
    }
  }

  // A description, the last comma but one, the gain, the last comma, and the latch.
  ghost predicate LineAs(line: string, c: FeedConfig, first: nat, second: nat) {
    && first < second < |line| && line[first] == ',' && line[second] == ','
    && ',' !in line[first + 1..second] && ',' !in line[second + 1..]
    && ParseFeedSpec(line[..first]) == Some(c.(gainDb := 0.0, latch := false))
    && c.gainDb == Atof(line[first + 1..second]) && (c.latch <==> line[second + 1..] == "1")
  }

  /** And exactly which lines: a gain is read as far as it is one, and anything but 1 is no latch. */
  lemma LineParsesIff(line: string, c: FeedConfig)
    ensures ParseFeedLine(line) == Some(c) <==> exists first: nat, second: nat :: LineAs(line, c, first, second)
  {
    hide ParseFeedSpec, Atof, LastIndex;
    if ParseFeedLine(line) == Some(c) {
      var second := LastIndex(line, ',').value;
      var first := LastIndex(line[..second], ',').value;
      LastIndexIff(line, ',', second);
      LastIndexIff(line[..second], ',', first);
      SpecIsPlain(line[..first]);
      assert line[..second][first + 1..] == line[first + 1..second];
      assert line[..second][..first] == line[..first];
      assert LineAs(line, c, first, second);
    }
    forall first: nat, second: nat | LineAs(line, c, first, second) ensures ParseFeedLine(line) == Some(c) {
      LastIndexIff(line, ',', second);
      LastIndexIff(line[..second], ',', first);
      assert line[..second][first + 1..] == line[first + 1..second];
    }
  }

  lemma SpecIsPlain(spec: string)
    ensures ParseFeedSpec(spec).Some? ==> ParseFeedSpec(spec).value.gainDb == 0.0 && !ParseFeedSpec(spec).value.latch
  {
  }
}
