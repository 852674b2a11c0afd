/**
 The chat signal wire format: src/zoom/signal_protocol.cpp.

 A message is printed as one flat JSON line into a 512-byte buffer, so 511 characters at most
 survive; the reader finds each key by a plain text search and undoes the escaping by hand.
 */
module SignalProtocol {
  import opened CText
  import opened Decimal
  import opened Options

  datatype Kind = Cue | Assign | Fallback | Hello

  datatype Signal = Signal(kind: Kind, slot: int, on: bool, channelName: string, from: string)

  const PREFIX := "~ZC1~"
  const BUFFER := 512
  const DEFAULT := Signal(Hello, -1, false, "", "")

  // ----- writing ---------------------------------------------------------------------------------

  function EscapedChar(c: char): string {
    if c == '"' || c == '\\' then ['\\', c] else [c]
  }

  function Escaped(s: string): string {
    if s == "" then "" else EscapedChar(s[0]) + Escaped(s[1..])
  }

  // One character further.
  lemma EscapedStep(out: string, s: string, i: nat)
    requires i < |s|
    ensures (out + EscapedChar(s[i])) + Escaped(s[i + 1..]) == out + Escaped(s[i..])
  {
    hide EscapedChar;
    assert s[i..][1..] == s[i + 1..];
    assert (out + EscapedChar(s[i])) + Escaped(s[i + 1..]) == out + (EscapedChar(s[i]) + Escaped(s[i + 1..]));
  }

  lemma EscapedEnds(out: string, s: string)
    ensures s[0..] == s && "" + Escaped(s) == Escaped(s) && out + Escaped(s[|s|..]) == out
  {
  }

  method JsonEscape(s: string) returns (out: string)
    ensures out == Escaped(s)
  {
    hide Escaped;
    out := "";
    EscapedEnds(out, s);
    for i := 0 to |s|
      invariant out + Escaped(s[i..]) == Escaped(s)
    {
      EscapedStep(out, s, i);
      ghost var before := out;
      if s[i] == '"' || s[i] == '\\' { out := out + ['\\']; }
      out := out + [s[i]];
      assert out == before + EscapedChar(s[i]);
    }
    EscapedEnds(out, s);
  }

  function KindName(k: Kind): string {
    match k
    case Cue => "cue"
    case Assign => "assign"
    case Fallback => "fallback"
    case Hello => "hello"
  }

  function BoolName(b: bool): string {
    if b then "true" else "false"
  }

  // A quote, the text up to the next quote, and the rest.
  function Quoted(text: string, rest: string): string {
    ['"'] + text + rest
  }

  // The printf format, cut at its quotes: {"t":"..","slot":..,"on":..,"ch":"..","from":".."}
  function AfterFromKey(from: string): string { Quoted(":", Quoted(from, Quoted("}", ""))) }
  function AfterChannel(from: string): string { Quoted(",", Quoted("from", AfterFromKey(from))) }
  function AfterChKey(ch: string, from: string): string { Quoted(":", Quoted(ch, AfterChannel(from))) }
  function AfterOn(ch: string, from: string): string { Quoted("ch", AfterChKey(ch, from)) }
  function AfterOnKey(on: string, ch: string, from: string): string { Quoted(":" + on + ",", AfterOn(ch, from)) }
  function AfterSlot(on: string, ch: string, from: string): string { Quoted("on", AfterOnKey(on, ch, from)) }
  function AfterSlotKey(slot: string, on: string, ch: string, from: string): string {
    Quoted(":" + slot + ",", AfterSlot(on, ch, from))
  }
  function AfterKind(slot: string, on: string, ch: string, from: string): string {
    Quoted(",", Quoted("slot", AfterSlotKey(slot, on, ch, from)))
  }
  function AfterTKey(t: string, slot: string, on: string, ch: string, from: string): string {
    Quoted(":", Quoted(t, AfterKind(slot, on, ch, from)))
  }
  function Format(t: string, slot: string, on: string, ch: string, from: string): string {
    "{" + Quoted("t", AfterTKey(t, slot, on, ch, from))
  }

  function Body(m: Signal): string {
    Format(KindName(m.kind), OfInt(m.slot), BoolName(m.on), CString(Escaped(m.channelName)), CString(Escaped(m.from)))
  }

  // What goes out: as much of the line as the buffer holds.
  function Wire(m: Signal): string {
    Cut(PREFIX + Body(m), BUFFER)
  }

  method EncodeSignal(m: Signal) returns (wire: string)
    ensures wire == Wire(m)
  {
    var t := if m.kind.Cue? then "cue" else if m.kind.Assign? then "assign"
             else if m.kind.Fallback? then "fallback" else "hello";
    var channelName := JsonEscape(m.channelName);
    var from := JsonEscape(m.from);
    wire := Cut(PREFIX + Format(t, OfInt(m.slot), if m.on then "true" else "false", CString(channelName), CString(from)), BUFFER);
  }

  // ----- reading ---------------------------------------------------------------------------------

  // "key": stands at position i.
  predicate KeyAt(j: string, key: string, i: nat) {
    i + |key| + 3 <= |j| && j[i] == '"' && j[i + 1..i + 1 + |key|] == key
    && j[i + 1 + |key|] == '"' && j[i + 2 + |key|] == ':'
  }

  // std::string::find of "key": from position `from`, then past it.
  function FindFrom(j: string, key: string, from: nat): (at: Option<nat>)
    requires from <= |j|
    ensures at.Some? ==> from + |key| + 3 <= at.value <= |j| && KeyAt(j, key, at.value - |key| - 3)
    ensures at.Some? ==> forall i :: from <= i < at.value - |key| - 3 ==> !KeyAt(j, key, i)
    ensures at.None? ==> forall i :: from <= i ==> !KeyAt(j, key, i)
    decreases |j| - from
  {
    if KeyAt(j, key, from) then Some(from + |key| + 3)
    else if from == |j| then None
    else FindFrom(j, key, from + 1)
  }

  function FindValue(j: string, key: string): Option<nat> {
    FindFrom(j, key, 0)
  }

  function Behind(front: string, rest: Option<string>): Option<string> {
    if rest.None? then None else Some(front + rest.value)
  }

  lemma BehindBehind(a: string, b: string, rest: Option<string>)
    ensures Behind(a, Behind(b, rest)) == Behind(a + b, rest)
    ensures Behind("", rest) == rest
  {
    if rest.Some? {
      assert a + (b + rest.value) == (a + b) + rest.value;
      assert "" + rest.value == rest.value;
    }
  }

  // The characters up to the closing quote; a backslash shields the next one.
  function ReadQuoted(j: string, at: nat): Option<string>
    requires at <= |j|
    decreases |j| - at
  {
    if at == |j| then None
    else if j[at] == '"' then Some("")
    else
      var from := if j[at] == '\\' && at + 1 < |j| then at + 1 else at;
      Behind([j[from]], ReadQuoted(j, from + 1))
  }

  function StringAt(j: string, at: Option<nat>): Option<string>
    requires at.Some? ==> at.value <= |j|
  {
    if at.None? || at.value == |j| || j[at.value] != '"' then None else ReadQuoted(j, at.value + 1)
  }

  method GetString(j: string, key: string) returns (v: Option<string>)
    ensures v == StringAt(j, FindValue(j, key))
  {
    var found := FindValue(j, key);
    if found.None? || found.value >= |j| || j[found.value] != '"' { return None; }
    var at := found.value + 1;
    var out := "";
    BehindBehind("", "", ReadQuoted(j, at));
    while at < |j| && j[at] != '"'
      invariant found.value + 1 <= at <= |j|
      invariant ReadQuoted(j, found.value + 1) == Behind(out, ReadQuoted(j, at))
      decreases |j| - at
    {
      if j[at] == '\\' && at + 1 < |j| { at := at + 1; }
      BehindBehind(out, [j[at]], ReadQuoted(j, at + 1));
      out := out + [j[at]];
      at := at + 1;
    }
    if at >= |j| { return None; }
    assert out + "" == out;
    return Some(out);
  }

  function IntAt(j: string, at: Option<nat>, default: int): int
    requires at.Some? ==> at.value <= |j|
  {
    if at.None? then default else Scan(j[at.value..]).value
  }

  function BoolAt(j: string, at: Option<nat>, default: bool): bool
    requires at.Some? ==> at.value <= |j|
  {
    if at.None? then default
    else if "true" <= j[at.value..] then true
    else if "false" <= j[at.value..] then false
    else default
  }

  function KindOf(t: string): Option<Kind> {
    if t == "cue" then Some(Cue)
    else if t == "assign" then Some(Assign)
    else if t == "fallback" then Some(Fallback)
    else if t == "hello" then Some(Hello)
    else None
  }

  function Or(v: Option<string>, default: string): string {
    if v.Some? then v.value else default
  }

  function DecodeBody(j: string): Option<Signal> {
    var t := StringAt(j, FindValue(j, "t"));
    if t.None? || KindOf(t.value).None? then None
    else Some(Signal(KindOf(t.value).value,
                     IntAt(j, FindValue(j, "slot"), DEFAULT.slot),
                     BoolAt(j, FindValue(j, "on"), DEFAULT.on),
                     Or(StringAt(j, FindValue(j, "ch")), DEFAULT.channelName),
                     Or(StringAt(j, FindValue(j, "from")), DEFAULT.from)))
  }

  // None: not ours. Chat is full of human text, so this is never an error.
  function Decode(content: string): Option<Signal> {
    if PREFIX <= content then DecodeBody(content[|PREFIX|..]) else None
  }

  method DecodeSignal(content: string) returns (m: Option<Signal>)
    ensures m == Decode(content)
  {
    hide FindFrom, KeyAt, StringAt, IntAt, BoolAt;
    if !(PREFIX <= content) { return None; }
    var j := content[|PREFIX|..];
    var t := GetString(j, "t");
    if t.None? { return None; }
    var out := DEFAULT;
    if t.value == "cue" { out := out.(kind := Cue); }
    else if t.value == "assign" { out := out.(kind := Assign); }
    else if t.value == "fallback" { out := out.(kind := Fallback); }
    else if t.value == "hello" { out := out.(kind := Hello); }
    else { return None; }
    out := out.(slot := IntAt(j, FindValue(j, "slot"), out.slot));
    out := out.(on := BoolAt(j, FindValue(j, "on"), out.on));
    var ch := GetString(j, "ch");
    if ch.Some? { out := out.(channelName := ch.value); }
    var from := GetString(j, "from");
    if from.Some? { out := out.(from := from.value); }
    return Some(out);
  }

  // What a line does not say has its default.
  ghost predicate Unsaid(j: string, m: Signal) {
    && (FindValue(j, "slot").None? ==> m.slot == -1) && (FindValue(j, "on").None? ==> !m.on)
    && (StringAt(j, FindValue(j, "ch")).None? ==> m.channelName == "")
    && (StringAt(j, FindValue(j, "from")).None? ==> m.from == "")
  }

  /** A text is one of ours exactly when it has the prefix and, behind it, a kind we know; what it leaves out has its
      default, and everything else about it is ignored. */
  lemma OursIff(content: string)
    ensures Decode(content).Some? <==>
      && "~ZC1~" <= content
      && var t := StringAt(content[5..], FindValue(content[5..], "t"));
         t.Some? && t.value in ["cue", "assign", "fallback", "hello"]
    ensures Decode(content).Some? ==> Unsaid(content[5..], Decode(content).value)
  {
    hide FindFrom, KeyAt, ReadQuoted;
    assert |PREFIX| == 5;
  }
}
