/**
 What arrives of a signal: the reader gets back exactly what was written, whatever quotes,
 backslashes or look-alike keys the names contain; if the line was cut at 511 characters, each
 name arrives whole or not at all.
 */
module SignalRoundTrip {
  import opened CText
  import opened Decimal
  import opened Options
  import opened SignalProtocol

  // ----- finding keys --------------------------------------------------------------------------

  predicate Plain(x: string) {
    forall i :: 0 <= i < |x| ==> x[i] != '"'
  }

  // The first "key": of j is followed by v.
  ghost predicate FindsRest(j: string, key: string, v: string) {
    FindValue(j, key).Some? && j[FindValue(j, key).value..] == v
  }

  lemma FirstKey(j: string, key: string, i: nat)
    requires KeyAt(j, key, i) && forall k :: 0 <= k < i ==> !KeyAt(j, key, k)
    ensures FindValue(j, key) == Some(i + |key| + 3)
  {
  }

  lemma KeyShift(x: string, y: string, key: string, k: nat)
    ensures KeyAt(x + y, key, |x| + k) <==> KeyAt(y, key, k)
  {
    if k + |key| + 3 <= |y| {
      assert (x + y)[|x| + k + 1..|x| + k + 1 + |key|] == y[k + 1..k + 1 + |key|];
    }
  }

  // A key of the tail is the key of the whole when none starts in the front.
  lemma FindBehind(x: string, y: string, key: string, v: string)
    requires FindsRest(y, key, v)
    requires forall k :: 0 <= k < |x| ==> !KeyAt(x + y, key, k)
    ensures FindsRest(x + y, key, v)
  {
    var at := FindValue(y, key).value;
    var i := at - |key| - 3;
    var j := x + y;
    KeyShift(x, y, key, i);
    forall k | |x| <= k < |x| + i ensures !KeyAt(j, key, k) { KeyShift(x, y, key, k - |x|); }
    FirstKey(j, key, |x| + i);
    assert j[|x| + at..] == y[at..];
  }

  // A quoted text that is not the key, or is not followed by a colon, is passed over.
  lemma SkipQuoted(text: string, rest: string, key: string, v: string)
    requires Plain(text) && Plain(key)
    requires rest != "" && rest[0] == '"' && (text == key ==> |rest| >= 2 && rest[1] != ':')
    requires FindsRest(rest, key, v)
    ensures FindsRest(Quoted(text, rest), key, v)
  {
    var x := ['"'] + text;
    var j := x + rest;
    assert Quoted(text, rest) == j;
    forall k | 0 <= k < |x| ensures !KeyAt(j, key, k) {
      if KeyAt(j, key, k) {
        assert k == 0;
        NextQuote(j, key, text, rest);
      }
    }
    FindBehind(x, rest, key, v);
  }

  lemma NextQuote(j: string, key: string, text: string, rest: string)
    requires j == ['"'] + text + rest && Plain(text) && Plain(key) && rest != "" && rest[0] == '"'
    requires KeyAt(j, key, 0)
    ensures text == key && |rest| >= 2 && rest[1] == ':'
  {
    forall i | 0 <= i < |text| ensures j[1 + i] == text[i] {}
    forall i | 0 <= i < |key| ensures j[1 + i] == key[i] { assert j[1..1 + |key|][i] == j[1 + i]; }
    assert j[1 + |key|] == '"' && j[1 + |text|] == rest[0];
    assert |text| == |key|;
    assert text == key;
  }

  lemma HitQuoted(key: string, after: string)
    ensures FindsRest(Quoted(key, Quoted(":", after)), key, after)
  {
    var j := Quoted(key, Quoted(":", after));
    assert j[1..1 + |key|] == key;
    FirstKey(j, key, 0);
    assert j[|key| + 3..] == after;
  }

  // ----- names ---------------------------------------------------------------------------------

  /** Escaping and then stopping at a NUL is stopping and then escaping. */
  lemma {:induction false} CutThenEscape(s: string)
    ensures CString(Escaped(s)) == Escaped(CString(s))
  {
    if s != "" {
      CutThenEscape(s[1..]);
      var e := Escaped(s[1..]);
      if s[0] == '"' || s[0] == '\\' {
        assert Escaped(s) == ['\\'] + ([s[0]] + e);
        CStringStep('\\', [s[0]] + e);
        CStringStep(s[0], e);
      } else if s[0] == '\0' {
        CStringStep(s[0], e);
      } else {
        CStringStep(s[0], e);
      }
    }
  }

  lemma CStringStep(c: char, s: string)
    ensures CString([c] + s) == if c == '\0' then "" else [c] + CString(s)
  {
    assert ([c] + s)[1..] == s;
  }

  // Inside an escaped name every quote has a backslash in front of it.
  ghost predicate Shielded(e: string) {
    forall i :: 0 <= i < |e| && e[i] == '"' ==> i > 0 && e[i - 1] == '\\'
  }

  lemma {:induction false} EscapedIsShielded(s: string)
    ensures Shielded(Escaped(s))
  {
    if s != "" {
      EscapedIsShielded(s[1..]);
      var rest := Escaped(s[1..]);
      if s[0] == '"' || s[0] == '\\' {
        assert Escaped(s) == ['\\', s[0]] + rest;
      } else {
        assert Escaped(s) == [s[0]] + rest;
      }
    }
  }

  // Where a look-alike key that starts in a name closes: at a quote of the name, with the key's last
  // character in front of it, or at the name's own end, with a colon behind it.
  lemma WhereItCloses(e: string, rest: string, key: string, k: nat)
    requires rest != "" && rest[0] == '"' && Plain(key) && key != ""
    requires k <= |e| && KeyAt(Quoted(e, rest), key, k)
    ensures var c := k + 1 + |key|;
            && c <= |e| + 1
            && (c <= |e| ==> c >= 2 && e[c - 1] == '"' && e[c - 2] == key[|key| - 1])
            && (c == |e| + 1 ==> |rest| >= 2 && rest[1] == ':')
  {
    var j := Quoted(e, rest);
    var c := k + 1 + |key|;
    forall i | 0 <= i < |key| ensures j[k + 1 + i] == key[i] { assert j[k + 1..k + 1 + |key|][i] == j[k + 1 + i]; }
    forall i | 0 <= i < |e| ensures j[i + 1] == e[i] {}
    assert j[1 + |e|] == rest[0];
    forall p | k + 1 <= p < c ensures j[p] != '"' { assert j[p] == key[p - k - 1]; }
    assert j[c - 1] == key[|key| - 1] && j[c] == '"' && j[c + 1] == ':';
  }

  // No key is taken from inside a name: keys do not end in a backslash, and names end before a comma.
  lemma NoKeyInName(e: string, rest: string, key: string, k: nat)
    requires Shielded(e) && |rest| >= 2 && rest[0] == '"' && rest[1] == ','
    requires Plain(key) && key != "" && key[|key| - 1] != '\\'
    requires k <= |e|
    ensures !KeyAt(Quoted(e, rest), key, k)
  {
    if KeyAt(Quoted(e, rest), key, k) { WhereItCloses(e, rest, key, k); }
  }

  lemma SkipName(e: string, rest: string, key: string, v: string)
    requires Shielded(e) && |rest| >= 2 && rest[0] == '"' && rest[1] == ','
    requires Plain(key) && key != "" && key[|key| - 1] != '\\'
    requires FindsRest(rest, key, v)
    ensures FindsRest(Quoted(e, rest), key, v)
  {
    var x := ['"'] + e;
    assert Quoted(e, rest) == x + rest;
    forall k | 0 <= k < |x| ensures !KeyAt(x + rest, key, k) { NoKeyInName(e, rest, key, k); }
    FindBehind(x, rest, key, v);
  }

  // ----- the keys of a printed line ---------------------------------------------------------------

  // The searched key is a word, not a separator.
  ghost predicate Word(key: string) {
    Plain(key) && key != "" && key[0] != ':' && key[0] != ',' && key[|key| - 1] != '\\'
  }

  lemma HitColon(key: string, text: string, rest: string)
    ensures FindsRest(Quoted(key, Quoted(":" + text, rest)), key, text + rest)
  {
    HitQuoted(key, text + rest);
    assert Quoted(":" + text, rest) == Quoted(":", text + rest);
  }

  lemma SkipSeparator(text: string, rest: string, key: string, v: string)
    requires Word(key) && Plain(text) && text != "" && (text[0] == ':' || text[0] == ',')
    requires rest != "" && rest[0] == '"' && FindsRest(rest, key, v)
    ensures FindsRest(Quoted(text, rest), key, v)
  {
    assert text != key;
    SkipQuoted(text, rest, key, v);
  }

  lemma OverKind(t: string, y: string, key: string, v: string)
    requires Word(key) && Plain(t) && key != t
    requires y != "" && y[0] == '"' && FindsRest(y, key, v)
    ensures FindsRest(Quoted(":", Quoted(t, Quoted(",", y))), key, v)
  {
    SkipSeparator(",", y, key, v);
    SkipQuoted(t, Quoted(",", y), key, v);
    SkipSeparator(":", Quoted(t, Quoted(",", y)), key, v);
  }

  lemma OverOpening(y: string, key: string, v: string)
    requires Word(key) && key != "t"
    requires y != "" && y[0] == '"' && FindsRest(y, key, v)
    ensures FindsRest("{" + Quoted("t", y), key, v)
  {
    SkipQuoted("t", y, key, v);
    OverBrace(Quoted("t", y), key, v);
  }

  lemma OverBrace(y: string, key: string, v: string)
    requires FindsRest(y, key, v)
    ensures FindsRest("{" + y, key, v)
  {
    assert ("{" + y)[0] == '{';
    FindBehind("{", y, key, v);
  }

  lemma FromSlotOn(t: string, slot: string, on: string, ch: string, from: string, key: string, v: string)
    requires Word(key) && Plain(t) && key != "t" && key != t
    requires FindsRest(Quoted("slot", AfterSlotKey(slot, on, ch, from)), key, v)
    ensures FindsRest(Format(t, slot, on, ch, from), key, v)
  {
    OverKind(t, Quoted("slot", AfterSlotKey(slot, on, ch, from)), key, v);
    OverOpening(AfterTKey(t, slot, on, ch, from), key, v);
  }

  // Past one pair: its separator text, then its key.
  lemma OverPair(name: string, text: string, y: string, key: string, v: string)
    requires Word(key) && Plain(name) && key != name && Plain(text) && text != "" && text[0] == ':'
    requires y != "" && y[0] == '"' && FindsRest(y, key, v)
    ensures FindsRest(Quoted(name, Quoted(text, y)), key, v)
  {
    SkipSeparator(text, y, key, v);
    SkipQuoted(name, Quoted(text, y), key, v);
  }

  lemma FromOnOn(t: string, slot: string, on: string, ch: string, from: string, key: string, v: string)
    requires Word(key) && Plain(t) && Plain(slot) && key != "t" && key != t && key != "slot"
    requires FindsRest(AfterSlot(on, ch, from), key, v)
    ensures FindsRest(Format(t, slot, on, ch, from), key, v)
  {
    OverPair("slot", ":" + slot + ",", AfterSlot(on, ch, from), key, v);
    FromSlotOn(t, slot, on, ch, from, key, v);
  }

  lemma FromChOn(t: string, slot: string, on: string, ch: string, from: string, key: string, v: string)
    requires Word(key) && Plain(t) && Plain(slot) && Plain(on)
    requires key != "t" && key != t && key != "slot" && key != "on"
    requires FindsRest(AfterOn(ch, from), key, v)
    ensures FindsRest(Format(t, slot, on, ch, from), key, v)
  {
    OverPair("on", ":" + on + ",", AfterOn(ch, from), key, v);
    FromOnOn(t, slot, on, ch, from, key, v);
  }

  lemma FindsT(t: string, slot: string, on: string, ch: string, from: string)
    ensures FindsRest(Format(t, slot, on, ch, from), "t", Quoted(t, AfterKind(slot, on, ch, from)))
  {
    var v := Quoted(t, AfterKind(slot, on, ch, from));
    HitQuoted("t", v);
    OverBrace(Quoted("t", Quoted(":", v)), "t", v);
  }

  lemma FindsSlot(t: string, slot: string, on: string, ch: string, from: string)
    requires Plain(t) && t != "slot"
    ensures FindsRest(Format(t, slot, on, ch, from), "slot", slot + "," + AfterSlot(on, ch, from))
  {
    HitColon("slot", slot + ",", AfterSlot(on, ch, from));
    assert ":" + (slot + ",") == ":" + slot + ",";
    FromSlotOn(t, slot, on, ch, from, "slot", slot + "," + AfterSlot(on, ch, from));
  }

  lemma FindsOn(t: string, slot: string, on: string, ch: string, from: string)
    requires Plain(t) && Plain(slot) && t != "on"
    ensures FindsRest(Format(t, slot, on, ch, from), "on", on + "," + AfterOn(ch, from))
  {
    HitColon("on", on + ",", AfterOn(ch, from));
    assert ":" + (on + ",") == ":" + on + ",";
    FromOnOn(t, slot, on, ch, from, "on", on + "," + AfterOn(ch, from));
  }

  lemma FindsCh(t: string, slot: string, on: string, ch: string, from: string)
    requires Plain(t) && Plain(slot) && Plain(on) && t != "ch"
    ensures FindsRest(Format(t, slot, on, ch, from), "ch", Quoted(ch, AfterChannel(from)))
  {
    HitQuoted("ch", Quoted(ch, AfterChannel(from)));
    FromChOn(t, slot, on, ch, from, "ch", Quoted(ch, AfterChannel(from)));
  }

  lemma FromBehindComma(from: string)
    ensures FindsRest(AfterChannel(from), "from", Quoted(from, Quoted("}", "")))
  {
    var v := Quoted(from, Quoted("}", ""));
    HitQuoted("from", v);
    SkipSeparator(",", Quoted("from", AfterFromKey(from)), "from", v);
  }

  lemma FromOverName(ch: string, from: string)
    requires Shielded(ch)
    ensures FindsRest(Quoted(ch, AfterChannel(from)), "from", Quoted(from, Quoted("}", "")))
  {
    var rest := AfterChannel(from);
    FromBehindComma(from);
    assert rest[0] == '"' && rest[1] == ',';
    SkipName(ch, rest, "from", Quoted(from, Quoted("}", "")));
  }

  lemma FindsFrom(t: string, slot: string, on: string, ch: string, from: string)
    requires Plain(t) && Plain(slot) && Plain(on) && t != "from" && Shielded(ch)
    ensures FindsRest(Format(t, slot, on, ch, from), "from", Quoted(from, Quoted("}", "")))
  {
    hide FindsRest, Plain, Shielded;
    var v := Quoted(from, Quoted("}", ""));
    FromOverName(ch, from);
    OverPair("ch", ":", Quoted(ch, AfterChannel(from)), "from", v);
    FromChOn(t, slot, on, ch, from, "from", v);
  }

  // ----- reading a cut line ------------------------------------------------------------------------

  lemma KeyInPrefix(j: string, key: string, k: nat, i: nat)
    requires k <= |j|
    ensures KeyAt(j[..k], key, i) <==> KeyAt(j, key, i) && i + |key| + 3 <= k
  {
    if i + |key| + 3 <= k { assert j[..k][i + 1..i + 1 + |key|] == j[i + 1..i + 1 + |key|]; }
  }

  // In a prefix a key is found where it is found in the whole, if it is in the prefix at all.
  lemma FindInPrefix(j: string, key: string, v: string, k: nat)
    requires FindsRest(j, key, v) && k <= |j|
    ensures |v| <= |j|
    ensures var at := |j| - |v|;
            if at <= k then FindValue(j[..k], key) == Some(at) && j[..k][at..] == v[..k - at]
            else FindValue(j[..k], key) == None
  {
    hide KeyAt;
    var at := FindValue(j, key).value;
    var p := j[..k];
    assert at == |j| - |v|;
    forall i: nat ensures KeyAt(p, key, i) <==> KeyAt(j, key, i) && i + |key| + 3 <= k { KeyInPrefix(j, key, k, i); }
    if at <= k {
      FirstKey(p, key, at - |key| - 3);
      assert p[at..] == j[at..][..k - at];
    }
  }

  // One character of a name, shielded or not.
  lemma ReadChar(j: string, at: nat, c: char, tail: string, n: nat)
    requires at <= |j| && |EscapedChar(c)| <= n <= |EscapedChar(c)| + |tail|
    requires j[at..] == (EscapedChar(c) + tail)[..n]
    ensures var next := at + |EscapedChar(c)|;
            next <= |j| && j[next..] == tail[..n - |EscapedChar(c)|]
            && ReadQuoted(j, at) == Behind([c], ReadQuoted(j, next))
  {
    hide ReadQuoted;
    var head := EscapedChar(c);
    var text := j[at..];
    assert text[|head|..] == tail[..n - |head|];
    assert j[at] == text[0];
    assert |head| == 2 ==> j[at + 1] == text[1];
    ReadsShielded(j, at);
  }

  lemma ReadsShielded(j: string, at: nat)
    requires at < |j|
    ensures at + 1 < |j| && j[at] == '\\' ==> ReadQuoted(j, at) == Behind([j[at + 1]], ReadQuoted(j, at + 2))
    ensures j[at] != '\\' && j[at] != '"' ==> ReadQuoted(j, at) == Behind([j[at]], ReadQuoted(j, at + 1))
    ensures j[at] == '"' ==> ReadQuoted(j, at) == Some("")
    ensures at + 1 == |j| && j[at] == '\\' ==> ReadQuoted(j, at) == None
  {
  }

  // A character cut behind its backslash.
  lemma ReadCut(j: string, at: nat, c: char, tail: string, n: nat)
    requires at <= |j| && 0 < n < |EscapedChar(c)|
    requires j[at..] == (EscapedChar(c) + tail)[..n]
    ensures ReadQuoted(j, at) == None
  {
    assert j[at] == j[at..][0];
    ReadsShielded(j, at);
  }

  // A name as it stands in the line, with its closing quote and what follows.
  function Closed(name: string, post: string): (s: string)
    ensures |s| == |Escaped(name)| + 1 + |post|
  {
    Escaped(name) + ['"'] + post
  }

  lemma EscapedName(name: string, post: string)
    requires name != ""
    ensures |Escaped(name)| == |EscapedChar(name[0])| + |Escaped(name[1..])|
    ensures Closed(name, post) == EscapedChar(name[0]) + Closed(name[1..], post)
    ensures [name[0]] + name[1..] == name
  {
    hide EscapedChar;
    assert Escaped(name) == EscapedChar(name[0]) + Escaped(name[1..]);
  }

  lemma NothingLeft(post: string)
    ensures Escaped("") == "" && Closed("", post) == ['"'] + post
  {
  }

  lemma ReadQuote(j: string, at: nat, post: string, n: nat)
    requires at <= |j| && 0 < n <= 1 + |post| && j[at..] == (['"'] + post)[..n]
    ensures ReadQuoted(j, at) == Some("")
  {
    assert j[at] == j[at..][0];
  }

  lemma ReadEnd(j: string)
    ensures ReadQuoted(j, |j|) == None
  {
  }

  // A name comes back whole if its closing quote is there, and not at all otherwise.
  lemma {:induction false} ReadName(j: string, at: nat, name: string, post: string, n: nat)
    requires at <= |j| && n <= |Closed(name, post)|
    requires j[at..] == Closed(name, post)[..n]
    ensures ReadQuoted(j, at) == if |Escaped(name)| < n then Some(name) else None
    decreases |name|
  {
    hide Escaped, EscapedChar, Closed, ReadQuoted;
    if n == 0 {
      assert at == |j|;
      ReadEnd(j);
    } else if name == "" {
      NothingLeft(post);
      ReadQuote(j, at, post, n);
    } else {
      var tail := Closed(name[1..], post);
      var w := |EscapedChar(name[0])|;
      EscapedName(name, post);
      if n >= w {
        ReadChar(j, at, name[0], tail, n);
        ReadName(j, at + w, name[1..], post, n - w);
      } else {
        ReadCut(j, at, name[0], tail, n);
      }
    }
  }

  // ----- the whole line ----------------------------------------------------------------------------

  // A quoted name found at v arrives when its closing quote lies before the cut.
  lemma QuotedThrough(p: string, at: nat, name: string, after: string, n: nat)
    requires at < |p| && 0 < n <= |Escaped(name)| + 2 + |after|
    requires p[at..] == Quoted(Escaped(name), ['"'] + after)[..n]
    ensures StringAt(p, Some(at)) == if |Escaped(name)| + 1 < n then Some(name) else None
  {
    var e := Escaped(name);
    var v := Quoted(e, ['"'] + after);
    assert p[at] == p[at..][0] == v[0] == '"';
    assert v[1..] == e + ['"'] + after;
    assert p[at + 1..] == p[at..][1..] == v[1..][..n - 1];
    ReadName(p, at + 1, name, after, n - 1);
  }

  lemma NameThrough(j: string, key: string, name: string, after: string, k: nat)
    requires FindsRest(j, key, Quoted(Escaped(name), ['"'] + after)) && k <= |j|
    ensures |after| + 1 <= |j|
    ensures StringAt(j[..k], FindValue(j[..k], key)) == if |j| - |after| - 1 < k then Some(name) else None
  {
    var v := Quoted(Escaped(name), ['"'] + after);
    FindInPrefix(j, key, v, k);
    var at := |j| - |v|;
    if at < k { QuotedThrough(j[..k], at, name, after, k - at); }
  }

  lemma CutBehind(text: string, after: string, left: nat)
    requires |text| < left <= |text| + 1 + |after|
    ensures (text + "," + after)[..left] == text + ([','] + after)[..left - |text|]
    ensures ([','] + after)[..left - |text|][0] == ','
  {
  }

  lemma NumberThrough(j: string, key: string, n: int, after: string, k: nat)
    requires FindsRest(j, key, OfInt(n) + "," + after) && |j| - |after| <= k <= |j|
    ensures IntAt(j[..k], FindValue(j[..k], key), -1) == n
  {
    hide OfInt, FindsRest, FindValue, Scan;
    var text := OfInt(n);
    var v := text + "," + after;
    FindInPrefix(j, key, v, k);
    var left := k - (|j| - |v|);
    CutBehind(text, after, left);
    ScanOfInt(n, ([','] + after)[..left - |text|]);
  }

  lemma FlagThrough(j: string, key: string, on: bool, after: string, k: nat)
    requires FindsRest(j, key, BoolName(on) + "," + after) && |j| - |after| <= k <= |j|
    ensures BoolAt(j[..k], FindValue(j[..k], key), false) == on
  {
    var v := BoolName(on) + "," + after;
    FindInPrefix(j, key, v, k);
    var left := k - (|j| - |v|);
    assert BoolName(on) <= v[..left];
    if !on { assert v[..left][0] == 'f'; }
  }

  function ChannelOf(m: Signal): string { CString(m.channelName) }
  function FromOf(m: Signal): string { CString(m.from) }

  // The closing quotes of the two names, as positions in the full line.
  function ChannelEnd(m: Signal): int { |PREFIX + Body(m)| - |AfterChannel(CString(Escaped(m.from)))| }
  function FromEnd(m: Signal): int { |PREFIX + Body(m)| - 2 }

  // What arrives: a name whose closing quote was cut off is left empty.
  function Received(m: Signal): Signal {
    m.(channelName := if ChannelEnd(m) < BUFFER - 1 then ChannelOf(m) else "",
       from := if FromEnd(m) < BUFFER - 1 then FromOf(m) else "")
  }

  lemma PlainParts(m: Signal)
    ensures Plain(KindName(m.kind)) && Plain(BoolName(m.on)) && Plain(OfInt(m.slot))
  {
    OfIntHasOnly(m.slot, '"');
  }

  // Everything before the names takes at most 60 characters.
  lemma HeadIsShort(m: Signal)
    requires IsInt32(m.slot)
    ensures var on := AfterOn(CString(Escaped(m.channelName)), CString(Escaped(m.from)));
            |on| <= |Body(m)| <= |on| + 60
  {
    Int32Length(m.slot);
  }

  lemma KindThrough(j: string, kind: Kind, after: string, k: nat)
    requires FindsRest(j, "t", Quoted(KindName(kind), ['"'] + after)) && |j| - |after| <= k <= |j|
    ensures var t := StringAt(j[..k], FindValue(j[..k], "t"));
            t.Some? && KindOf(t.value) == Some(kind)
  {
    var t := KindName(kind);
    assert Escaped(t) == t by { PlainEscape(t); }
    NameThrough(j, "t", t, after, k);
  }

  lemma {:induction false} PlainEscape(t: string)
    requires Plain(t) && forall i :: 0 <= i < |t| ==> t[i] != '\\'
    ensures Escaped(t) == t
  {
    if t != "" {
      PlainEscape(t[1..]);
      assert t == [t[0]] + t[1..];
    }
  }

  lemma CutBody(m: Signal)
    ensures var k := if |PREFIX + Body(m)| < BUFFER then |Body(m)| else BUFFER - 1 - |PREFIX|;
            k <= |Body(m)| && Wire(m) == PREFIX + Body(m)[..k]
  {
    assert |PREFIX| == 5;
  }

  lemma KindArrives(m: Signal, k: nat)
    requires IsInt32(m.slot) && k <= |Body(m)| && (k == |Body(m)| || k >= 500)
    ensures var t := StringAt(Body(m)[..k], FindValue(Body(m)[..k], "t"));
            t.Some? && KindOf(t.value) == Some(m.kind)
  {
    var slot, on := OfInt(m.slot), BoolName(m.on);
    var ch, from := CString(Escaped(m.channelName)), CString(Escaped(m.from));
    HeadIsShort(m);
    FindsT(KindName(m.kind), slot, on, ch, from);
    var after := AfterKind(slot, on, ch, from);
    assert after == ['"'] + after[1..];
    KindThrough(Body(m), m.kind, after[1..], k);
  }

  lemma SlotArrives(m: Signal, k: nat)
    requires IsInt32(m.slot) && k <= |Body(m)| && (k == |Body(m)| || k >= 500)
    ensures IntAt(Body(m)[..k], FindValue(Body(m)[..k], "slot"), -1) == m.slot
  {
    var slot, on := OfInt(m.slot), BoolName(m.on);
    var ch, from := CString(Escaped(m.channelName)), CString(Escaped(m.from));
    PlainParts(m);
    HeadIsShort(m);
    FindsSlot(KindName(m.kind), slot, on, ch, from);
    NumberThrough(Body(m), "slot", m.slot, AfterSlot(on, ch, from), k);
  }

  lemma FlagArrives(m: Signal, k: nat)
    requires IsInt32(m.slot) && k <= |Body(m)| && (k == |Body(m)| || k >= 500)
    ensures BoolAt(Body(m)[..k], FindValue(Body(m)[..k], "on"), false) == m.on
  {
    var slot, on := OfInt(m.slot), BoolName(m.on);
    var ch, from := CString(Escaped(m.channelName)), CString(Escaped(m.from));
    PlainParts(m);
    HeadIsShort(m);
    FindsOn(KindName(m.kind), slot, on, ch, from);
    FlagThrough(Body(m), "on", m.on, AfterOn(ch, from), k);
  }

  lemma ChannelArrives(m: Signal, k: nat)
    requires k <= |Body(m)|
    ensures StringAt(Body(m)[..k], FindValue(Body(m)[..k], "ch")) ==
      if |Body(m)| - |AfterChannel(CString(Escaped(m.from)))| < k then Some(ChannelOf(m)) else None
  {
    var ch, from := CString(Escaped(m.channelName)), CString(Escaped(m.from));
    PlainParts(m);
    CutThenEscape(m.channelName);
    FindsCh(KindName(m.kind), OfInt(m.slot), BoolName(m.on), ch, from);
    var after := AfterChannel(from);
    assert after == ['"'] + after[1..];
    NameThrough(Body(m), "ch", ChannelOf(m), after[1..], k);
  }

  lemma FromArrives(m: Signal, k: nat)
    requires k <= |Body(m)|
    ensures StringAt(Body(m)[..k], FindValue(Body(m)[..k], "from")) ==
      if |Body(m)| - 2 < k then Some(FromOf(m)) else None
  {
    var ch, from := CString(Escaped(m.channelName)), CString(Escaped(m.from));
    PlainParts(m);
    CutThenEscape(m.channelName);
    CutThenEscape(m.from);
    EscapedIsShielded(ChannelOf(m));
    FindsFrom(KindName(m.kind), OfInt(m.slot), BoolName(m.on), ch, from);
    assert Quoted("}", "") == ['"'] + "}";
    NameThrough(Body(m), "from", FromOf(m), "}", k);
  }

  lemma BodyArrives(m: Signal, k: nat)
    requires IsInt32(m.slot) && k <= |Body(m)| && (k == |Body(m)| || k >= 500)
    ensures DecodeBody(Body(m)[..k]) == Some(
      m.(channelName := if |Body(m)| - |AfterChannel(CString(Escaped(m.from)))| < k then ChannelOf(m) else "",
         from := if |Body(m)| - 2 < k then FromOf(m) else ""))
  {
    hide Body, FindValue, StringAt, IntAt, BoolAt, AfterChannel, CString, Escaped, KindOf, ChannelOf, FromOf;
    KindArrives(m, k);
    SlotArrives(m, k);
    FlagArrives(m, k);
    ChannelArrives(m, k);
    FromArrives(m, k);
  }

  /** What the other desk decodes, for every message: kind, slot and flag exactly; each name (up to its
      first NUL) exactly when its closing quote fits into the 511 characters, and empty otherwise. */
  lemma ArrivesAs(m: Signal)
    requires IsInt32(m.slot)
    ensures Decode(Wire(m)) == Some(Received(m))
  {
    var body := Body(m);
    var k := if |PREFIX + body| < BUFFER then |body| else BUFFER - 1 - |PREFIX|;
    CutBody(m);
    NameEnds(m);
    BodyArrives(m, k);
    DropPrefix(body[..k]);
  }

  lemma DropPrefix(j: string)
    ensures Decode(PREFIX + j) == DecodeBody(j)
  {
    assert (PREFIX + j)[|PREFIX|..] == j;
  }

  lemma NameEnds(m: Signal)
    ensures ChannelEnd(m) < |PREFIX + Body(m)| && FromEnd(m) < |PREFIX + Body(m)| && |PREFIX| == 5
  {
  }

  lemma {:induction false} CStringKeeps(s: string)
    ensures CString(s) == s <==> '\0' !in s
  {
    if s != "" {
      CStringKeeps(s[1..]);
      assert s == [s[0]] + s[1..];
    }
  }

  /** The round trip is exact if and only if no name holds a NUL and every non-empty name fits; in
      particular whenever the line fits into 511 characters. */
  lemma RoundTripIff(m: Signal)
    requires IsInt32(m.slot)
    ensures Decode(Wire(m)) == Some(m) <==>
      && '\0' !in m.channelName && '\0' !in m.from
      && (m.channelName == "" || ChannelEnd(m) < BUFFER - 1)
      && (m.from == "" || FromEnd(m) < BUFFER - 1)
    ensures |PREFIX + Body(m)| < BUFFER && '\0' !in m.channelName && '\0' !in m.from ==>
      Decode(Wire(m)) == Some(m)
  {
    ArrivesAs(m);
    NameEnds(m);
    CStringKeeps(m.channelName);
    CStringKeeps(m.from);
  }

  /** A name never arrives altered: it is the name sent (up to a NUL) or empty, whatever look-alike keys,
      quotes or backslashes the other one holds. */
  lemma NamesNeverMangled(m: Signal)
    requires IsInt32(m.slot)
    ensures var r := Decode(Wire(m));
            && r.Some? && r.value.kind == m.kind && r.value.slot == m.slot && r.value.on == m.on
            && (r.value.channelName == CString(m.channelName) || r.value.channelName == "")
            && (r.value.from == CString(m.from) || r.value.from == "")
  {
    ArrivesAs(m);
  }
}
