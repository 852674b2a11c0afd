/**
 The two unpadded base64url encoders of the station, against one bit-level reading of the
 encoding (section 5 of RFC 4648; Appendix C of RFC 7515).

 The reference works on bits only: write every byte as eight bits, cut the bit string into
 groups of six (the last one filled with zeros) and spell each group with one letter.
 `BlockEncode` is the three-bytes-at-a-time encoder of the JWT code; `AccumulatorEncode` is the
 32-bit accumulator of the OAuth code, whose left shifts wrap.
 */
module Base64Url {
  import opened Powers

  type Byte = x: int | 0 <= x < 256
  type Sextet = x: int | 0 <= x < 64

  datatype Decoded = Malformed | Bytes(data: seq<Byte>)

  const WORD := 0x1_0000_0000

  // ----- bits ----------------------------------------------------------------------------

  // x >> k
  function Shr(x: nat, k: nat): nat {
    if k == 0 then x else Shr(x / 2, k - 1)
  }

  // x << k, before any wrapping
  function Shl(x: nat, k: nat): nat {
    x * Pow2(k)
  }

  // The low n bits of x, most significant first.
  function Low(x: nat, n: nat): (b: seq<bool>)
    ensures |b| == n
  {
    if n == 0 then [] else Low(x / 2, n - 1) + [x % 2 == 1]
  }

  // The number a bit string spells.
  function Value(b: seq<bool>): nat {
    if b == [] then 0 else 2 * Value(b[..|b| - 1]) + (if b[|b| - 1] then 1 else 0)
  }

  function Zeros(n: nat): (z: seq<bool>)
    ensures |z| == n
  {
    seq(n, _ => false)
  }

  lemma {:induction false} ValueBound(b: seq<bool>)
    ensures Value(b) < Pow2(|b|)
  {
    if b != [] { ValueBound(b[..|b| - 1]); }
  }

  lemma {:induction false} LowOfValue(b: seq<bool>)
    ensures Low(Value(b), |b|) == b
  {
    if b != [] {
      LowOfValue(b[..|b| - 1]);
      assert Value(b) / 2 == Value(b[..|b| - 1]);
      assert b == b[..|b| - 1] + [b[|b| - 1]];
    }
  }

  lemma {:induction false} ValueOfLow(x: nat, n: nat)
    requires x < Pow2(n)
    ensures Value(Low(x, n)) == x
  {
    if n > 0 {
      ValueOfLow(x / 2, n - 1);
      assert Low(x, n)[..n - 1] == Low(x / 2, n - 1);
    }
  }

  lemma {:induction false} LowZero(n: nat)
    ensures Low(0, n) == Zeros(n)
  {
    if n > 0 { LowZero(n - 1); }
  }

  // Writing y below x appends its bits.
  lemma {:induction false} LowAppend(x: nat, m: nat, y: nat, n: nat)
    requires y < Pow2(n)
    ensures Low(x * Pow2(n) + y, m + n) == Low(x, m) + Low(y, n)
  {
    if n > 0 {
      var p := x * Pow2(n - 1);
      assert x * Pow2(n) == 2 * p;
      assert (2 * p + y) / 2 == p + y / 2;
      LowAppend(x, m, y / 2, n - 1);
    }
  }

  // Bits at or above position m do not matter below it: this is what a wrapping shift drops.
  lemma {:induction false} LowWrap(x: nat, k: nat, m: nat, n: nat)
    requires n <= m
    ensures Low(x + k * Pow2(m), n) == Low(x, n)
  {
    if n > 0 {
      var p := k * Pow2(m - 1);
      assert k * Pow2(m) == 2 * p;
      assert (x + 2 * p) / 2 == x / 2 + p;
      LowWrap(x / 2, k, m - 1, n - 1);
    }
  }

  lemma PowersOfTwo()
    ensures Pow2(2) == 4 && Pow2(4) == 16 && Pow2(6) == 64 && Pow2(8) == 256
    ensures Pow2(12) == 4096 && Pow2(16) == 65536 && Pow2(18) == 262144 && Pow2(32) == WORD
  {
    assert Pow2(4) == 16;
    assert Pow2(8) == 16 * Pow2(4);
    assert Pow2(12) == 16 * Pow2(8);
    assert Pow2(16) == 16 * Pow2(12);
    assert Pow2(20) == 16 * Pow2(16);
    assert Pow2(24) == 16 * Pow2(20);
    assert Pow2(28) == 16 * Pow2(24);
    assert Pow2(32) == 16 * Pow2(28);
  }

  // ----- the reference -------------------------------------------------------------------

  function Bits(data: seq<Byte>): seq<bool> {
    if data == [] then [] else Low(data[0], 8) + Bits(data[1..])
  }

  function SextetOf(g: seq<bool>): Sextet
    requires |g| == 6
  {
    ValueBound(g);
    PowersOfTwo();
    Value(g)
  }

  function Sextets(bits: seq<bool>): seq<Sextet> {
    if bits == [] then []
    else if |bits| < 6 then [SextetOf(bits + Zeros(6 - |bits|))]
    else [SextetOf(bits[..6])] + Sextets(bits[6..])
  }

  // Table 2 of RFC 4648.
  function Letter(v: Sextet): char {
    if v < 26 then (v + 65) as char
    else if v < 52 then (v + 71) as char
    else if v < 62 then (v - 4) as char
    else if v == 62 then '-'
    else '_'
  }

  function Letters(vs: seq<Sextet>): (s: string)
    ensures |s| == |vs|
  {
    seq(|vs|, i requires 0 <= i < |vs| => Letter(vs[i]))
  }

  function Encode(data: seq<Byte>): string {
    Letters(Sextets(Bits(data)))
  }

  // ----- the decoder ---------------------------------------------------------------------

  predicate IsLetter(c: char) {
    'A' <= c <= 'Z' || 'a' <= c <= 'z' || '0' <= c <= '9' || c == '-' || c == '_'
  }

  function Index(c: char): Sextet
    requires IsLetter(c)
  {
    if 'A' <= c <= 'Z' then c as int - 65
    else if 'a' <= c <= 'z' then c as int - 71
    else if '0' <= c <= '9' then c as int + 4
    else if c == '-' then 62
    else 63
  }

  predicate AllLetters(s: string) {
    forall i :: 0 <= i < |s| ==> IsLetter(s[i])
  }

  function BitsOfText(s: string): seq<bool>
    requires AllLetters(s)
  {
    if s == [] then [] else Low(Index(s[0]), 6) + BitsOfText(s[1..])
  }

  // Whole bytes only: what is left over at the end is the zero fill.
  function BytesOf(bits: seq<bool>): seq<Byte> {
    if |bits| < 8 then []
    else
      ValueBound(bits[..8]);
      PowersOfTwo();
      [Value(bits[..8])] + BytesOf(bits[8..])
  }

  function Decode(s: string): Decoded {
    if AllLetters(s) then Bytes(BytesOf(BitsOfText(s))) else Malformed
  }

  // ----- the reference is decodable and has the promised length -----------------------------

  lemma LetterIndex(v: Sextet)
    ensures IsLetter(Letter(v)) && Index(Letter(v)) == v
  {
  }

  lemma {:induction false} BitsLength(data: seq<Byte>)
    ensures |Bits(data)| == 8 * |data|
  {
    if data != [] { BitsLength(data[1..]); }
  }

  lemma {:induction false} SextetsLength(bits: seq<bool>)
    ensures |Sextets(bits)| == (|bits| + 5) / 6
  {
    if |bits| >= 6 { SextetsLength(bits[6..]); }
  }

  /** An n-byte string takes ceil(4n/3) letters: nothing is padded. */
  lemma EncodeLength(data: seq<Byte>)
    ensures |Encode(data)| == (4 * |data| + 2) / 3
  {
    BitsLength(data);
    SextetsLength(Bits(data));
  }

  lemma LettersAreLetters(vs: seq<Sextet>)
    ensures AllLetters(Letters(vs))
  {
    forall i | 0 <= i < |vs| ensures IsLetter(Letters(vs)[i]) { LetterIndex(vs[i]); }
  }

  // Reading the letters of v, then s, gives the bits of v, then those of s.
  lemma TextStep(v: Sextet, vs: seq<Sextet>)
    ensures AllLetters(Letters([v] + vs)) && AllLetters(Letters(vs))
    ensures BitsOfText(Letters([v] + vs)) == Low(v, 6) + BitsOfText(Letters(vs))
  {
    LettersAreLetters([v] + vs);
    LettersAreLetters(vs);
    LetterIndex(v);
    assert Letters([v] + vs)[1..] == Letters(vs);
  }

  lemma {:induction false} TextBits(bits: seq<bool>)
    ensures AllLetters(Letters(Sextets(bits)))
    ensures var t := BitsOfText(Letters(Sextets(bits)));
            |bits| <= |t| < |bits| + 6 && t == bits + Zeros(|t| - |bits|)
  {
    LettersAreLetters(Sextets(bits));
    if bits == [] {
    } else if |bits| < 6 {
      ShortGroup(bits);
    } else {
      LowOfValue(bits[..6]);
      TextBits(bits[6..]);
      TextStep(SextetOf(bits[..6]), Sextets(bits[6..]));
      assert bits == bits[..6] + bits[6..];
    }
  }

  lemma ShortGroup(bits: seq<bool>)
    requires 0 < |bits| < 6
    ensures BitsOfText(Letters(Sextets(bits))) == bits + Zeros(6 - |bits|)
  {
    var g := bits + Zeros(6 - |bits|);
    LowOfValue(g);
    TextStep(SextetOf(g), []);
    assert [SextetOf(g)] + [] == [SextetOf(g)];
    assert BitsOfText(Letters([])) == [];
  }

  lemma {:induction false} BytesBack(data: seq<Byte>, fill: nat)
    requires fill < 8
    ensures BytesOf(Bits(data) + Zeros(fill)) == data
  {
    if data != [] {
      var all := Bits(data) + Zeros(fill);
      PowersOfTwo();
      ValueOfLow(data[0], 8);
      assert all[..8] == Low(data[0], 8);
      assert all[8..] == Bits(data[1..]) + Zeros(fill);
      BytesBack(data[1..], fill);
    }
  }

  /** The decoder recovers every byte string. */
  lemma RoundTrip(data: seq<Byte>)
    ensures Decode(Encode(data)) == Bytes(data)
  {
    TextBits(Bits(data));
    BytesBack(data, |BitsOfText(Encode(data))| - |Bits(data)|);
  }

  /** Two byte strings never share an encoding. */
  lemma EncodeInjective(a: seq<Byte>, b: seq<Byte>)
    requires Encode(a) == Encode(b)
    ensures a == b
  {
    RoundTrip(a);
    RoundTrip(b);
  }

  // ----- one letter at a time --------------------------------------------------------------

  lemma Snoc(a: seq<bool>, b: seq<bool>, last: bool)
    ensures (a + b) + [last] == a + (b + [last])
  {
  }

  // The bits of x are the bits of its upper part followed by those of its lower part.
  lemma {:induction false} LowParts(x: nat, m: nat, n: nat)
    ensures Low(x, m + n) == Low(Shr(x, n), m) + Low(x, n)
    decreases n
  {
    if n > 0 {
      LowParts(x / 2, m, n - 1);
      Snoc(Low(Shr(x, n), m), Low(x / 2, n - 1), x % 2 == 1);
    }
  }

  // The six bits on top of the pending ones are the next letter.
  lemma TakeSix(acc: nat, bits: nat, rest: seq<bool>)
    requires bits >= 6
    ensures Sextets(Low(acc, bits) + rest) == [Shr(acc, bits - 6) % 64] + Sextets(Low(acc, bits - 6) + rest)
  {
    LowParts(acc, 6, bits - 6);
    SixBits(Shr(acc, bits - 6));
    SextetsStep(Low(Shr(acc, bits - 6), 6), Low(acc, bits - 6) + rest);
    assert Low(acc, bits) + rest == Low(Shr(acc, bits - 6), 6) + (Low(acc, bits - 6) + rest);
  }

  lemma SextetsStep(g: seq<bool>, rest: seq<bool>)
    requires |g| == 6
    ensures Sextets(g + rest) == [SextetOf(g)] + Sextets(rest)
  {
    assert (g + rest)[..6] == g && (g + rest)[6..] == rest;
  }

  lemma SixBits(x: nat)
    ensures SextetOf(Low(x, 6)) == x % 64
  {
    PowersOfTwo();
    LowWrap(x % 64, x / 64, 6, 6);
    ValueOfLow(x % 64, 6);
  }

  // The leftover bits, shifted up, are the last letter.
  lemma LastLetter(acc: nat, bits: nat)
    requires 0 < bits < 6
    ensures Sextets(Low(acc, bits)) == [Shl(acc, 6 - bits) % 64]
  {
    var k := 6 - bits;
    LowAppend(acc, bits, 0, k);
    LowZero(k);
    SixBits(Shl(acc, k));
    assert Low(acc, bits) + Zeros(k) == Low(Shl(acc, k), 6);
  }

  lemma BitsOfFirst(b: Byte, rest: seq<Byte>)
    ensures Bits([b] + rest) == Low(b, 8) + Bits(rest)
  {
    assert ([b] + rest)[1..] == rest;
  }

  // ----- the block encoder ---------------------------------------------------------------

  // Three bytes side by side: (a << 16) | (b << 8) | c
  function Block(a: Byte, b: Byte, c: Byte): nat {
    (a as int) * 0x1_0000 + (b as int) * 0x100 + (c as int)
  }

  lemma ByteAppend(x: nat, m: nat, b: Byte)
    ensures Low(x * 256 + b as int, m + 8) == Low(x, m) + Low(b, 8)
  {
    PowersOfTwo();
    LowAppend(x, m, b, 8);
  }

  lemma BlockBits(a: Byte, b: Byte, c: Byte)
    ensures Low(Block(a, b, c), 24) == Low(a, 8) + Low(b, 8) + Low(c, 8)
  {
    hide Low;
    var x: nat := a;
    var y: nat := x * 256 + b as int;
    assert Block(a, b, c) == y * 256 + c as int;
    ByteAppend(x, 8, b);
    ByteAppend(y, 16, c);
  }

  lemma BitsOfThree(a: Byte, b: Byte, c: Byte, rest: seq<Byte>)
    ensures Bits([a, b, c] + rest) == Low(a, 8) + Low(b, 8) + Low(c, 8) + Bits(rest)
  {
    assert [a, b, c] + rest == [a] + ([b] + ([c] + rest));
    BitsOfFirst(a, [b] + ([c] + rest));
    BitsOfFirst(b, [c] + rest);
    BitsOfFirst(c, rest);
  }

  lemma FourSextets(n: nat, rest: seq<bool>)
    ensures Sextets(Low(n, 24) + rest) ==
            [Shr(n, 18) % 64, Shr(n, 12) % 64, Shr(n, 6) % 64, n % 64] + Sextets(rest)
  {
    TakeSix(n, 24, rest);
    TakeSix(n, 18, rest);
    TakeSix(n, 12, rest);
    TakeSix(n, 6, rest);
    assert Low(n, 0) + rest == rest;
  }

  lemma EncodeBlock(a: Byte, b: Byte, c: Byte, rest: seq<Byte>)
    ensures var n := Block(a, b, c);
            Encode([a, b, c] + rest) ==
            [Letter(Shr(n, 18) % 64), Letter(Shr(n, 12) % 64), Letter(Shr(n, 6) % 64), Letter(n % 64)] + Encode(rest)
  {
    var n := Block(a, b, c);
    BlockBits(a, b, c);
    BitsOfThree(a, b, c, rest);
    FourSextets(n, Bits(rest));
  }

  // The tail's letters are the first letters of the block filled up with zero bytes.
  lemma {:induction false} ZeroFill(bits: seq<bool>, fill: nat)
    requires |bits| % 6 + fill >= 6
    ensures Sextets(bits) <= Sextets(bits + Zeros(fill))
  {
    if |bits| >= 6 {
      ZeroFill(bits[6..], fill);
      assert bits + Zeros(fill) == bits[..6] + (bits[6..] + Zeros(fill));
      SextetsStep(bits[..6], bits[6..] + Zeros(fill));
      assert (|bits| - 6) % 6 == |bits| % 6;
    } else if bits != [] {
      var all := bits + Zeros(fill);
      assert all[..6] == bits + Zeros(6 - |bits|);
    }
  }

  lemma EncodeOne(a: Byte)
    ensures var n := Block(a, 0, 0);
            Encode([a]) == [Letter(Shr(n, 18) % 64), Letter(Shr(n, 12) % 64)]
  {
    var n := Block(a, 0, 0);
    assert Bits([a]) == Low(a, 8);
    BlockBits(a, 0, 0);
    LowZero(8);
    assert Low(n, 24) == Bits([a]) + Zeros(16);
    TailLetters(n, Bits([a]), 16);
  }

  lemma EncodeTwo(a: Byte, b: Byte)
    ensures var n := Block(a, b, 0);
            Encode([a, b]) == [Letter(Shr(n, 18) % 64), Letter(Shr(n, 12) % 64), Letter(Shr(n, 6) % 64)]
  {
    var n := Block(a, b, 0);
    assert [a, b][1..] == [b];
    assert Bits([b]) == Low(b, 8);
    assert Bits([a, b]) == Low(a, 8) + Low(b, 8);
    BlockBits(a, b, 0);
    LowZero(8);
    assert Low(n, 24) == Bits([a, b]) + Zeros(8);
    TailLetters(n, Bits([a, b]), 8);
  }

  lemma TailLetters(n: nat, bits: seq<bool>, fill: nat)
    requires |bits| + fill == 24 && (fill == 16 || fill == 8)
    requires Low(n, 24) == bits + Zeros(fill)
    ensures Letters(Sextets(bits)) ==
            [Letter(Shr(n, 18) % 64), Letter(Shr(n, 12) % 64)]
            + if fill == 16 then [] else [Letter(Shr(n, 6) % 64)]
  {
    ZeroFill(bits, fill);
    SextetsLength(bits);
    FourSextets(n, []);
    assert Low(n, 24) + [] == Low(n, 24);
  }

  /** Three bytes at a time, then a tail of two or three letters. */
  method BlockEncode(data: seq<Byte>) returns (out: string)
    ensures out == Encode(data)
  {
    out := "";
    var i := 0;
    while i + 2 < |data|
      invariant 0 <= i <= |data|
      invariant out + Encode(data[i..]) == Encode(data)
    {
      var n := Block(data[i], data[i + 1], data[i + 2]);
      assert data[i..] == [data[i], data[i + 1], data[i + 2]] + data[i + 3..];
      EncodeBlock(data[i], data[i + 1], data[i + 2], data[i + 3..]);
      var four := [Letter(Shr(n, 18) % 64), Letter(Shr(n, 12) % 64), Letter(Shr(n, 6) % 64), Letter(n % 64)];
      assert out + (four + Encode(data[i + 3..])) == (out + four) + Encode(data[i + 3..]);
      out := out + four;
      i := i + 3;
    }
    if i + 1 == |data| {
      var n := Block(data[i], 0, 0);
      assert data[i..] == [data[i]];
      EncodeOne(data[i]);
      out := out + [Letter(Shr(n, 18) % 64), Letter(Shr(n, 12) % 64)];
    } else if i + 2 == |data| {
      var n := Block(data[i], data[i + 1], 0);
      assert data[i..] == [data[i], data[i + 1]];
      EncodeTwo(data[i], data[i + 1]);
      out := out + [Letter(Shr(n, 18) % 64), Letter(Shr(n, 12) % 64), Letter(Shr(n, 6) % 64)];
    } else {
      assert data[i..] == [];
    }
  }

  // ----- the accumulator encoder ---------------------------------------------------------

  // (acc << 8) | b on 32 bits
  function Absorb(acc: nat, b: Byte): nat {
    (acc * 256 + b as int) % WORD
  }

  // Shifting a byte in appends its bits, although the shift wraps at 32 bits.
  lemma ShiftIn(acc: nat, bits: nat, b: Byte)
    requires bits <= 24
    ensures Low(Absorb(acc, b), bits + 8) == Low(acc, bits) + Low(b, 8)
  {
    PowersOfTwo();
    var x: nat := acc * 256 + b;
    LowAppend(acc, bits, b, 8);
    LowWrap(x % WORD, x / WORD, 32, bits + 8);
  }

  // What is printed, then the pending bits and the unread bytes: together the whole text.
  ghost predicate Progress(out: string, acc: nat, bits: nat, rest: seq<bool>, data: seq<Byte>) {
    out + Letters(Sextets(Low(acc, bits) + rest)) == Encode(data)
  }

  lemma ReadByte(out: string, acc: nat, bits: nat, unread: seq<Byte>, data: seq<Byte>)
    requires unread != [] && bits <= 24
    requires Progress(out, acc, bits, Bits(unread), data)
    ensures Progress(out, Absorb(acc, unread[0]), bits + 8, Bits(unread[1..]), data)
  {
    hide *;
    ShiftIn(acc, bits, unread[0]);
    BitsStep(unread);
    Regroup(Low(acc, bits), Low(unread[0], 8), Bits(unread[1..]));
    SameProgress(out, acc, bits, Bits(unread), Absorb(acc, unread[0]), bits + 8, Bits(unread[1..]), data);
  }

  lemma BitsStep(data: seq<Byte>)
    requires data != []
    ensures Bits(data) == Low(data[0], 8) + Bits(data[1..])
  {
  }

  lemma Regroup<T>(x: seq<T>, y: seq<T>, z: seq<T>)
    ensures x + (y + z) == (x + y) + z
  {
  }

  lemma SameProgress(out: string, acc: nat, bits: nat, rest: seq<bool>, acc': nat, bits': nat, rest': seq<bool>,
                     data: seq<Byte>)
    requires Low(acc, bits) + rest == Low(acc', bits') + rest' && Progress(out, acc, bits, rest, data)
    ensures Progress(out, acc', bits', rest', data)
  {
    hide Low, Letters, Sextets, Encode;
  }

  lemma PushLetter(out: string, acc: nat, bits: nat, rest: seq<bool>, data: seq<Byte>)
    requires bits >= 6
    requires Progress(out, acc, bits, rest, data)
    ensures Progress(out + [Letter(Shr(acc, bits - 6) % 64)], acc, bits - 6, rest, data)
  {
    TakeSix(acc, bits, rest);
    var vs := Sextets(Low(acc, bits - 6) + rest);
    var v: Sextet := Shr(acc, bits - 6) % 64;
    assert Letters([v] + vs) == [Letter(v)] + Letters(vs);
  }

  lemma PushLast(out: string, acc: nat, bits: nat, data: seq<Byte>)
    requires bits < 6
    requires Progress(out, acc, bits, [], data)
    ensures out + (if bits > 0 then [Letter(Shl(acc, 6 - bits) % WORD % 64)] else []) == Encode(data)
  {
    assert Low(acc, bits) + [] == Low(acc, bits);
    if bits > 0 {
      LastLetter(acc, bits);
      WrapKeepsSextet(Shl(acc, 6 - bits));
    }
  }

  lemma WrapKeepsSextet(x: nat)
    ensures x % WORD % 64 == x % 64
  {
  }

  /** One byte at a time through a 32-bit accumulator that is never masked. */
  method AccumulatorEncode(data: seq<Byte>) returns (out: string)
    ensures out == Encode(data)
  {
    out := "";
    var acc: nat, bits: nat := 0, 0;
    assert Low(acc, bits) + Bits(data) == Bits(data);
    assert data[0..] == data;
    for k := 0 to |data|
      invariant bits < 6
      invariant Progress(out, acc, bits, Bits(data[k..]), data)
    {
      ReadByte(out, acc, bits, data[k..], data);
      assert data[k..][1..] == data[k + 1..];
      acc := Absorb(acc, data[k]);
      bits := bits + 8;
      while bits >= 6
        invariant Progress(out, acc, bits, Bits(data[k + 1..]), data)
      {
        PushLetter(out, acc, bits, Bits(data[k + 1..]), data);
        bits := bits - 6;
        out := out + [Letter(Shr(acc, bits) % 64)];
      }
    }
    assert data[|data|..] == [];
    PushLast(out, acc, bits, data);
    if bits > 0 {
      out := out + [Letter(Shl(acc, 6 - bits) % WORD % 64)];
    }
  }

  /** The two encoders print the same text for every byte string, and it decodes to that string. */
  method EncodersAgree(data: seq<Byte>) returns (block: string, accumulated: string)
    ensures block == accumulated
    ensures |block| == (4 * |data| + 2) / 3
    ensures Decode(block) == Bytes(data)
  {
    block := BlockEncode(data);
    accumulated := AccumulatorEncode(data);
    EncodeLength(data);
    RoundTrip(data);
  }
}
