/** Decimal text as printf prints it and as atoi and strtol read it. */
module Decimal {

  predicate IsDigit(c: char) {
    '0' <= c <= '9'
  }

  predicate IsSpace(c: char) {
    c == ' ' || 9 <= c as int <= 13
  }

  function Digit(d: nat): (c: char)
    requires d < 10
    ensures IsDigit(c)
  {
    (48 + d) as char
  }

  function DigitValue(c: char): (d: nat)
    requires IsDigit(c)
    ensures d < 10
  {
    c as int - 48
  }

  function OfNat(n: nat): (s: string) {
    if n < 10 then [Digit(n)] else OfNat(n / 10) + [Digit(n % 10)]
  }

  // %d
  function OfInt(n: int): string {
    if n < 0 then "-" + OfNat(-n) else OfNat(n)
  }

  predicate AllDigits(s: string) {
    forall i :: 0 <= i < |s| ==> IsDigit(s[i])
  }

  function ValueOf(s: string): nat
    requires AllDigits(s)
  {
    if s == "" then 0 else 10 * ValueOf(s[..|s| - 1]) + DigitValue(s[|s| - 1])
  }

  // Length of the leading run of digits.
  function DigitRun(s: string): (n: nat)
    ensures n <= |s| && AllDigits(s[..n])
    ensures n < |s| ==> !IsDigit(s[n])
  {
    if s == "" || !IsDigit(s[0]) then 0
    else
      var n := 1 + DigitRun(s[1..]);
      assert s[..n] == [s[0]] + s[1..][..n - 1];
      n
  }

  function SpaceRun(s: string): (n: nat)
    ensures n <= |s|
  {
    if s == "" || !IsSpace(s[0]) then 0 else 1 + SpaceRun(s[1..])
  }

  // What the C readers see: the number, and where it ends (0 when there is none).
  datatype Scanned = Scanned(value: int, end: nat)

  function Scan(s: string): (r: Scanned)
    ensures r.end <= |s|
  {
    var start := SpaceRun(s);
    var signed := start < |s| && (s[start] == '-' || s[start] == '+');
    var at := if signed then start + 1 else start;
    var n := DigitRun(s[at..]);
    if n == 0 then Scanned(0, 0)
    else
      var v: int := ValueOf(s[at..][..n]);
      Scanned(if signed && s[start] == '-' then -v else v, at + n)
  }

  // ----- printing and reading back --------------------------------------------------------------

  lemma {:induction false} OfNatDigits(n: nat)
    ensures OfNat(n) != "" && AllDigits(OfNat(n)) && ValueOf(OfNat(n)) == n
  {
    if n >= 10 {
      OfNatDigits(n / 10);
      var s := OfNat(n);
      assert s[..|s| - 1] == OfNat(n / 10);
    }
  }

  lemma DigitRunOf(ds: string, rest: string)
    requires AllDigits(ds) && (rest != "" ==> !IsDigit(rest[0]))
    ensures DigitRun(ds + rest) == |ds|
  {
    var s := ds + rest;
    var n := DigitRun(s);
    forall i | 0 <= i < n ensures IsDigit(s[i]) { assert s[..n][i] == s[i]; }
    forall i | 0 <= i < |ds| ensures s[i] == ds[i] {}
    assert |ds| < |s| ==> s[|ds|] == rest[0];
  }

  // A run of digits with nothing in front.
  lemma ScanUnsigned(s: string)
    requires DigitRun(s) > 0
    ensures Scan(s) == Scanned(ValueOf(s[..DigitRun(s)]), DigitRun(s))
  {
    assert IsDigit(s[..DigitRun(s)][0]);
    NoSpaces(s);
    hide DigitRun, ValueOf, AllDigits, SpaceRun;
    assert s[0..] == s;
  }

  lemma ScanDigits(ds: string, rest: string)
    requires ds != "" && AllDigits(ds) && (rest != "" ==> !IsDigit(rest[0]))
    ensures Scan(ds + rest) == Scanned(ValueOf(ds), |ds|)
  {
    hide Scan, DigitRun, ValueOf, AllDigits;
    DigitRunOf(ds, rest);
    Takes(ds, rest);
    ScanUnsigned(ds + rest);
  }

  /** Reading printed text gives the number back and stops right behind it. */
  lemma ScanOfInt(n: int, rest: string)
    requires rest != "" ==> !IsDigit(rest[0])
    ensures Scan(OfInt(n) + rest) == Scanned(n, |OfInt(n)|)
  {
    hide Scan, OfNat, AllDigits, ValueOf, IsDigit;
    if n >= 0 {
      OfNatDigits(n);
      ScanDigits(OfNat(n), rest);
    } else {
      var ds := OfNat(-n);
      OfNatDigits(-n);
      DigitRunOf(ds, rest);
      Takes(ds, rest);
      ScanNegative(ds + rest);
    }
  }

  // A sign in front of a run of digits.
  lemma ScanNegative(digits: string)
    requires DigitRun(digits) > 0
    ensures Scan(['-'] + digits) == Scanned(-(ValueOf(digits[..DigitRun(digits)]) as int), 1 + DigitRun(digits))
  {
    var s := ['-'] + digits;
    NoSpaces(s);
    hide DigitRun, ValueOf, AllDigits, SpaceRun;
    assert s[1..] == digits;
  }

  lemma NoSpaces(s: string)
    requires s != "" && !IsSpace(s[0])
    ensures SpaceRun(s) == 0
  {
  }

  lemma Takes(ds: string, rest: string)
    ensures (ds + rest)[..|ds|] == ds && "-" + ds + rest == ['-'] + (ds + rest)
  {
  }

  function Pow10(k: nat): (p: nat)
    ensures p >= 1
  {
    if k == 0 then 1 else 10 * Pow10(k - 1)
  }

  lemma {:induction false} OfNatLength(n: nat, k: nat)
    requires n < Pow10(k) && k >= 1
    ensures |OfNat(n)| <= k
  {
    if n >= 10 { OfNatLength(n / 10, k - 1); }
  }

  lemma Int32Length(n: int)
    requires -0x8000_0000 <= n < 0x8000_0000
    ensures |OfInt(n)| <= 11
  {
    assert Pow10(5) == 100000 by { assert Pow10(3) == 1000; }
    assert Pow10(10) == 100000 * Pow10(5) by { assert Pow10(8) == 1000 * Pow10(5); }
    OfNatLength(if n < 0 then -n else n, 10);
  }

  lemma {:induction false} OfNatHasOnlyDigits(n: nat, c: char)
    requires !IsDigit(c)
    ensures c !in OfNat(n)
  {
    if n >= 10 { OfNatHasOnlyDigits(n / 10, c); }
  }

  lemma OfIntHasOnly(n: int, c: char)
    requires !IsDigit(c) && c != '-'
    ensures c !in OfInt(n)
  {
    OfNatHasOnlyDigits(if n < 0 then -n else n, c);
  }
}
