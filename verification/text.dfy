/**
  Character- and string-level helpers: ASCII lower-casing, prefix/suffix tests,
  and the decimal rendering used by the `{i:02d}` format together with its
  inverse (parsing a run of digits back into a number).
 */
module Text {

  predicate IsDigit(c: char) {
    '0' <= c <= '9'
  }

  predicate AllDigits(s: string) {
    forall i :: 0 <= i < |s| ==> IsDigit(s[i])
  }

  /** `str.lower()` restricted to ASCII letters. */
  function LowerChar(c: char): char {
    if 'A' <= c <= 'Z' then (c as int + 32) as char else c
  }

  predicate IsUpper(c: char) {
    'A' <= c <= 'Z'
  }

  /**
    No upper-case ASCII letter is left; each one becomes the same letter in
    lower case, and every other character is kept.
   */
  function Lower(s: string): (r: string)
    ensures |r| == |s|
    ensures forall i :: 0 <= i < |s| ==> !IsUpper(r[i])
    ensures forall i :: 0 <= i < |s| && !IsUpper(s[i]) ==> r[i] == s[i]
    ensures forall i :: 0 <= i < |s| && IsUpper(s[i]) ==> r[i] as int - 'a' as int == s[i] as int - 'A' as int
  {
    seq(|s|, i requires 0 <= i < |s| => LowerChar(s[i]))
  }

  /** Lower-casing twice is lower-casing once. */
  lemma LowerIdempotent(s: string)
    ensures Lower(Lower(s)) == Lower(s)
  {
    var once := Lower(s);
    assert forall i :: 0 <= i < |once| ==> Lower(once)[i] == once[i];
  }

  predicate StartsWith(s: string, prefix: string) {
    |prefix| <= |s| && s[..|prefix|] == prefix
  }

  predicate EndsWith(s: string, suffix: string) {
    |suffix| <= |s| && s[|s| - |suffix|..] == suffix
  }

  function DigitChar(d: nat): (c: char)
    requires d < 10
    ensures IsDigit(c)
  {
    ('0' as int + d) as char
  }

  function DigitValue(c: char): (d: nat)
    requires IsDigit(c)
    ensures d < 10 && DigitChar(d) == c
  {
    c as int - '0' as int
  }

  /** The shortest decimal rendering of `n` (Python's `str(n)`). */
  function Decimal(n: nat): (r: string)
    ensures 1 <= |r| && AllDigits(r)
    ensures n >= 10 ==> r[0] != '0'
    decreases n
  {
    if n < 10 then [DigitChar(n)] else Decimal(n / 10) + [DigitChar(n % 10)]
  }

  /** The number a string of decimal digits denotes. */
  function ValueOf(s: string): nat
    requires AllDigits(s)
    decreases |s|
  {
    if s == [] then 0 else ValueOf(s[..|s| - 1]) * 10 + DigitValue(s[|s| - 1])
  }

  lemma {:induction false} DecimalRoundTrip(n: nat)
    ensures ValueOf(Decimal(n)) == n
    decreases n
  {
    if n >= 10 {
      var r := Decimal(n);
      assert r[..|r| - 1] == Decimal(n / 10);
      DecimalRoundTrip(n / 10);
    }
  }

  /** Python's `f"{n:02d}"`: decimal, zero-padded to at least two digits. */
  function Pad2(n: nat): (r: string)
    ensures 2 <= |r| && AllDigits(r)
    ensures n < 100 ==> |r| == 2
    ensures n >= 10 ==> r[0] != '0'
    ensures ValueOf(r) == n
  {
    DecimalRoundTrip(n);
    if n < 10 then
      var r := "0" + Decimal(n);
      assert r[..|r| - 1] == "0";
      r
    else
      assert n >= 100 ==> |Decimal(n / 10)| >= 2;
      Decimal(n)
  }

  /** The longest prefix of `s` made only of digits. */
  function LeadingDigits(s: string): (r: string)
    ensures AllDigits(r) && StartsWith(s, r)
    ensures r == s || !IsDigit(s[|r|])
    decreases |s|
  {
    if s != [] && IsDigit(s[0]) then [s[0]] + LeadingDigits(s[1..]) else []
  }

  /** A digit run followed by a non-digit (or nothing) is exactly what `LeadingDigits` finds. */
  lemma {:induction false} LeadingDigitsOf(ds: string, rest: string)
    requires AllDigits(ds)
    requires rest == [] || !IsDigit(rest[0])
    ensures LeadingDigits(ds + rest) == ds
    decreases |ds|
  {
    if ds != [] {
      assert (ds + rest)[1..] == ds[1..] + rest;
      LeadingDigitsOf(ds[1..], rest);
    }
  }
}
