/**
 * Decimal text and numbers, as the C and C++ libraries read and write them:
 * `std::to_string` of an unsigned number (story tokens "1", "2", ...) and
 * `atoi` (the thresholds of story conditions).
 */
module Decimal {

  predicate IsDigit(c: char)
  {
    '0' <= c <= '9'
  }

  predicate AllDigits(s: string)
  {
    forall i | 0 <= i < |s| :: IsDigit(s[i])
  }

  function DigitChar(d: nat): (c: char)
    requires d < 10
    ensures IsDigit(c)
  {
    ['0', '1', '2', '3', '4', '5', '6', '7', '8', '9'][d]
  }

  function DigitValue(c: char): (d: nat)
    requires IsDigit(c)
    ensures d < 10
  {
    (c as int - '0' as int) as nat
  }

  lemma DigitRoundTrip(d: nat)
    requires d < 10
    ensures DigitValue(DigitChar(d)) == d
  {
  }

  /** The decimal digits of `n`, most significant first, without leading zeros. */
  function NatToString(n: nat): (s: string)
    ensures |s| > 0 && AllDigits(s)
    ensures |s| > 1 ==> s[0] != '0'
    decreases n
  {
    if n < 10 then [DigitChar(n)] else NatToString(n / 10) + [DigitChar(n % 10)]
  }

  /** The number a string of digits denotes. */
  function DigitsValue(s: string): nat
    requires AllDigits(s)
    decreases |s|
  {
    if s == [] then 0 else DigitsValue(s[..|s| - 1]) * 10 + DigitValue(s[|s| - 1])
  }

  /** The characters `isspace` accepts in the C locale. */
  predicate IsSpace(c: char)
  {
    c == ' ' || c == '\t' || c == '\n' || c == '\r' || c as int == 11 || c as int == 12
  }

  function SkipSpace(s: string): (r: string)
    ensures |r| <= |s| && r == s[|s| - |r|..]
    ensures r != [] ==> !IsSpace(r[0])
  {
    if s != [] && IsSpace(s[0]) then SkipSpace(s[1..]) else s
  }

  /** The longest prefix of `s` made of digits. */
  function LeadingDigits(s: string): (r: string)
    ensures AllDigits(r) && |r| <= |s| && r == s[..|r|]
    ensures |r| < |s| ==> !IsDigit(s[|r|])
  {
    if s != [] && IsDigit(s[0]) then [s[0]] + LeadingDigits(s[1..]) else []
  }

  /**
   * `atoi`: leading white space, an optional sign, then as many digits as
   * follow; 0 when there are none. Overflow (undefined in C) is not modelled.
   */
  function Atoi(s: string): (r: int)
    ensures SkipSpace(s) == [] ==> r == 0
    ensures SkipSpace(s) != [] && SkipSpace(s)[0] == '-' ==> r <= 0
    ensures SkipSpace(s) == [] || SkipSpace(s)[0] != '-' ==> r >= 0
    ensures SkipSpace(s) != [] && !IsDigit(SkipSpace(s)[0]) && SkipSpace(s)[0] != '-' && SkipSpace(s)[0] != '+' ==> r == 0
  {
    var t := SkipSpace(s);
    if t != [] && t[0] == '-' then -(DigitsValue(LeadingDigits(t[1..])) as int)
    else if t != [] && t[0] == '+' then DigitsValue(LeadingDigits(t[1..]))
    else DigitsValue(LeadingDigits(t))
  }

  lemma {:induction false} DigitsValueOfNatToString(n: nat)
    ensures DigitsValue(NatToString(n)) == n
    decreases n
  {
    var s := NatToString(n);
    if n < 10 {
      assert s[..0] == [];
      DigitRoundTrip(n);
    } else {
      DigitsValueOfNatToString(n / 10);
      assert s[..|s| - 1] == NatToString(n / 10);
      DigitRoundTrip(n % 10);
    }
  }

  lemma {:induction false} LeadingDigitsOfDigits(s: string)
    requires AllDigits(s)
    ensures LeadingDigits(s) == s
    decreases |s|
  {
    if s != [] {
      LeadingDigitsOfDigits(s[1..]);
    }
  }

  /** A non-empty run of digits is read as the number it denotes. */
  lemma AtoiOfDigits(s: string)
    requires s != [] && AllDigits(s)
    ensures Atoi(s) == DigitsValue(s)
  {
    assert IsDigit(s[0]);
    assert !IsSpace(s[0]) && s[0] != '-' && s[0] != '+';
    assert SkipSpace(s) == s;
    LeadingDigitsOfDigits(s);
  }

  /** `atoi` reads back what `to_string` writes. */
  lemma NatToStringRoundTrip(n: nat)
    ensures Atoi(NatToString(n)) == n
  {
    AtoiOfDigits(NatToString(n));
    DigitsValueOfNatToString(n);
  }

  lemma AtoiOfNegative(n: nat)
    ensures Atoi("-" + NatToString(n)) == -(n as int)
  {
    var d := NatToString(n);
    var t := "-" + d;
    assert SkipSpace(t) == t by {
      assert t != [] && t[0] == '-' && !IsSpace(t[0]);
    }
    assert t[1..] == d;
    assert Atoi(t) == -(DigitsValue(LeadingDigits(d)) as int);
    LeadingDigitsOfDigits(d);
    DigitsValueOfNatToString(n);
  }

  /** `atoi` skips a leading blank. */
  lemma AtoiSkipsBlank(c: char, rest: string)
    requires IsSpace(c)
    ensures Atoi([c] + rest) == Atoi(rest)
  {
    assert ([c] + rest)[1..] == rest;
    assert SkipSpace([c] + rest) == SkipSpace(rest);
  }

  /** `atoi` reads back a negated `to_string`, also after leading blanks. */
  lemma {:induction false} NegativeRoundTrip(n: nat, blanks: string)
    requires forall i | 0 <= i < |blanks| :: IsSpace(blanks[i])
    ensures Atoi(blanks + "-" + NatToString(n)) == -(n as int)
    decreases |blanks|
  {
    if blanks == [] {
      assert blanks + "-" + NatToString(n) == "-" + NatToString(n);
      AtoiOfNegative(n);
    } else {
      var rest := blanks[1..] + "-" + NatToString(n);
      assert blanks + "-" + NatToString(n) == [blanks[0]] + rest;
      AtoiSkipsBlank(blanks[0], rest);
      NegativeRoundTrip(n, blanks[1..]);
    }
  }

  /** Distinct numbers have distinct decimal texts, so the story tokens "1", "2", ... never collide. */
  lemma NatToStringInjective(a: nat, b: nat)
    requires a != b
    ensures NatToString(a) != NatToString(b)
  {
    NatToStringRoundTrip(a);
    NatToStringRoundTrip(b);
  }
}
