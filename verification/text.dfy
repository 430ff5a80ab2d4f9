/** Characters and decimal numerals as both halves of the benchmark
    pipeline handle them: C's `%i` and `atoi` in tests/speed_test.c and
    Python's `repr` of an int in harness.py. */
module Text {

  /** The whitespace of C's isspace and of Python's str.strip on ASCII text. */
  predicate IsSpace(c: char)
  {
    c == ' ' || c == '\t' || c == '\n' || c == '\r' || c as int == 11 || c as int == 12
  }

  predicate IsDigit(c: char)
  {
    '0' <= c <= '9'
  }

  predicate AllDigits(s: string)
  {
    forall i :: 0 <= i < |s| ==> IsDigit(s[i])
  }

  function DigitChar(d: int): (c: char)
    requires 0 <= d < 10
    ensures IsDigit(c)
  {
    ('0' as int + d) as char
  }

  function DigitValue(c: char): (d: int)
    requires IsDigit(c)
    ensures 0 <= d < 10
  {
    c as int - '0' as int
  }

  /** The digits of a natural number, most significant first, no leading zero. */
  function Digits(n: nat): (s: string)
    ensures |s| >= 1 && AllDigits(s)
    ensures n >= 10 ==> s[0] != '0'
  {
    if n < 10 then [DigitChar(n)] else Digits(n / 10) + [DigitChar(n % 10)]
  }

  /** `%i` and Python's repr of an int: a minus sign for negatives, then digits. */
  function Decimal(n: int): (s: string)
    ensures |s| >= 1
    ensures n >= 0 ==> s == Digits(n)
    ensures n < 0 ==> s == "-" + Digits(-n)
  {
    if n < 0 then "-" + Digits(-n) else Digits(n)
  }

  /** The value of a string of digits, most significant first. */
  function DigitsValue(s: string): (v: nat)
    requires AllDigits(s)
  {
    if s == [] then 0 else DigitsValue(s[..|s| - 1]) * 10 + DigitValue(s[|s| - 1])
  }

  /** The longest prefix of digits. */
  function LeadingDigits(s: string): (d: string)
    ensures AllDigits(d) && d <= s
    ensures |d| < |s| ==> !IsDigit(s[|d|])
  {
    if s == [] || !IsDigit(s[0]) then [] else [s[0]] + LeadingDigits(s[1..])
  }

  function SkipSpace(s: string): (t: string)
    ensures |t| <= |s| && t == s[|s| - |t|..]
    ensures t != [] ==> !IsSpace(t[0])
  {
    if s != [] && IsSpace(s[0]) then SkipSpace(s[1..]) else s
  }

  /** C's atoi: skip whitespace, take an optional sign and the digits that
      follow it; anything else ends the number. Out-of-range values are not
      modelled: the result is the unbounded integer. */
  function Atoi(s: string): int
  {
    var t := SkipSpace(s);
    if t != [] && t[0] == '-' then -(DigitsValue(LeadingDigits(t[1..])) as int)
    else if t != [] && t[0] == '+' then DigitsValue(LeadingDigits(t[1..]))
    else DigitsValue(LeadingDigits(t))
  }

  // ---------------------------------------------------------------------
  // Reading back what was written.

  /** The digits of n are worth n. */
  lemma {:induction false} LemmaDigitsValue(n: nat)
    ensures DigitsValue(Digits(n)) == n
  {
    if n >= 10 {
      LemmaDigitsValue(n / 10);
      var s := Digits(n);
      assert s[..|s| - 1] == Digits(n / 10);
    }
  }

  /** The leading digits of digits followed by a non-digit are those digits. */
  lemma {:induction false} LemmaLeadingDigits(d: string, rest: string)
    requires AllDigits(d)
    requires rest == [] || !IsDigit(rest[0])
    ensures LeadingDigits(d + rest) == d
  {
    if d != [] {
      assert (d + rest)[1..] == d[1..] + rest;
      LemmaLeadingDigits(d[1..], rest);
    }
  }

  /** atoi reads back what `%i` or repr wrote, whatever non-digit follows. */
  lemma LemmaAtoiDecimal(n: int, rest: string)
    requires rest == [] || !IsDigit(rest[0])
    ensures Atoi(Decimal(n) + rest) == n
  {
    if n < 0 {
      var m: nat := -n;
      LemmaAtoiNegative(m, rest);
      assert Decimal(n) == "-" + Digits(m);
      assert Decimal(n) + rest == "-" + Digits(m) + rest;
    } else {
      LemmaAtoiDigits(n, rest);
    }
  }

  lemma LemmaAtoiDigits(n: nat, rest: string)
    requires rest == [] || !IsDigit(rest[0])
    ensures Atoi(Digits(n) + rest) == n
  {
    LemmaAtoiUnsigned(Digits(n), rest);
    LemmaDigitsValue(n);
  }

  lemma LemmaAtoiNegative(n: nat, rest: string)
    requires rest == [] || !IsDigit(rest[0])
    ensures Atoi("-" + Digits(n) + rest) == -(n as int)
  {
    LemmaAtoiMinus(Digits(n), rest);
    LemmaDigitsValue(n);
  }

  /** atoi of a string of digits followed by a non-digit. */
  lemma LemmaAtoiUnsigned(d: string, rest: string)
    requires d != [] && AllDigits(d)
    requires rest == [] || !IsDigit(rest[0])
    ensures Atoi(d + rest) == DigitsValue(d)
  {
    var s := d + rest;
    var c := s[0];
    assert c == d[0] && IsDigit(c);
    assert !IsSpace(c) && c != '-' && c != '+';
    assert SkipSpace(s) == s;
    LemmaLeadingDigits(d, rest);
  }

  /** atoi of a minus sign, digits and a non-digit. */
  lemma LemmaAtoiMinus(d: string, rest: string)
    requires AllDigits(d)
    requires rest == [] || !IsDigit(rest[0])
    ensures Atoi("-" + d + rest) == -(DigitsValue(d) as int)
  {
    var s := "-" + d + rest;
    assert s[0] == '-';
    assert SkipSpace(s) == s;
    assert s[1..] == d + rest;
    LemmaLeadingDigits(d, rest);
  }
}
