/** The Python 2 string operations harness.py applies to the benchmark's
    results file: readlines, split, strip, float and repr. */
module PyText {
  import opened Wrappers
  import opened Text

  /** A Python number as the harness holds it: an int, or a float whose
      value is an integer (the only floats the results format yields). */
  datatype PyNum = PyInt(i: int) | PyFloat(f: int)

  /** The integer a number stands for. */
  function NumValue(v: PyNum): int
  {
    match v
    case PyInt(i) => i
    case PyFloat(f) => f
  }

  /** repr: an int as its digits, an integral float with ".0" appended. */
  function Repr(v: PyNum): (s: string)
    ensures |s| >= 1 && (IsDigit(s[0]) || s[0] == '-')
  {
    match v
    case PyInt(i) => Decimal(i)
    case PyFloat(f) => Decimal(f) + ".0"
  }

  /** The index of the first `c` in `s`, or |s| when there is none. */
  function IndexOf(s: string, c: char): (i: nat)
    ensures i <= |s|
    ensures i < |s| ==> s[i] == c
    ensures forall j :: 0 <= j < i ==> s[j] != c
  {
    if s == [] || s[0] == c then 0 else 1 + IndexOf(s[1..], c)
  }

  /** file.readlines(): the text cut after every newline, each line keeping
      its newline; a last line without one is kept as well. */
  function Lines(s: string): (ls: seq<string>)
    ensures forall i :: 0 <= i < |ls| ==> |ls[i]| > 0
    ensures forall i :: 0 <= i < |ls| - 1 ==> ls[i][|ls[i]| - 1] == '\n'
    decreases |s|
  {
    if s == [] then []
    else
      var i := IndexOf(s, '\n');
      if i == |s| then [s] else [s[..i + 1]] + Lines(s[i + 1..])
  }

  /** s.split(sep): the pieces between the separators, as many as there are
      separators plus one. */
  function Split(s: string, sep: char): (parts: seq<string>)
    ensures |parts| >= 1
    ensures forall k :: 0 <= k < |parts| ==> sep !in parts[k]
    decreases |s|
  {
    var i := IndexOf(s, sep);
    if i == |s| then [s] else [s[..i]] + Split(s[i + 1..], sep)
  }

  function StripLeft(s: string): (t: string)
    ensures |t| <= |s|
  {
    if s != [] && IsSpace(s[0]) then StripLeft(s[1..]) else s
  }

  function StripRight(s: string): (t: string)
    ensures |t| <= |s|
  {
    if s != [] && IsSpace(s[|s| - 1]) then StripRight(s[..|s| - 1]) else s
  }

  /** s.strip(): the text without its leading and trailing whitespace. */
  function Strip(s: string): (t: string)
    ensures |t| <= |s|
    ensures t != [] ==> !IsSpace(t[0]) && !IsSpace(t[|t| - 1])
  {
    var l := StripLeft(s);
    LemmaStripLeft(s);
    LemmaStripRight(l);
    StripRight(l)
  }

  /** lstrip removes a run of whitespace from the front and nothing else. */
  lemma {:induction false} LemmaStripLeft(s: string)
    ensures var t := StripLeft(s);
            t == s[|s| - |t|..] && (t != [] ==> !IsSpace(t[0]))
            && forall i :: 0 <= i < |s| - |t| ==> IsSpace(s[i])
  {
    if s != [] && IsSpace(s[0]) {
      LemmaStripLeft(s[1..]);
    }
  }

  /** rstrip removes a run of whitespace from the end and nothing else. */
  lemma {:induction false} LemmaStripRight(s: string)
    ensures var t := StripRight(s);
            t == s[..|t|] && (t != [] ==> !IsSpace(t[|t| - 1]))
            && forall i :: |t| <= i < |s| ==> IsSpace(s[i])
  {
    if s != [] && IsSpace(s[|s| - 1]) {
      LemmaStripRight(s[..|s| - 1]);
    }
  }

  predicate AllZeros(s: string)
  {
    forall i :: 0 <= i < |s| ==> s[i] == '0'
  }

  /** The unsigned part of an integral float literal: digits, optionally
      followed by a point and zeros. */
  function UnsignedIntegral(s: string): Option<nat>
  {
    var d := LeadingDigits(s);
    var rest := s[|d|..];
    if d == [] then None
    else if rest == [] || (rest[0] == '.' && AllZeros(rest[1..])) then Some(DigitsValue(d))
    else None
  }

  /** float(s) on the literals an integral value is written as: optional
      surrounding whitespace, an optional sign, digits, and optionally a
      point followed by zeros. None stands for the ValueError, and also for
      the other literals Python accepts ("2.5", "1e3", "inf"), which this
      model of numbers does not cover. */
  function ParseFloat(s: string): (r: Option<int>)
  {
    ParseSigned(Strip(s))
  }

  /** A stripped literal: an optional sign before the unsigned part. */
  function ParseSigned(t: string): (r: Option<int>)
  {
    if t != [] && (t[0] == '-' || t[0] == '+') then
      match UnsignedIntegral(t[1..])
      case None => None
      case Some(v) => Some(if t[0] == '-' then -(v as int) else v)
    else
      match UnsignedIntegral(t)
      case None => None
      case Some(v) => Some(v)
  }

  // ---------------------------------------------------------------------
  // Splitting.

  /** split yields one piece more than there are separators. */
  lemma {:induction false} LemmaSplitCount(s: string, sep: char)
    ensures |Split(s, sep)| == multiset(s)[sep] + 1
    decreases |s|
  {
    var i := IndexOf(s, sep);
    assert sep !in multiset(s[..i]);
    if i < |s| {
      assert s == s[..i] + [sep] + s[i + 1..];
      LemmaSplitCount(s[i + 1..], sep);
    } else {
      assert s[..i] == s;
    }
  }

  /** A text with one separator splits into the pieces on either side of it. */
  lemma LemmaSplitTwo(a: string, b: string, sep: char)
    requires sep !in a && sep !in b
    ensures Split(a + [sep] + b, sep) == [a, b]
  {
    var s := a + [sep] + b;
    assert IndexOf(s, sep) == |a| by {
      LemmaIndexOfPrefix(a, [sep] + b, sep);
      assert s == a + ([sep] + b);
    }
    assert s[..|a|] == a && s[|a| + 1..] == b;
    assert IndexOf(b, sep) == |b|;
  }

  lemma {:induction false} LemmaIndexOfPrefix(a: string, b: string, sep: char)
    requires sep !in a && b != [] && b[0] == sep
    ensures IndexOf(a + b, sep) == |a|
  {
    if a != [] {
      assert (a + b)[1..] == a[1..] + b;
      LemmaIndexOfPrefix(a[1..], b, sep);
    }
  }

  // ---------------------------------------------------------------------
  // Reading back what was written.

  lemma LemmaStripUnchanged(s: string)
    requires s != [] && !IsSpace(s[0]) && !IsSpace(s[|s| - 1])
    ensures Strip(s) == s
  {
  }

  lemma {:induction false} LemmaStripLeftSpaces(w: string, s: string)
    requires forall i :: 0 <= i < |w| ==> IsSpace(w[i])
    requires s == [] || !IsSpace(s[0])
    ensures StripLeft(w + s) == s
  {
    if w != [] {
      assert (w + s)[1..] == w[1..] + s;
      LemmaStripLeftSpaces(w[1..], s);
    }
  }

  lemma {:induction false} LemmaStripRightSpaces(s: string, w: string)
    requires forall i :: 0 <= i < |w| ==> IsSpace(w[i])
    requires s == [] || !IsSpace(s[|s| - 1])
    ensures StripRight(s + w) == s
  {
    if w != [] {
      assert (s + w)[..|s + w| - 1] == s + w[..|w| - 1];
      LemmaStripRightSpaces(s, w[..|w| - 1]);
    }
  }

  /** Whitespace around a word is what strip removes. */
  lemma LemmaStripPadded(w1: string, s: string, w2: string)
    requires forall i :: 0 <= i < |w1| ==> IsSpace(w1[i])
    requires forall i :: 0 <= i < |w2| ==> IsSpace(w2[i])
    requires s != [] && !IsSpace(s[0]) && !IsSpace(s[|s| - 1])
    ensures Strip(w1 + s + w2) == s
  {
    assert w1 + s + w2 == w1 + (s + w2);
    LemmaStripLeftSpaces(w1, s + w2);
    LemmaStripRightSpaces(s, w2);
  }

  /** The digits of m, alone or followed by ".0", read as m. */
  lemma LemmaUnsignedIntegral(m: nat, rest: string)
    requires rest == [] || rest == ".0"
    ensures UnsignedIntegral(Digits(m) + rest) == Some(m)
  {
    LemmaDigitsValue(m);
    LemmaLeadingDigits(Digits(m), rest);
    assert (Digits(m) + rest)[|Digits(m)|..] == rest;
  }

  /** float() reads back the digits `%i` wrote, with any whitespace around. */
  lemma LemmaParseFloatDecimal(w1: string, n: int, w2: string)
    requires forall i :: 0 <= i < |w1| ==> IsSpace(w1[i])
    requires forall i :: 0 <= i < |w2| ==> IsSpace(w2[i])
    ensures ParseFloat(w1 + Decimal(n) + w2) == Some(n)
  {
    var d := Decimal(n);
    assert IsDigit(d[|d| - 1]);
    LemmaStripPadded(w1, d, w2);
    LemmaParseSigned(n, []);
    assert d + [] == d;
  }

  /** The literal `%i` writes, alone or with ".0" appended, reads as its value. */
  lemma LemmaParseSigned(n: int, rest: string)
    requires rest == [] || rest == ".0"
    ensures ParseSigned(Decimal(n) + rest) == Some(n)
  {
    var s := Decimal(n) + rest;
    if n < 0 {
      var m: nat := -n;
      assert s[0] == '-' && s[1..] == Digits(m) + rest;
      LemmaUnsignedIntegral(m, rest);
      assert UnsignedIntegral(s[1..]) == Some(m);
    } else {
      assert s == Digits(n) + rest;
      var c := s[0];
      assert IsDigit(c) && c != '-' && c != '+';
      LemmaUnsignedIntegral(n, rest);
      assert UnsignedIntegral(s) == Some(n);
    }
  }

  /** float() reads back repr of an integral float. */
  lemma LemmaParseFloatRepr(n: int)
    ensures ParseFloat(Repr(PyFloat(n))) == Some(n)
  {
    var s := Repr(PyFloat(n));
    assert s == Decimal(n) + ".0";
    LemmaStripUnchanged(s);
    LemmaParseSigned(n, ".0");
  }

  /** C's atoi reads the integer back from repr of an int or of an
      integral float: it stops at the point. */
  lemma LemmaAtoiRepr(v: PyNum)
    ensures Atoi(Repr(v)) == NumValue(v)
  {
    match v
    case PyInt(i) =>
      LemmaAtoiDecimal(i, []);
      assert Decimal(i) + [] == Decimal(i);
    case PyFloat(f) =>
      LemmaAtoiDecimal(f, ".0");
  }
}
