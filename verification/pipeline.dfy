/** The two halves of the benchmark pipeline together: the results file
    that main in tests/speed_test.c writes is what parse_scores in
    harness.py reads back, and run_test hands the counters it read to the
    next run of the benchmark, whose atoi recovers them. */
module Pipeline {
  import opened Wrappers
  import opened Text
  import opened PyText
  import opened Harness
  import opened SpeedTest

  /** A field name the results file can carry: one word, no colon, no newline. */
  predicate PlainName(name: string)
  {
    && name != [] && !IsSpace(name[0]) && !IsSpace(name[|name| - 1])
    && ':' !in name && '\n' !in name
  }

  /** The four names main writes are plain, and are the names the harness reads. */
  lemma LemmaFieldNames()
    ensures PlainName(DEADLOCK_FIELD) && PlainName(FAIL_FIELD)
    ensures PlainName(COMP_FIELD) && PlainName(TIME_FIELD)
  {
    assert forall i :: 0 <= i < |DEADLOCK_FIELD| ==> DEADLOCK_FIELD[i] != ':' && DEADLOCK_FIELD[i] != '\n';
    assert forall i :: 0 <= i < |FAIL_FIELD| ==> FAIL_FIELD[i] != ':' && FAIL_FIELD[i] != '\n';
    assert forall i :: 0 <= i < |COMP_FIELD| ==> COMP_FIELD[i] != ':' && COMP_FIELD[i] != '\n';
    assert forall i :: 0 <= i < |TIME_FIELD| ==> TIME_FIELD[i] != ':' && TIME_FIELD[i] != '\n';
  }

  /** A line as readlines returns it: nonempty, ending in its only newline. */
  predicate OneLine(l: string)
  {
    l != [] && l[|l| - 1] == '\n' && '\n' !in l[..|l| - 1]
  }

  /** readlines cuts a line off the front of a text. */
  lemma LemmaLinesCons(l: string, rest: string)
    requires OneLine(l)
    ensures Lines(l + rest) == [l] + Lines(rest)
  {
    var body := l[..|l| - 1];
    var s := l + rest;
    assert s == body + ("\n" + rest);
    LemmaIndexOfPrefix(body, "\n" + rest, '\n');
    assert s[..|l|] == l && s[|l|..] == rest;
  }

  /** readlines on four lines. */
  lemma LemmaFourLines(l1: string, l2: string, l3: string, l4: string)
    requires OneLine(l1) && OneLine(l2) && OneLine(l3) && OneLine(l4)
    ensures Lines(l1 + l2 + l3 + l4) == [l1, l2, l3, l4]
  {
    assert l1 + l2 + l3 + l4 == l1 + (l2 + (l3 + (l4 + [])));
    LemmaLinesCons(l4, []);
    LemmaLinesCons(l3, l4 + []);
    LemmaLinesCons(l2, l3 + (l4 + []));
    LemmaLinesCons(l1, l2 + (l3 + (l4 + [])));
  }

  /** A results line is one line: its only newline is its last character. */
  lemma LemmaResultLineOne(name: string, v: int)
    requires PlainName(name)
    ensures OneLine(ResultLine(name, v))
  {
    var l := ResultLine(name, v);
    var body := name + ": " + Decimal(v);
    assert l == body + "\n" && l[..|l| - 1] == body;
    assert forall i :: 0 <= i < |Decimal(v)| ==> Decimal(v)[i] != '\n';
    forall i | 0 <= i < |body|
      ensures body[i] != '\n'
    {
      if i < |name| {
        assert body[i] == name[i];
      } else if i >= |name| + 2 {
        assert body[i] == Decimal(v)[i - |name| - 2];
      }
    }
  }

  /** parse_scores reads a results line as its field and its value. */
  lemma LemmaResultLineParsed(name: string, v: int)
    requires PlainName(name)
    ensures ParseLine(ResultLine(name, v)) == Some((name, v))
  {
    LemmaWellFormedLine(name, " ", v, "\n");
    LemmaRegroup(name, Decimal(v));
    LemmaStripUnchanged(name);
  }

  lemma LemmaRegroup(name: string, d: string)
    ensures name + ": " + d + "\n" == name + ":" + (" " + d + "\n")
  {
    assert ": " == ":" + " ";
  }

  /** main's results file is read as its four lines. */
  lemma LemmaResultsLines(deadlocks: int, fails: int, comps: int, time: int)
    ensures Lines(ResultsText(deadlocks, fails, comps, time))
            == [ResultLine(DEADLOCK_FIELD, deadlocks), ResultLine(FAIL_FIELD, fails),
                ResultLine(COMP_FIELD, comps), ResultLine(TIME_FIELD, time)]
  {
    LemmaFieldNames();
    LemmaResultLineOne(DEADLOCK_FIELD, deadlocks);
    LemmaResultLineOne(FAIL_FIELD, fails);
    LemmaResultLineOne(COMP_FIELD, comps);
    LemmaResultLineOne(TIME_FIELD, time);
    LemmaFourLines(ResultLine(DEADLOCK_FIELD, deadlocks), ResultLine(FAIL_FIELD, fails),
                   ResultLine(COMP_FIELD, comps), ResultLine(TIME_FIELD, time));
  }

  /** parse_scores's loop reads the lines one after another. */
  lemma LemmaReadLinesSnoc(lines: seq<string>, l: string)
    ensures ReadLines(lines + [l]) == Apply(ReadLines(lines), l)
  {
    assert (lines + [l])[..|lines|] == lines;
  }

  /** A well-formed line sets its field to its value, as a float. */
  lemma LemmaApplyLine(t: Table, l: string, name: string, v: int)
    requires l != [] && ParseLine(l) == Some((name, v))
    ensures Apply(Parsed(t), l) == Parsed(t[name := PyFloat(v)])
  {
  }

  /** parse_scores's loop over four well-formed lines sets their four fields in order. */
  lemma LemmaReadFour(l1: string, n1: string, v1: int, l2: string, n2: string, v2: int,
                      l3: string, n3: string, v3: int, l4: string, n4: string, v4: int)
    requires l1 != [] && ParseLine(l1) == Some((n1, v1))
    requires l2 != [] && ParseLine(l2) == Some((n2, v2))
    requires l3 != [] && ParseLine(l3) == Some((n3, v3))
    requires l4 != [] && ParseLine(l4) == Some((n4, v4))
    ensures ReadLines([l1, l2, l3, l4])
            == Parsed(map[][n1 := PyFloat(v1)][n2 := PyFloat(v2)][n3 := PyFloat(v3)][n4 := PyFloat(v4)])
  {
    var m0: Table := map[];
    var m1 := m0[n1 := PyFloat(v1)];
    var m2 := m1[n2 := PyFloat(v2)];
    var m3 := m2[n3 := PyFloat(v3)];
    LemmaReadLinesSnoc([], l1);
    assert [] + [l1] == [l1];
    LemmaApplyLine(m0, l1, n1, v1);
    LemmaReadLinesSnoc([l1], l2);
    assert [l1] + [l2] == [l1, l2];
    LemmaApplyLine(m1, l2, n2, v2);
    LemmaReadLinesSnoc([l1, l2], l3);
    assert [l1, l2] + [l3] == [l1, l2, l3];
    LemmaApplyLine(m2, l3, n3, v3);
    LemmaReadLinesSnoc([l1, l2, l3], l4);
    assert [l1, l2, l3] + [l4] == [l1, l2, l3, l4];
    LemmaApplyLine(m3, l4, n4, v4);
  }

  /** parse_scores on the file main writes gives back the four totals, as floats. */
  lemma LemmaResultsParsed(deadlocks: int, fails: int, comps: int, time: int)
    ensures ParseScoresSpec(Some(ResultsText(deadlocks, fails, comps, time)))
            == Parsed(map[DEADLOCK_FIELD := PyFloat(deadlocks), FAIL_FIELD := PyFloat(fails),
                          COMP_FIELD := PyFloat(comps), TIME_FIELD := PyFloat(time)])
  {
    LemmaFieldNames();
    LemmaResultsLines(deadlocks, fails, comps, time);
    LemmaResultLineParsed(DEADLOCK_FIELD, deadlocks);
    LemmaResultLineParsed(FAIL_FIELD, fails);
    LemmaResultLineParsed(COMP_FIELD, comps);
    LemmaResultLineParsed(TIME_FIELD, time);
    LemmaReadFour(ResultLine(DEADLOCK_FIELD, deadlocks), DEADLOCK_FIELD, deadlocks,
                  ResultLine(FAIL_FIELD, fails), FAIL_FIELD, fails,
                  ResultLine(COMP_FIELD, comps), COMP_FIELD, comps,
                  ResultLine(TIME_FIELD, time), TIME_FIELD, time);
  }

  /** The command line run_test builds from a table holding the four
      counters as floats: eight words from which atoi reads back each
      counter and the two sizes. */
  lemma LemmaCommandAtoi(test: string, seedText: string, table: Table, deadlocks: int, fails: int, comps: int, time: int)
    requires table == map[DEADLOCK_FIELD := PyFloat(deadlocks), FAIL_FIELD := PyFloat(fails),
                          COMP_FIELD := PyFloat(comps), TIME_FIELD := PyFloat(time)]
    ensures CommandLine(test, seedText, table).Some?
    ensures var args := CommandLine(test, seedText, table).value;
            && |args| == 8 && args[1] == seedText
            && Atoi(args[2]) == deadlocks && Atoi(args[3]) == fails
            && Atoi(args[4]) == comps && Atoi(args[5]) == time
            && Atoi(args[6]) == 30 && Atoi(args[7]) == 50
  {
    LemmaFieldsDistinct();
    assert table[DEADLOCK_FIELD] == PyFloat(deadlocks) && table[FAIL_FIELD] == PyFloat(fails);
    assert table[COMP_FIELD] == PyFloat(comps) && table[TIME_FIELD] == PyFloat(time);
    var args := CommandLine(test, seedText, table).value;
    assert args[2] == Repr(PyFloat(deadlocks)) && args[3] == Repr(PyFloat(fails));
    assert args[4] == Repr(PyFloat(comps)) && args[5] == Repr(PyFloat(time));
    LemmaAtoiRepr(PyFloat(deadlocks));
    LemmaAtoiRepr(PyFloat(fails));
    LemmaAtoiRepr(PyFloat(comps));
    LemmaAtoiRepr(PyFloat(time));
    LemmaAtoiSizes();
  }

  /** The four field names differ. */
  lemma LemmaFieldsDistinct()
    ensures DEADLOCK_FIELD != FAIL_FIELD && DEADLOCK_FIELD != COMP_FIELD && DEADLOCK_FIELD != TIME_FIELD
    ensures FAIL_FIELD != COMP_FIELD && FAIL_FIELD != TIME_FIELD && COMP_FIELD != TIME_FIELD
  {
    assert DEADLOCK_FIELD[4] == 'D' && FAIL_FIELD[4] == 'T' && COMP_FIELD[4] == 'T';
    assert FAIL_FIELD[8] == 'F' && COMP_FIELD[8] == 'C';
    assert |TIME_FIELD| == 4;
  }

  /** atoi reads the two sizes run_test passes. */
  lemma LemmaAtoiSizes()
    ensures Atoi("30") == 30 && Atoi("50") == 50
  {
    LemmaAtoiTwoDigits("30");
    LemmaAtoiTwoDigits("50");
  }

  /** atoi of a two-digit numeral. */
  lemma LemmaAtoiTwoDigits(s: string)
    requires |s| == 2 && IsDigit(s[0]) && IsDigit(s[1])
    ensures Atoi(s) == DigitValue(s[0]) * 10 + DigitValue(s[1])
  {
    LemmaAtoiAllDigits(s);
    LemmaTwoDigitsValue(s);
  }

  lemma LemmaAtoiAllDigits(s: string)
    requires s != [] && AllDigits(s)
    ensures Atoi(s) == DigitsValue(s)
  {
    LemmaAtoiUnsigned(s, []);
    assert s + [] == s;
  }

  lemma LemmaTwoDigitsValue(s: string)
    requires |s| == 2 && IsDigit(s[0]) && IsDigit(s[1])
    ensures AllDigits(s) && DigitsValue(s) == DigitValue(s[0]) * 10 + DigitValue(s[1])
  {
    var d := s[..1];
    assert d[0] == s[0] && d[..0] == [];
    assert DigitsValue(d) == DigitValue(s[0]);
  }

  /** The next run of the benchmark starts from the totals the previous run
      wrote: the command line run_test builds from the parsed results file
      has eight words, and atoi reads back each total and the two sizes. */
  lemma LemmaCarryOver(test: string, seedText: string, deadlocks: int, fails: int, comps: int, time: int)
    ensures ParseScoresSpec(Some(ResultsText(deadlocks, fails, comps, time))).Parsed?
    ensures var table := ParseScoresSpec(Some(ResultsText(deadlocks, fails, comps, time))).table;
            && TIME_FIELD in table
            && CommandLine(test, seedText, table).Some?
            && var args := CommandLine(test, seedText, table).value;
               && |args| == 8 && args[1] == seedText
               && Atoi(args[2]) == deadlocks && Atoi(args[3]) == fails
               && Atoi(args[4]) == comps && Atoi(args[5]) == time
               && Atoi(args[6]) == 30 && Atoi(args[7]) == 50
  {
    LemmaResultsParsed(deadlocks, fails, comps, time);
    var table := ParseScoresSpec(Some(ResultsText(deadlocks, fails, comps, time))).table;
    LemmaCommandAtoi(test, seedText, table, deadlocks, fails, comps, time);
  }
}
