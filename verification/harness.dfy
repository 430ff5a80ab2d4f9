/** harness.py: parse_scores, which reads the benchmark's results file into a
    table, and the control skeleton of TestHarness.run_test, which runs the
    benchmark twice, feeding each run the counts the previous one wrote, and
    then records the unit-test verdict. Shell commands are opaque steps. */
module Harness {
  import opened Wrappers
  import opened Text
  import opened PyText

  /** The Python dict `table`: field name to number. */
  type Table = map<string, PyNum>

  // ---------------------------------------------------------------------
  // parse_scores

  /** One line: `field,value = l.split(":")` then `float(value)`. None stands
      for the ValueError raised when the split does not give exactly two
      pieces or the value is not a number. */
  function ParseLine(l: string): Option<(string, int)>
  {
    var parts := Split(l, ':');
    if |parts| != 2 then None
    else
      match ParseFloat(parts[1])
      case None => None
      case Some(v) => Some((Strip(parts[0]), v))
  }

  /** A line without exactly one colon does not split in two and is not parsed. */
  lemma LemmaParseLineColons(l: string)
    ensures multiset(l)[':'] != 1 ==> ParseLine(l).None?
  {
    LemmaSplitCount(l, ':');
  }

  /** A line the loop does not skip but cannot parse. A value that is a
      non-integral float literal falls under it too, as ParseFloat does not
      cover such literals. */
  predicate Malformed(l: string)
  {
    l != [] && ParseLine(l).None?
  }

  /** A line that sets field k. */
  predicate Names(l: string, k: string)
  {
    l != [] && ParseLine(l).Some? && ParseLine(l).value.0 == k
  }

  /** What parse_scores hands back: the table, or the NameError raised by
      its generic handler, which names the module `sys` that harness.py
      never imports. */
  datatype Scores = Parsed(table: Table) | NameErrorEscapes

  /** The loop body on one line: a zero-length line is skipped, a
      well-formed line sets its field to its value, and a malformed one
      ends parsing with the escaping NameError. */
  function Apply(s: Scores, l: string): Scores
  {
    match s
    case NameErrorEscapes => NameErrorEscapes
    case Parsed(t) =>
      if l == [] then s
      else
        match ParseLine(l)
        case None => NameErrorEscapes
        case Some(p) => Parsed(t[p.0 := PyFloat(p.1)])
  }

  /** The effect of the loop over `lines`, one line at a time from the first. */
  function ReadLines(lines: seq<string>): Scores
  {
    if lines == [] then Parsed(map[])
    else Apply(ReadLines(lines[..|lines| - 1]), lines[|lines| - 1])
  }

  /** One line sets field k to its value and leaves every other field as it was. */
  lemma LemmaApply(t: Table, l: string, k: string)
    requires Apply(Parsed(t), l).Parsed?
    ensures var u := Apply(Parsed(t), l).table;
            if Names(l, k) then k in u && u[k] == PyFloat(ParseLine(l).value.1)
            else (k in u <==> k in t) && (k in t ==> u[k] == t[k])
  {
  }

  /** parse_scores on a file with the given contents; None is a file that
      cannot be opened. */
  function ParseScoresSpec(file: Option<string>): Scores
  {
    match file
    case None => Parsed(map[])
    case Some(text) => ReadLines(Lines(text))
  }

  /** parse_scores(f). */
  method ParseScores(file: Option<string>) returns (r: Scores)
    ensures r == ParseScoresSpec(file)
    ensures file.None? ==> r == Parsed(map[])
  {
    var table: Table := map[];
    if file.None? {
      // open raises IOError; the handler prints and the empty table is returned
      return Parsed(table);
    }
    var lines := Lines(file.value);
    for i := 0 to |lines|
      invariant ReadLines(lines[..i]) == Parsed(table)
    {
      var l := lines[i];
      assert lines[..i + 1][..i] == lines[..i];
      if |l| == 0 {
        continue;
      }
      var parsed := ParseLine(l);
      if parsed.None? {
        assert ReadLines(lines[..i + 1]) == NameErrorEscapes;
        LemmaErrorSticks(lines, i + 1);
        return NameErrorEscapes;
      }
      table := table[parsed.value.0 := PyFloat(parsed.value.1)];
    }
    assert lines[..|lines|] == lines;
    return Parsed(table);
  }

  /** Once a prefix of the lines fails, the whole file fails. */
  lemma {:induction false} LemmaErrorSticks(lines: seq<string>, n: nat)
    requires n <= |lines| && ReadLines(lines[..n]) == NameErrorEscapes
    ensures ReadLines(lines) == NameErrorEscapes
    decreases |lines| - n
  {
    if n < |lines| {
      assert lines[..n + 1][..n] == lines[..n];
      LemmaErrorSticks(lines, n + 1);
    } else {
      assert lines[..n] == lines;
    }
  }

  // ---------------------------------------------------------------------
  // What parse_scores promises.

  /** Parsing fails exactly when some line is malformed. */
  lemma {:induction false} LemmaReadLinesFails(lines: seq<string>)
    ensures ReadLines(lines) == NameErrorEscapes <==>
            exists i :: 0 <= i < |lines| && Malformed(lines[i])
  {
    if lines != [] {
      var init := lines[..|lines| - 1];
      LemmaReadLinesFails(init);
      assert forall i :: 0 <= i < |init| ==> init[i] == lines[i];
      if ReadLines(init) == NameErrorEscapes {
        var i :| 0 <= i < |init| && Malformed(init[i]);
        assert Malformed(lines[i]);
      }
    }
  }

  /** A field is in the table exactly when some line sets it. */
  lemma {:induction false} LemmaTableKeys(lines: seq<string>, k: string)
    requires ReadLines(lines).Parsed?
    ensures k in ReadLines(lines).table <==> exists i :: 0 <= i < |lines| && Names(lines[i], k)
  {
    if lines != [] {
      var init, last := lines[..|lines| - 1], lines[|lines| - 1];
      assert ReadLines(init).Parsed?;
      LemmaTableKeys(init, k);
      LemmaApply(ReadLines(init).table, last, k);
      if k in ReadLines(lines).table {
        if !Names(last, k) {
          var i :| 0 <= i < |init| && Names(init[i], k);
          assert lines[i] == init[i];
        }
      } else {
        assert !Names(last, k) && k !in ReadLines(init).table;
        forall i | 0 <= i < |lines|
          ensures !Names(lines[i], k)
        {
          if i < |init| {
            assert lines[i] == init[i];
          } else {
            assert lines[i] == last;
          }
        }
      }
    }
  }

  /** When a field is set by several lines, the table holds the value of the
      last of them. */
  lemma {:induction false} LemmaLaterLineWins(pre: seq<string>, l: string, post: seq<string>, k: string)
    requires Names(l, k)
    requires forall j :: 0 <= j < |post| ==> !Names(post[j], k)
    requires ReadLines(pre + [l] + post).Parsed?
    ensures k in ReadLines(pre + [l] + post).table
    ensures ReadLines(pre + [l] + post).table[k] == PyFloat(ParseLine(l).value.1)
    decreases |post|
  {
    var lines := pre + [l] + post;
    var init, last := lines[..|lines| - 1], lines[|lines| - 1];
    assert ReadLines(init).Parsed?;
    LemmaApply(ReadLines(init).table, last, k);
    if post == [] {
      assert init == pre;
    } else {
      var rest := post[..|post| - 1];
      LemmaDropLast(pre + [l], post);
      assert init == pre + [l] + rest;
      assert last == post[|post| - 1];
      LemmaLaterLineWins(pre, l, rest, k);
    }
  }

  /** Dropping the last element of a + b, b non-empty, drops it from b. */
  lemma LemmaDropLast(a: seq<string>, b: seq<string>)
    requires b != []
    ensures (a + b)[..|a + b| - 1] == a + b[..|b| - 1]
  {
    var c, d := (a + b)[..|a + b| - 1], a + b[..|b| - 1];
    assert |c| == |d|;
    forall j | 0 <= j < |c|
      ensures c[j] == d[j]
    {
      if j < |a| {
        assert c[j] == a[j];
      } else {
        assert c[j] == b[j - |a|];
      }
    }
  }

  /** readlines keeps the newline, so a blank line is not skipped: it has no
      colon, fails the split, and parsing ends with the escaping NameError. */
  lemma LemmaBlankLineFails(lines: seq<string>, i: nat)
    requires i < |lines| && lines[i] == "\n"
    ensures ReadLines(lines) == NameErrorEscapes
  {
    assert multiset(lines[i])[':'] == 0;
    LemmaParseLineColons(lines[i]);
    assert Malformed(lines[i]);
    LemmaReadLinesFails(lines);
  }

  /** A line `field:value` with a number after the colon sets the stripped
      field to that number. */
  lemma LemmaWellFormedLine(field: string, w1: string, n: int, w2: string)
    requires ':' !in field
    requires forall i :: 0 <= i < |w1| ==> IsSpace(w1[i])
    requires forall i :: 0 <= i < |w2| ==> IsSpace(w2[i])
    ensures ParseLine(field + ":" + (w1 + Decimal(n) + w2)) == Some((Strip(field), n))
  {
    var value := w1 + Decimal(n) + w2;
    assert forall i :: 0 <= i < |w1| ==> w1[i] != ':';
    assert forall i :: 0 <= i < |w2| ==> w2[i] != ':';
    assert forall i :: 0 <= i < |Decimal(n)| ==> Decimal(n)[i] != ':';
    assert ':' !in value;
    LemmaSplitTwo(field, value, ':');
    LemmaParseFloatDecimal(w1, n, w2);
  }

  // ---------------------------------------------------------------------
  // run_test

  /** The visible steps of run_test; the mkdir/cp/chdir/rm commands around
      them are left out. */
  datatype Step =
    | Invoke(args: seq<string>)   // os.system of the benchmark with these words
    | RunUnitTests                // os.system("./contest")
    | AppendLine(line: string)    // echo ... >> speed_test.results

  /** How run_test ends. */
  datatype Outcome =
    | Missing                     // the test binary does not exist
    | Completed(table: Table)     // both runs and the unit tests ran
    | KeyErrorEscapes             // a counter was missing from a parsed table
    | ParseErrorEscapes           // parse_scores raised its NameError

  /** The four counters the benchmark writes and reads back. */
  const DEADLOCK_FIELD: string := "NUM_DEADLOCK"
  const FAIL_FIELD: string := "NUM_TXN_FAIL"
  const COMP_FIELD: string := "NUM_TXN_COMP"
  const TIME_FIELD: string := "TIME"

  /** The accumulator before the first run: the four counters at int 0. */
  function InitialTable(): (t: Table)
    ensures t.Keys == {DEADLOCK_FIELD, FAIL_FIELD, COMP_FIELD, TIME_FIELD}
    ensures forall k :: k in t ==> t[k] == PyInt(0)
  {
    map[DEADLOCK_FIELD := PyInt(0), FAIL_FIELD := PyInt(0),
        COMP_FIELD := PyInt(0), TIME_FIELD := PyInt(0)]
  }

  /** The words of the benchmark command: its path, the seed, repr of the
      four counters, 30 populate inserts and 50 tests per thread. None is
      the KeyError of a counter missing from the table. */
  function CommandLine(test: string, seedText: string, table: Table): (r: Option<seq<string>>)
    ensures r.Some? <==> DEADLOCK_FIELD in table && FAIL_FIELD in table
                         && COMP_FIELD in table && TIME_FIELD in table
    ensures r.Some? ==> |r.value| == 8 && r.value[0] == "../" + test && r.value[1] == seedText
                        && r.value[6] == "30" && r.value[7] == "50"
  {
    if DEADLOCK_FIELD in table && FAIL_FIELD in table && COMP_FIELD in table && TIME_FIELD in table then
      Some(["../" + test, seedText, Repr(table[DEADLOCK_FIELD]), Repr(table[FAIL_FIELD]),
            Repr(table[COMP_FIELD]), Repr(table[TIME_FIELD]), "30", "50"])
    else None
  }

  /** The line appended after the unit tests. */
  function UnitLine(status: int): string
  {
    if status != 0 then "UNITTEST: failed" else "UNITTEST: passed"
  }

  /** The unit-test line says "passed" exactly when the tests exited with 0. */
  lemma LemmaUnitLine(status: int)
    ensures UnitLine(status) == "UNITTEST: passed" <==> status == 0
    ensures UnitLine(status) == "UNITTEST: failed" <==> status != 0
  {
    var p, f := "UNITTEST: passed", "UNITTEST: failed";
    assert p[10] != f[10];
  }

  /** The runs from iteration i on, starting from `table` with the steps
      taken so far. */
  function RunFrom(test: string, seedTexts: seq<string>, results: seq<Option<string>>, status: int,
                   i: nat, table: Table, steps: seq<Step>): (r: (Outcome, seq<Step>))
    requires |seedTexts| == 2 && |results| == 2 && i <= 2
    ensures steps <= r.1 && |r.1| <= |steps| + (2 - i) + 2
    decreases 2 - i
  {
    if i == 2 then (Completed(table), steps + [RunUnitTests, AppendLine(UnitLine(status))])
    else
      match CommandLine(test, seedTexts[i], table)
      case None => (KeyErrorEscapes, steps)
      case Some(args) =>
        match ParseScoresSpec(results[i])
        case NameErrorEscapes => (ParseErrorEscapes, steps + [Invoke(args)])
        case Parsed(t) =>
          if TIME_FIELD in t then RunFrom(test, seedTexts, results, status, i + 1, t, steps + [Invoke(args)])
          else (KeyErrorEscapes, steps + [Invoke(args)])
  }

  /** What run_test does from iteration i on: it only ever invokes the
      benchmark, once per remaining seed at most, and it completes exactly
      when it has invoked it for every remaining seed and then run the unit
      tests and appended their line. */
  lemma {:induction false} LemmaRunFromShape(test: string, seedTexts: seq<string>, results: seq<Option<string>>,
                                             status: int, i: nat, table: Table, steps: seq<Step>)
    requires |seedTexts| == 2 && |results| == 2 && i <= 2
    ensures var r := RunFrom(test, seedTexts, results, status, i, table, steps);
      && (forall j :: |steps| <= j < |r.1| && j < |steps| + (2 - i) ==> r.1[j].Invoke?)
      && (r.0.Completed? <==> |r.1| == |steps| + (2 - i) + 2)
      && (r.0.Completed? ==> r.1[|r.1| - 2] == RunUnitTests && r.1[|r.1| - 1] == AppendLine(UnitLine(status)))
    decreases 2 - i
  {
    if i < 2 {
      var args := CommandLine(test, seedTexts[i], table);
      if args.Some? {
        var parsed := ParseScoresSpec(results[i]);
        if parsed.Parsed? && TIME_FIELD in parsed.table {
          var steps' := steps + [Invoke(args.value)];
          LemmaRunFromShape(test, seedTexts, results, status, i + 1, parsed.table, steps');
          var r' := RunFrom(test, seedTexts, results, status, i + 1, parsed.table, steps');
          assert RunFrom(test, seedTexts, results, status, i, table, steps) == r';
          assert steps' <= r'.1;
          assert r'.1[|steps|] == Invoke(args.value);
        }
      }
    }
  }

  /** The first run is given four zero counters. */
  lemma LemmaFirstCommand(test: string, seedText: string)
    ensures CommandLine(test, seedText, InitialTable())
            == Some(["../" + test, seedText, "0", "0", "0", "0", "30", "50"])
  {
    var t := InitialTable();
    assert Repr(PyInt(0)) == "0";
    assert t[DEADLOCK_FIELD] == PyInt(0) && t[FAIL_FIELD] == PyInt(0);
    assert t[COMP_FIELD] == PyInt(0) && t[TIME_FIELD] == PyInt(0);
  }

  /** The first step of run_test, when there is one, runs the benchmark on
      the first seed with zero counters. */
  lemma LemmaFirstStep(test: string, seedTexts: seq<string>, results: seq<Option<string>>, status: int)
    requires |seedTexts| == 2 && |results| == 2
    ensures var steps := RunFrom(test, seedTexts, results, status, 0, InitialTable(), []).1;
            steps != [] ==> steps[0] == Invoke(["../" + test, seedTexts[0], "0", "0", "0", "0", "30", "50"])
  {
    LemmaFirstCommand(test, seedTexts[0]);
  }

  /** run_test(test, seed). `found` says whether the test path exists;
      `seedTexts` are repr of the two seeds drawn from Python's random;
      `results[i]` is the contents of speed_test.results after run i (None
      when it cannot be opened); `status` is the exit status of the unit
      tests. */
  method RunTest(test: string, found: bool, seedTexts: seq<string>, results: seq<Option<string>>, status: int)
      returns (out: Outcome, steps: seq<Step>)
    requires |seedTexts| == 2 && |results| == 2
    ensures !found ==> out == Missing && steps == []
    ensures found ==> (out, steps) == RunFrom(test, seedTexts, results, status, 0, InitialTable(), [])
    ensures out.Completed? ==>
              |steps| == 4 && steps[0].Invoke? && steps[1].Invoke?
              && steps[2] == RunUnitTests && steps[3] == AppendLine(UnitLine(status))
    ensures found && steps != [] ==>
              steps[0] == Invoke(["../" + test, seedTexts[0], "0", "0", "0", "0", "30", "50"])
  {
    steps := [];
    if !found {
      return Missing, steps;
    }
    var table := InitialTable();
    LemmaFirstStep(test, seedTexts, results, status);
    LemmaRunFromShape(test, seedTexts, results, status, 0, table, []);
    for i := 0 to 2
      invariant RunFrom(test, seedTexts, results, status, i, table, steps)
                == RunFrom(test, seedTexts, results, status, 0, InitialTable(), [])
      invariant |steps| == i
    {
      var args := CommandLine(test, seedTexts[i], table);
      if args.None? {
        return KeyErrorEscapes, steps;
      }
      steps := steps + [Invoke(args.value)];
      var parsed := ParseScores(results[i]);
      if parsed.NameErrorEscapes? {
        return ParseErrorEscapes, steps;
      }
      table := parsed.table;
      if TIME_FIELD !in table {
        // print "time = " + repr(table["TIME"]) raises KeyError
        return KeyErrorEscapes, steps;
      }
    }
    steps := steps + [RunUnitTests, AppendLine(UnitLine(status))];
    out := Completed(table);
  }
}
