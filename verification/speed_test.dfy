/** tests/speed_test.c: the deterministic part of the benchmark driver. The
    random data is drawn once, from C's rand() after srand(seed), into
    per-thread arrays of random numbers; each thread then reads its own
    array through a counter (myrand). Keys, payloads, the kind of each test
    and the number of calls a test makes are all computed from those
    numbers. The answers of the index interface are given as parameters. */
module SpeedTest {
  import opened Wrappers
  import opened Bytes
  import opened Api
  import opened Text
  import KeyCodec

  /** The number of threads, and one more than the largest number of indices. */
  const MAX_NUM_INDICES: int := 50
  /** The largest SHORT and INT key values. */
  const MAX_SHORT_KEY: int := 0x7FFF_FFFF
  const MAX_INT_KEY: int := 0x7FFF_FFFF_FFFF_FFFF
  /** The largest value rand() returns (glibc). */
  const RAND_MAX: int := 0x7FFF_FFFF
  /** Random numbers set aside per populate insert: index, key and payload. */
  const DRAWS_PER_INSERT: int := 3
  /** Random numbers set aside per test: type, index, call count, 30 keys and a payload. */
  const DRAWS_PER_TEST: int := 3 + 30 + 1
  /** The most random numbers one of the three tests draws (a get test of 29 gets). */
  const TEST_DRAWS: int := 30

  /** A value rand() can return. */
  predicate IsRand(x: int)
  {
    0 <= x <= RAND_MAX
  }

  predicate IsLetter(c: byte)
  {
    65 <= c <= 90 || 97 <= c <= 122
  }

  /** The i-th character of "abc...zABC...Z", the alphabet of p_randStr. */
  function Letter(i: int): (c: byte)
    requires 0 <= i < 52
    ensures IsLetter(c)
    ensures i < 26 ==> c == 97 + i
    ensures 26 <= i ==> c == 65 + (i - 26)
  {
    if i < 26 then 97 + i else 65 + (i - 26)
  }

  /** strncpy(dst, src, n) into a zeroed buffer: the C string of src, cut to
      n bytes, with NUL padding up to n bytes. */
  function StrNCopy(src: seq<byte>, n: nat): (d: seq<byte>)
    ensures |d| == n
  {
    var c := CString(src);
    if |c| >= n then c[..n] else c + Zeros(n - |c|)
  }

  /** A string shorter than the buffer is copied whole, with its terminator. */
  lemma LemmaStrNCopy(src: seq<byte>, n: nat)
    requires StrLen(src) < n
    ensures CString(StrNCopy(src, n)) == CString(src) && StrLen(StrNCopy(src, n)) == StrLen(src)
  {
    var c := CString(src);
    KeyCodec.LemmaStrLenTerminated(c, n - |c|);
  }

  /** The key type `(KeyType)(rand() % 3)` names: the enumerators in order. */
  function TypeOfTag(tag: int): (k: KeyType)
    requires 0 <= tag < 3
    ensures !k.Unknown?
    ensures tag == 0 <==> k == Short
    ensures tag == 1 <==> k == Int
    ensures tag == 2 <==> k == Varchar
  {
    if tag == 0 then Short else if tag == 1 then Int else Varchar
  }

  /** The three transactional tests. */
  datatype TestKind = Scan | Get | Update

  /** The number of calls a test of the given kind plans, from its first draw. */
  function Planned(kind: TestKind, r: int): (n: nat)
    requires r >= 0
    ensures 1 <= n <= 200
  {
    match kind
    case Scan => ScanLength(r) + 1
    case Get => GetCount(r)
    case Update => 2 * UpdateRounds(r)
  }

  /** The test `test` runs for a drawn number r: one in ten a scan, three in
      ten a get, six in ten an update. */
  function KindOf(r: int): (k: TestKind)
    requires r >= 0
    ensures k == Scan <==> r % 10 == 0
    ensures k == Get <==> 1 <= r % 10 <= 3
    ensures k == Update <==> 4 <= r % 10
  {
    var testType := r % 10;
    if testType < 1 then Scan else if testType < 4 then Get else Update
  }

  /** K, the number of getNext calls a scan makes after its get. */
  function ScanLength(r: int): (n: int)
    requires r >= 0
    ensures 100 <= n <= 199
  {
    r % 100 + 100
  }

  /** L, the number of gets a get test makes. */
  function GetCount(r: int): (n: int)
    requires r >= 0
    ensures 20 <= n <= 29
  {
    r % 10 + 20
  }

  /** M, the number of insert-then-delete rounds an update test makes. */
  function UpdateRounds(r: int): (n: int)
    requires r >= 0
    ensures 5 <= n <= 9
  {
    r % 5 + 5
  }

  /** The code besides SUCCESS that a test accepts from its i-th call: a
      scan's get may find no key and its getNexts may reach the end; a get
      test's gets may find no key; an update test alternates inserts, which
      may find the entry already there, and deletes, which may find no key. */
  function Tolerated(kind: TestKind, i: nat): ErrCode
  {
    match kind
    case Scan => if i == 0 then KeyNotFound else DbEnd
    case Get => KeyNotFound
    case Update => if i % 2 == 0 then EntryExists else KeyNotFound
  }

  predicate Accepted(kind: TestKind, i: nat, r: ErrCode)
  {
    r == Success || r == Tolerated(kind, i)
  }

  /** What a test returns for a call result it does not accept. */
  function Verdict(r: ErrCode): ErrCode
  {
    if r == Deadlock then Deadlock else Failure
  }

  /** The result of call i. Methods read the answers through this function. */
  function Reply(replies: nat -> ErrCode, i: nat): ErrCode
  {
    replies(i)
  }

  /** The first n call results are all accepted. */
  predicate AllAccepted(kind: TestKind, replies: nat -> ErrCode, n: nat)
  {
    n == 0 || (AllAccepted(kind, replies, n - 1) && Accepted(kind, n - 1, replies(n - 1)))
  }

  /** One more accepted result extends the accepted prefix. */
  lemma LemmaAcceptedNext(kind: TestKind, replies: nat -> ErrCode, n: nat)
    requires AllAccepted(kind, replies, n) && Accepted(kind, n, replies(n))
    ensures AllAccepted(kind, replies, n + 1)
  {
  }

  lemma LemmaUpdateRoundReplies(replies: nat -> ErrCode, round: nat)
    requires AllAccepted(Update, replies, 2 * round)
    ensures Accepted(Update, 2 * round, Reply(replies, 2 * round)) ==> AllAccepted(Update, replies, 2 * round + 1)
    ensures Accepted(Update, 2 * round, Reply(replies, 2 * round)) && Accepted(Update, 2 * round + 1, Reply(replies, 2 * round + 1))
            ==> AllAccepted(Update, replies, 2 * round + 2)
  {
    if Accepted(Update, 2 * round, Reply(replies, 2 * round)) {
      LemmaAcceptedNext(Update, replies, 2 * round);
      if Accepted(Update, 2 * round + 1, Reply(replies, 2 * round + 1)) {
        LemmaAcceptedNext(Update, replies, 2 * round + 1);
      }
    }
  }

  /** The rule the three tests share: of the `planned` calls, the test makes
      them in order and stops at the first result it does not accept,
      returning DEADLOCK for a deadlock and FAILURE for anything else;
      SUCCESS when all planned calls were accepted. */
  predicate Settled(kind: TestKind, replies: nat -> ErrCode, planned: nat, calls: nat, ret: ErrCode)
  {
    && 0 < calls <= planned
    && AllAccepted(kind, replies, calls - 1)
    && (if ret == Success then calls == planned && Accepted(kind, calls - 1, replies(calls - 1))
        else !Accepted(kind, calls - 1, replies(calls - 1)) && ret == Verdict(replies(calls - 1)))
  }

  /** A test whose planned calls were all accepted is settled with SUCCESS. */
  lemma LemmaSettledAll(kind: TestKind, replies: nat -> ErrCode, planned: nat)
    requires planned > 0 && AllAccepted(kind, replies, planned)
    ensures Settled(kind, replies, planned, planned, Success)
  {
  }

  /** A test that stops at its first result it does not accept is settled
      with the verdict on that result. */
  lemma LemmaSettledStop(kind: TestKind, replies: nat -> ErrCode, planned: nat, calls: nat, ret: ErrCode)
    requires 0 < calls <= planned && AllAccepted(kind, replies, calls - 1)
    requires !Accepted(kind, calls - 1, Reply(replies, calls - 1)) && ret == Verdict(Reply(replies, calls - 1))
    ensures Settled(kind, replies, planned, calls, ret)
  {
  }

  lemma {:induction false} LemmaAllAccepted(kind: TestKind, replies: nat -> ErrCode, n: nat)
    ensures AllAccepted(kind, replies, n) <==> forall i: nat :: i < n ==> Accepted(kind, i, replies(i))
  {
    if n > 0 {
      LemmaAllAccepted(kind, replies, n - 1);
    }
  }

  /** A test succeeds exactly when all its planned calls are accepted. */
  lemma LemmaSettledSuccess(kind: TestKind, replies: nat -> ErrCode, planned: nat, calls: nat, ret: ErrCode)
    requires Settled(kind, replies, planned, calls, ret)
    ensures ret == Success <==> forall i: nat :: i < planned ==> Accepted(kind, i, replies(i))
  {
    LemmaAllAccepted(kind, replies, calls - 1);
    if ret == Success {
      assert AllAccepted(kind, replies, planned);
      LemmaAllAccepted(kind, replies, planned);
    } else {
      assert !Accepted(kind, calls - 1, replies(calls - 1));
    }
  }

  /** The call results decide how a test ends: the calls it makes and what it returns. */
  lemma LemmaSettledUnique(kind: TestKind, replies: nat -> ErrCode, planned: nat,
                           calls1: nat, ret1: ErrCode, calls2: nat, ret2: ErrCode)
    requires Settled(kind, replies, planned, calls1, ret1)
    requires Settled(kind, replies, planned, calls2, ret2)
    ensures calls1 == calls2 && ret1 == ret2
  {
    LemmaAllAccepted(kind, replies, calls1 - 1);
    LemmaAllAccepted(kind, replies, calls2 - 1);
  }

  /** The random numbers the update test draws: M, then a key and a payload
      before each insert and a key before each delete. */
  function UpdateDraws(calls: nat): nat
  {
    1 + 3 * (calls / 2) + 2 * (calls % 2)
  }

  /** The draws of an update test stay within the numbers set aside for it. */
  lemma LemmaUpdateDraws(calls: nat)
    requires calls <= 18
    ensures UpdateDraws(calls) <= 28
  {
  }

  /** The calls of an update test alternate: inserts at even positions,
      deletes at odd ones. */
  lemma LemmaParity(count: int)
    requires count >= 0
    ensures Tolerated(Update, 2 * count) == EntryExists
    ensures Tolerated(Update, 2 * count + 1) == KeyNotFound
    ensures UpdateDraws(2 * count) == 1 + 3 * count
    ensures UpdateDraws(2 * count + 1) == 3 + 3 * count
  {
    assert (2 * count) % 2 == 0 && (2 * count + 1) % 2 == 1;
    assert (2 * count) / 2 == count && (2 * count + 1) / 2 == count;
  }

  /** A key that generate_key can produce, whatever the random numbers. */
  predicate KeyInRange(k: Key)
  {
    match k.kind
    case Short => 1 <= ShortKey(k) as int <= MAX_SHORT_KEY - 1
    case Int => 1 <= IntKey(k) as int <= MAX_INT_KEY - 1
    case Varchar => StrLen(k.keyval) <= MAX_VARCHAR_LEN - 2
    case Unknown(_) => false
  }

  /** The answers the index interface gives during one test of the test
      thread: whether openIndex succeeded, how many beginTransaction
      attempts deadlocked before one that succeeded (`begun`) or failed
      otherwise, the results of the test's calls in order, and the result of
      the commit or abort that ends it. */
  datatype Round = Round(openOk: bool, beginDeadlocks: nat, begun: bool,
                         replies: nat -> ErrCode, finish: ErrCode)

  /** One line of the results file, `fprintf(results, "NAME: %i\n", v)`. */
  function ResultLine(name: string, v: int): string
  {
    name + ": " + Decimal(v) + "\n"
  }

  /** The results file main writes, one line per counter. */
  function ResultsText(deadlocks: int, fails: int, comps: int, time: int): string
  {
    ResultLine("NUM_DEADLOCK", deadlocks) + ResultLine("NUM_TXN_FAIL", fails) +
    ResultLine("NUM_TXN_COMP", comps) + ResultLine("TIME", time)
  }

  /** Increments of the three shared counters. */
  datatype Counts = Counts(deadlocks: nat, fails: nat, comps: nat)

  function Plus(a: Counts, b: Counts): Counts
  {
    Counts(a.deadlocks + b.deadlocks, a.fails + b.fails, a.comps + b.comps)
  }

  /** What a transactional test counted itself before returning `ret`. */
  function TestCounts(ret: ErrCode): Counts
  {
    if ret == Success then Counts(0, 0, 0)
    else if ret == Deadlock then Counts(1, 0, 0)
    else Counts(0, 1, 0)
  }

  /** What ending the transaction counts: a completed transaction when the
      test succeeded and the commit went through, a deadlock or a failure
      when the commit or abort did not succeed, nothing for a clean abort. */
  function FinishCounts(ret: ErrCode, finish: ErrCode): Counts
  {
    if finish == Success then Counts(0, 0, if ret == Success then 1 else 0)
    else if finish == Deadlock then Counts(1, 0, 0)
    else Counts(0, 1, 0)
  }

  /** The counters one test of a test thread moves, given the interface's
      answers and `ret`, the result of the transactional test (which only
      matters when the index opened and the transaction began). */
  function Tally(round: Round, ret: ErrCode): (c: Counts)
    ensures c.comps <= 1
    ensures c.deadlocks + c.fails + c.comps >= 1
    ensures c.comps == 1 <==> round.openOk && round.begun && ret == Success && round.finish == Success
  {
    if !round.openOk then Counts(0, 1, 0)
    else if !round.begun then Counts(round.beginDeadlocks, 1, 0)
    else Plus(Counts(round.beginDeadlocks, 0, 0), Plus(TestCounts(ret), FinishCounts(ret, round.finish)))
  }

  /** The counters the tests of a thread move, test i answered by rounds(i)
      and ending with rets[i]. */
  function Total(rounds: nat -> Round, rets: seq<ErrCode>): Counts
  {
    if rets == [] then Counts(0, 0, 0)
    else Plus(Total(rounds, rets[..|rets| - 1]), Tally(rounds(|rets| - 1), rets[|rets| - 1]))
  }

  /** Every test of a thread is accounted for, by a completed transaction or
      by at least one deadlock or failure, and none completes more than one
      transaction. */
  lemma {:induction false} LemmaTotalBounds(rounds: nat -> Round, rets: seq<ErrCode>)
    ensures Total(rounds, rets).comps <= |rets|
    ensures Total(rounds, rets).deadlocks + Total(rounds, rets).fails + Total(rounds, rets).comps >= |rets|
  {
    if rets != [] {
      LemmaTotalBounds(rounds, rets[..|rets| - 1]);
    }
  }

  /** The number of the first n populate inserts whose openIndex succeeds. */
  function OpenedCount(openOk: nat -> bool, n: nat): (k: nat)
    ensures k <= n
  {
    if n == 0 then 0 else OpenedCount(openOk, n - 1) + (if openOk(n - 1) then 1 else 0)
  }

  /** The deadlocks the first n populate inserts count: an insert into an
      opened index is retried after each of its deadlocks. */
  function PopulateDeadlocks(openOk: nat -> bool, insertDeadlocks: nat -> nat, n: nat): nat
  {
    if n == 0 then 0
    else PopulateDeadlocks(openOk, insertDeadlocks, n - 1) + (if openOk(n - 1) then insertDeadlocks(n - 1) else 0)
  }

  /** A record a populate thread inserts, and the index it goes into. */
  datatype Insert = Insert(index: int, key: Key, payload: seq<byte>)

  /** The answers of the interface and of the clock for a whole run: for
      thread t, whether its i-th populate openIndex succeeds, how many times
      that insert deadlocks before it returns something else, the answers to
      its i-th test, and the milliseconds the run takes. */
  datatype Behaviour = Behaviour(openOk: int -> nat -> bool, insertDeadlocks: int -> nat -> nat,
                                 rounds: int -> nat -> Round, elapsed: int)

  /** The deadlocks the populate inserts of the first `threads` threads count. */
  function PopulateTotal(b: Behaviour, pop: nat, threads: nat): nat
  {
    if threads == 0 then 0
    else PopulateTotal(b, pop, threads - 1) + PopulateDeadlocks(b.openOk(threads - 1), b.insertDeadlocks(threads - 1), pop)
  }

  /** The counters the tests of the threads move, thread t's tests ending with rets[t]. */
  function ThreadsTotal(b: Behaviour, rets: seq<seq<ErrCode>>): Counts
  {
    if rets == [] then Counts(0, 0, 0)
    else Plus(ThreadsTotal(b, rets[..|rets| - 1]), Total(b.rounds(|rets| - 1), rets[|rets| - 1]))
  }

  /** Over all threads, every test is accounted for by a completed
      transaction or by a deadlock or a failure, and at most one transaction
      completes per test. */
  lemma {:induction false} LemmaThreadsTotalBounds(b: Behaviour, rets: seq<seq<ErrCode>>, tests: nat)
    requires forall t :: 0 <= t < |rets| ==> |rets[t]| == tests
    ensures ThreadsTotal(b, rets).comps <= |rets| * tests
    ensures ThreadsTotal(b, rets).deadlocks + ThreadsTotal(b, rets).fails + ThreadsTotal(b, rets).comps >= |rets| * tests
  {
    if rets != [] {
      var n := |rets|;
      var init := rets[..n - 1];
      assert |init| == n - 1;
      assert forall t :: 0 <= t < |init| ==> |init[t]| == tests;
      LemmaThreadsTotalBounds(b, init, tests);
      var prev, last := ThreadsTotal(b, init), Total(b.rounds(n - 1), rets[n - 1]);
      LemmaTotalBounds(b.rounds(n - 1), rets[n - 1]);
      LemmaStepBounds(n, tests, prev.comps, last.comps, prev.deadlocks + prev.fails + prev.comps,
                      last.deadlocks + last.fails + last.comps);
    }
  }

  /** One more thread of `tests` tests adds at most, and at least, `tests`. */
  lemma LemmaStepBounds(n: int, tests: int, a: int, b: int, c: int, d: int)
    requires a <= (n - 1) * tests && b <= tests
    requires c >= (n - 1) * tests && d >= tests
    ensures a + b <= n * tests && c + d >= n * tests
  {
    LemmaMulSub(n, 1, tests);
  }

  /** srand takes an unsigned int: the seed modulo 2^32. */
  function UnsignedSeed(seed: int): nat
  {
    seed % 0x1_0000_0000
  }

  /** The C library's generator after srand(seed): `draw` is the sequence
      rand() returns for that seed, `drawn` the number of calls made. */
  class Rng {
    const draw: nat -> int
    var drawn: nat

    constructor (draw: nat -> int)
      ensures this.draw == draw && drawn == 0
    {
      this.draw := draw;
      drawn := 0;
    }

    /** rand() returns values in [0, RAND_MAX]. */
    ghost predicate Valid()
    {
      forall i: nat :: IsRand(draw(i))
    }

    /** rand(). */
    method Rand() returns (r: int)
      requires Valid()
      modifies this
      ensures r == draw(old(drawn)) && IsRand(r)
      ensures drawn == old(drawn) + 1
    {
      r := draw(drawn);
      drawn := drawn + 1;
    }

    /** p_randStr(size): a buffer of `size` bytes holding rand() % (size - 1)
        letters, each picked by one more rand(), and a NUL after them. */
    method RandStr(size: int) returns (dst: array<byte>)
      requires size >= 2 && Valid()
      modifies this
      ensures fresh(dst) && dst.Length == size
      ensures var len := draw(old(drawn)) % (size - 1);
              && drawn == old(drawn) + 1 + len
              && dst[len] == 0
              && (forall i :: 0 <= i < len ==> dst[i] == Letter(draw(old(drawn) + 1 + i) % 52))
      ensures StrLen(dst[..]) <= size - 2
      ensures forall i :: 0 <= i < StrLen(dst[..]) ==> IsLetter(dst[i])
    {
      dst := new byte[size];
      var start := drawn;
      var r := Rand();
      var len := r % (size - 1);
      var i := 0;
      while i < len
        invariant 0 <= i <= len && drawn == start + 1 + i
        invariant forall j :: 0 <= j < i ==> dst[j] == Letter(draw(start + 1 + j) % 52)
      {
        var c := Rand();
        dst[i] := Letter(c % 52);
        i := i + 1;
      }
      dst[i] := 0;
      assert forall j :: 0 <= j < len ==> dst[..][j] != 0;
    }

    /** The first part of initialize, right after srand: a trashed rand(),
        the number of indices drawn twice, and one type per index. */
    method DrawIndices() returns (n: int, types: seq<KeyType>)
      requires Valid() && drawn == 0
      modifies this
      ensures 1 <= n < MAX_NUM_INDICES && n == draw(2) % (MAX_NUM_INDICES - 1) + 1
      ensures |types| == n
      ensures forall i :: 0 <= i < n ==> types[i] == TypeOfTag(draw(3 + i) % 3)
    {
      var trash := Rand();
      var r := Rand();
      r := Rand();
      n := r % (MAX_NUM_INDICES - 1) + 1;
      types := FillTypes(n);
    }

    /** The rest of initialize: the per-thread seeds (drawn, never read),
        the shared key and payload arrays and each thread's random numbers. */
    method DrawData(pop: int, tests: int)
        returns (shorts: seq<int>, ints: seq<int>, strs: seq<seq<byte>>, pays: seq<seq<byte>>,
                 arrays: seq<seq<int>>)
      requires Valid() && pop >= 1 && tests >= 0
      modifies this
      ensures |shorts| == |ints| == |strs| == |pays| == MAX_NUM_INDICES * pop
      ensures forall i :: 0 <= i < |shorts| ==> IsRand(shorts[i]) && IsRand(ints[i])
      ensures forall i :: 0 <= i < |strs| ==> StrLen(strs[i]) <= MAX_VARCHAR_LEN - 2
      ensures forall i :: 0 <= i < |pays| ==> StrLen(pays[i]) <= MAX_PAYLOAD_LEN - 3
      ensures |arrays| == MAX_NUM_INDICES
      ensures forall t :: 0 <= t < MAX_NUM_INDICES ==> |arrays[t]| == pop * DRAWS_PER_INSERT + tests * DRAWS_PER_TEST
      ensures forall t, j :: 0 <= t < MAX_NUM_INDICES && 0 <= j < |arrays[t]| ==> IsRand(arrays[t][j])
    {
      var seeds := FillRand(MAX_NUM_INDICES);
      var slots := MAX_NUM_INDICES * pop;
      shorts := FillRand(slots);
      ints := FillRand(slots);
      strs := FillStrings(slots, MAX_VARCHAR_LEN);
      pays := FillStrings(slots, MAX_PAYLOAD_LEN - 1);
      arrays := FillArrays(pop * DRAWS_PER_INSERT + tests * DRAWS_PER_TEST);
    }

    /** The index types: one rand() % 3 per index. */
    method FillTypes(n: int) returns (types: seq<KeyType>)
      requires Valid() && n >= 0
      modifies this
      ensures |types| == n && drawn == old(drawn) + n
      ensures forall i :: 0 <= i < n ==> types[i] == TypeOfTag(draw(old(drawn) + i) % 3)
    {
      types := [];
      for i := 0 to n
        invariant drawn == old(drawn) + i && |types| == i
        invariant forall j :: 0 <= j < i ==> types[j] == TypeOfTag(draw(old(drawn) + j) % 3)
      {
        var r := Rand();
        types := types + [TypeOfTag(r % 3)];
      }
    }

    /** Each thread's array of `n` random numbers, thread by thread. */
    method FillArrays(n: int) returns (arrays: seq<seq<int>>)
      requires Valid() && n >= 0
      modifies this
      ensures |arrays| == MAX_NUM_INDICES
      ensures forall t :: 0 <= t < MAX_NUM_INDICES ==> |arrays[t]| == n
      ensures forall t, j :: 0 <= t < MAX_NUM_INDICES && 0 <= j < |arrays[t]| ==> IsRand(arrays[t][j])
    {
      arrays := [];
      for t := 0 to MAX_NUM_INDICES
        invariant |arrays| == t
        invariant forall u :: 0 <= u < t ==> |arrays[u]| == n
        invariant forall u, j :: 0 <= u < t && 0 <= j < |arrays[u]| ==> IsRand(arrays[u][j])
      {
        var a := FillRand(n);
        arrays := arrays + [a];
      }
    }

    /** `n` successive rand() values, as the counted loops of initialize store them. */
    method FillRand(n: int) returns (s: seq<int>)
      requires Valid() && n >= 0
      modifies this
      ensures |s| == n && drawn == old(drawn) + n
      ensures forall i :: 0 <= i < n ==> s[i] == draw(old(drawn) + i)
      ensures forall i :: 0 <= i < n ==> IsRand(s[i])
    {
      s := [];
      for i := 0 to n
        invariant |s| == i && drawn == old(drawn) + i
        invariant forall j :: 0 <= j < i ==> s[j] == draw(old(drawn) + j)
      {
        var r := Rand();
        s := s + [r];
      }
    }

    /** `n` strings from p_randStr(size), each at most size - 2 letters long. */
    method FillStrings(n: int, size: int) returns (s: seq<seq<byte>>)
      requires Valid() && n >= 0 && size >= 2
      modifies this
      ensures |s| == n
      ensures forall i :: 0 <= i < n ==> |s[i]| == size && StrLen(s[i]) <= size - 2
    {
      s := [];
      for i := 0 to n
        invariant |s| == i
        invariant forall j :: 0 <= j < i ==> |s[j]| == size && StrLen(s[j]) <= size - 2
      {
        var dst := RandStr(size);
        s := s + [dst[..]];
      }
    }
  }

  /** The benchmark's global state. What initialize draws is fixed once it
      has run, so those globals are constants set by the constructor; the
      per-thread counters and the four totals change afterwards. */
  class Benchmark {
    const numPopInserts: int
    const numTestsPerThread: int
    const nIndices: int
    const indexTypes: seq<KeyType>
    const shortKeys: seq<int>
    const intKeys: seq<int>
    const strKeys: seq<seq<byte>>
    const payloads: seq<seq<byte>>
    const randNumArrays: seq<seq<int>>
    const randNumCounter: array<int>

    var numDeadlock: int
    var numTxnFail: int
    var numTxnComp: int
    var globalTime: int

    /** main's assignments of the two sizes and the four totals, then
        initialize, drawing from `rng` right after srand: the number of
        indices and their types, the shared key and payload arrays and each
        thread's random numbers, with every thread's counter at zero. */
    constructor (rng: Rng, pop: int, tests: int, deadlocks: int, fails: int, comps: int, time: int)
      requires rng.Valid() && rng.drawn == 0 && pop >= 1 && tests >= 0
      modifies rng
      ensures Ready() && fresh(randNumCounter)
      ensures numPopInserts == pop && numTestsPerThread == tests
      ensures nIndices == rng.draw(2) % (MAX_NUM_INDICES - 1) + 1
      ensures forall i :: 0 <= i < nIndices ==> indexTypes[i] == TypeOfTag(rng.draw(3 + i) % 3)
      ensures forall t :: 0 <= t < MAX_NUM_INDICES ==> randNumCounter[t] == 0
      ensures numDeadlock == deadlocks && numTxnFail == fails
      ensures numTxnComp == comps && globalTime == time
    {
      numPopInserts, numTestsPerThread := pop, tests;
      numDeadlock, numTxnFail, numTxnComp, globalTime := deadlocks, fails, comps, time;
      var n, types := rng.DrawIndices();
      var shorts, ints, strs, pays, arrays := rng.DrawData(pop, tests);
      nIndices, indexTypes := n, types;
      shortKeys, intKeys, strKeys, payloads := shorts, ints, strs, pays;
      randNumArrays := arrays;
      randNumCounter := new int[MAX_NUM_INDICES](_ => 0);
    }

    /** The size of the shared key and payload arrays. */
    function Slots(): int
    {
      MAX_NUM_INDICES * numPopInserts
    }

    /** The random numbers set aside for each thread. */
    function NumRandNums(): int
    {
      numPopInserts * DRAWS_PER_INSERT + numTestsPerThread * DRAWS_PER_TEST
    }

    /** What initialize establishes. */
    predicate Ready()
    {
      IndicesReady() && SlotsReady() && ThreadsReady()
    }

    /** Between 1 and 49 indices, each of a known type. */
    predicate IndicesReady()
    {
      && 1 <= nIndices < MAX_NUM_INDICES
      && |indexTypes| == nIndices
      && (forall i :: 0 <= i < nIndices ==> !indexTypes[i].Unknown?)
    }

    /** The shared key and payload arrays, one slot per populate insert of
        every thread: rand() values and p_randStr strings. */
    predicate SlotsReady()
    {
      && numPopInserts >= 1
      && |shortKeys| == Slots() && |intKeys| == Slots()
      && |strKeys| == Slots() && |payloads| == Slots()
      && (forall i :: 0 <= i < Slots() ==> IsRand(shortKeys[i]))
      && (forall i :: 0 <= i < Slots() ==> IsRand(intKeys[i]))
      && (forall i :: 0 <= i < Slots() ==> StrLen(strKeys[i]) <= MAX_VARCHAR_LEN - 2)
      && (forall i :: 0 <= i < Slots() ==> StrLen(payloads[i]) <= MAX_PAYLOAD_LEN - 3)
    }

    /** Each thread's random numbers and its counter. */
    predicate ThreadsReady()
    {
      && numPopInserts >= 1 && numTestsPerThread >= 0
      && |randNumArrays| == MAX_NUM_INDICES
      && (forall t :: 0 <= t < MAX_NUM_INDICES ==> |randNumArrays[t]| == NumRandNums())
      && (forall t, j :: 0 <= t < MAX_NUM_INDICES && 0 <= j < |randNumArrays[t]| ==> IsRand(randNumArrays[t][j]))
      && randNumCounter.Length == MAX_NUM_INDICES
    }

    /** The number thread t's next myrand returns. */
    function NextRand(t: int): int
      requires Ready() && 0 <= t < MAX_NUM_INDICES && 0 <= randNumCounter[t] < |randNumArrays[t]|
      reads randNumCounter
    {
      randNumArrays[t][randNumCounter[t]]
    }

    /** A record populate can insert: into one of the indices, with a key of
        that index's type that generate_key can produce and a payload
        generate_payload can produce. */
    predicate Insertable(e: Insert)
    {
      && 0 <= e.index < nIndices && e.index < |indexTypes|
      && e.key.kind == indexTypes[e.index] && KeyInRange(e.key)
      && |e.payload| == MAX_PAYLOAD_LEN + 1 && StrLen(e.payload) <= MAX_PAYLOAD_LEN - 3
    }
    /** myrand(t): the next number of thread t's array; only t's counter moves. */
    method MyRand(t: int) returns (r: int)
      requires Ready() && 0 <= t < MAX_NUM_INDICES && 0 <= randNumCounter[t] < |randNumArrays[t]|
      modifies randNumCounter
      ensures r == old(NextRand(t)) && IsRand(r)
      ensures randNumCounter[t] == old(randNumCounter[t]) + 1
      ensures forall u :: 0 <= u < MAX_NUM_INDICES && u != t ==> randNumCounter[u] == old(randNumCounter[u])
    {
      var counter := randNumCounter[t];
      randNumCounter[t] := counter + 1;
      r := randNumArrays[t][counter];
    }

    /** The key generate_key writes into a zeroed key of type `kind` when
        the thread's number is r. Its switch has no default, so a key of an
        unknown type stays zero. */
    function KeyFrom(kind: KeyType, r: int): Key
      requires SlotsReady()
    {
      var zero := Key(kind, Zeros(MAX_VARCHAR_LEN + 1));
      match kind
      case Short => WithShortKey(zero, (shortKeys[r % Slots()] % (MAX_SHORT_KEY - 1) + 1) as int32)
      case Int =>
        var j := r % (Slots() - 1);
        WithIntKey(zero, ((intKeys[j] * 0x1_0000_0000 + intKeys[j + 1]) % (MAX_INT_KEY - 1) + 1) as int64)
      case Varchar => zero.(keyval := StrNCopy(strKeys[r % Slots()], MAX_VARCHAR_LEN + 1))
      case Unknown(_) => zero
    }

    /** The keys generate_key builds have the index's type and lie in the
        ranges the benchmark draws from: a SHORT key is the slot's number
        reduced into [1, MAX_SHORT_KEY - 1], an INT key joins the slot's
        number and the next one as the high and low 32 bits and reduces the
        result into [1, MAX_INT_KEY - 1], and a VARCHAR key is the slot's
        string, short enough to leave its NUL in the buffer. */
    lemma LemmaKeyFrom(kind: KeyType, r: int)
      requires SlotsReady() && !kind.Unknown?
      ensures var k := KeyFrom(kind, r);
              && k.kind == kind && KeyInRange(k)
              && (kind == Short ==> ShortKey(k) as int == shortKeys[r % Slots()] % (MAX_SHORT_KEY - 1) + 1)
              && (kind == Int ==>
                    var j := r % (Slots() - 1);
                    IntKey(k) as int == (intKeys[j] * 0x1_0000_0000 + intKeys[j + 1]) % (MAX_INT_KEY - 1) + 1)
              && (kind == Varchar ==> CString(k.keyval) == CString(strKeys[r % Slots()]))
    {
      var zero := Key(kind, Zeros(MAX_VARCHAR_LEN + 1));
      match kind
      case Short =>
        var v := (shortKeys[r % Slots()] % (MAX_SHORT_KEY - 1) + 1) as int32;
        assert KeyFrom(kind, r) == WithShortKey(zero, v);
        LemmaWithShortKey(zero, v);
      case Int =>
        var j := r % (Slots() - 1);
        var v := ((intKeys[j] * 0x1_0000_0000 + intKeys[j + 1]) % (MAX_INT_KEY - 1) + 1) as int64;
        assert KeyFrom(kind, r) == WithIntKey(zero, v);
        LemmaWithIntKey(zero, v);
      case Varchar =>
        var src := strKeys[r % Slots()];
        assert KeyFrom(kind, r).keyval == StrNCopy(src, MAX_VARCHAR_LEN + 1);
        LemmaStrNCopy(src, MAX_VARCHAR_LEN + 1);
    }

    /** generate_key(key, t) on a zeroed key of the given type: one number
        of thread t picks a slot of the shared arrays; a SHORT key is that
        slot's number reduced into [1, MAX_SHORT_KEY - 1], an INT key joins
        that slot's number and the next one as the high and low 32 bits and
        reduces the result into [1, MAX_INT_KEY - 1], and a VARCHAR key
        copies that slot's string. */
    method GenerateKey(kind: KeyType, t: int) returns (k: Key)
      requires Ready() && 0 <= t < MAX_NUM_INDICES && 0 <= randNumCounter[t] < |randNumArrays[t]|
      requires !kind.Unknown?
      modifies randNumCounter
      ensures randNumCounter[t] == old(randNumCounter[t]) + 1
      ensures forall u :: 0 <= u < MAX_NUM_INDICES && u != t ==> randNumCounter[u] == old(randNumCounter[u])
      ensures k == KeyFrom(kind, old(NextRand(t)))
    {
      var index := MyRand(t);
      k := Key(kind, Zeros(MAX_VARCHAR_LEN + 1));
      match kind
      case Short =>
        index := index % Slots();
        k := WithShortKey(k, (shortKeys[index] % (MAX_SHORT_KEY - 1) + 1) as int32);
      case Int =>
        index := index % (Slots() - 1);
        // the high word shifted left by 32 has zero low bits, so ORing in
        // the low word (below 2^31) adds it
        var joined := intKeys[index] * 0x1_0000_0000 + intKeys[index + 1];
        k := WithIntKey(k, (joined % (MAX_INT_KEY - 1) + 1) as int64);
      case Varchar =>
        index := index % Slots();
        LemmaStrNCopy(strKeys[index], MAX_VARCHAR_LEN + 1);
        k := k.(keyval := StrNCopy(strKeys[index], MAX_VARCHAR_LEN + 1));
    }

    /** generate_payload(dst, t): one number of thread t picks a slot of the
        shared payload array, which is copied into the zeroed buffer. */
    method GeneratePayload(t: int) returns (p: seq<byte>)
      requires Ready() && 0 <= t < MAX_NUM_INDICES && 0 <= randNumCounter[t] < |randNumArrays[t]|
      modifies randNumCounter
      ensures randNumCounter[t] == old(randNumCounter[t]) + 1
      ensures forall u :: 0 <= u < MAX_NUM_INDICES && u != t ==> randNumCounter[u] == old(randNumCounter[u])
      ensures p == StrNCopy(payloads[old(NextRand(t)) % Slots()], MAX_PAYLOAD_LEN + 1)
      ensures |p| == MAX_PAYLOAD_LEN + 1 && StrLen(p) <= MAX_PAYLOAD_LEN - 3
    {
      var r := MyRand(t);
      var randNum := r % Slots();
      LemmaStrNCopy(payloads[randNum], MAX_PAYLOAD_LEN + 1);
      p := StrNCopy(payloads[randNum], MAX_PAYLOAD_LEN + 1);
    }

    /** The bookkeeping after a call result a test does not accept: a
        deadlock is counted as one and the test returns DEADLOCK, anything
        else counts as a failed transaction and the test returns FAILURE. */
    method CountFailedCall(reply: ErrCode) returns (ret: ErrCode)
      modifies this`numDeadlock, this`numTxnFail
      ensures ret == Verdict(reply)
      ensures numDeadlock == old(numDeadlock) + (if reply == Deadlock then 1 else 0)
      ensures numTxnFail == old(numTxnFail) + (if reply == Deadlock then 0 else 1)
    {
      if reply == Deadlock {
        numDeadlock := numDeadlock + 1;
        ret := Deadlock;
      } else {
        numTxnFail := numTxnFail + 1;
        ret := Failure;
      }
    }

    /** How every test ends: SUCCESS when all `planned` calls were
        accepted, otherwise the bookkeeping of the last call's result. */
    method Conclude(kind: TestKind, replies: nat -> ErrCode, planned: nat, calls: nat, ok: bool) returns (ret: ErrCode)
      requires 0 < calls <= planned
      requires ok ==> calls == planned && AllAccepted(kind, replies, calls)
      requires !ok ==> AllAccepted(kind, replies, calls - 1) && !Accepted(kind, calls - 1, Reply(replies, calls - 1))
      modifies this`numDeadlock, this`numTxnFail
      ensures Settled(kind, replies, planned, calls, ret)
      ensures numDeadlock == old(numDeadlock) + (if ret == Deadlock then 1 else 0)
      ensures numTxnFail == old(numTxnFail) + (if ret == Failure then 1 else 0)
    {
      if ok {
        LemmaSettledAll(kind, replies, calls);
        ret := Success;
      } else {
        ret := CountFailedCall(Reply(replies, calls - 1));
        LemmaSettledStop(kind, replies, planned, calls, ret);
      }
    }

    /** scan_test: K getNext calls after a get of a generated key. */
    method ScanTest(t: int, indexNum: int, replies: nat -> ErrCode) returns (ret: ErrCode, calls: nat)
      requires Ready() && 0 <= t < MAX_NUM_INDICES && 0 <= indexNum < nIndices
      requires 0 <= randNumCounter[t] && randNumCounter[t] + TEST_DRAWS <= |randNumArrays[t]|
      modifies randNumCounter, this`numDeadlock, this`numTxnFail
      ensures randNumCounter[t] == old(randNumCounter[t]) + 2
      ensures forall u :: 0 <= u < MAX_NUM_INDICES && u != t ==> randNumCounter[u] == old(randNumCounter[u])
      ensures Settled(Scan, replies, ScanLength(old(NextRand(t))) + 1, calls, ret)
      ensures numDeadlock == old(numDeadlock) + (if ret == Deadlock then 1 else 0)
      ensures numTxnFail == old(numTxnFail) + (if ret == Failure then 1 else 0)
    {
      var r := MyRand(t);
      var k := ScanLength(r);
      var key := GenerateKey(indexTypes[indexNum], t);
      var reply := Reply(replies, 0);  // get
      calls := 1;
      var count := 0;
      while count < k && Accepted(Scan, calls - 1, reply)
        modifies {}
        invariant 0 <= count <= k && calls == count + 1
        invariant AllAccepted(Scan, replies, calls - 1) && reply == Reply(replies, calls - 1)
      {
        LemmaAcceptedNext(Scan, replies, calls - 1);
        count := count + 1;
        reply := Reply(replies, calls);  // getNext
        calls := calls + 1;
      }
      var ok := Accepted(Scan, calls - 1, reply);
      if ok {
        LemmaAcceptedNext(Scan, replies, calls - 1);
      }
      ret := Conclude(Scan, replies, k + 1, calls, ok);
    }

    /** get_test: L gets, each of a freshly generated key. */
    method GetTest(t: int, indexNum: int, replies: nat -> ErrCode) returns (ret: ErrCode, calls: nat)
      requires Ready() && 0 <= t < MAX_NUM_INDICES && 0 <= indexNum < nIndices
      requires 0 <= randNumCounter[t] && randNumCounter[t] + TEST_DRAWS <= |randNumArrays[t]|
      modifies randNumCounter, this`numDeadlock, this`numTxnFail
      ensures randNumCounter[t] == old(randNumCounter[t]) + 1 + calls
      ensures forall u :: 0 <= u < MAX_NUM_INDICES && u != t ==> randNumCounter[u] == old(randNumCounter[u])
      ensures Settled(Get, replies, GetCount(old(NextRand(t))), calls, ret)
      ensures numDeadlock == old(numDeadlock) + (if ret == Deadlock then 1 else 0)
      ensures numTxnFail == old(numTxnFail) + (if ret == Failure then 1 else 0)
    {
      var start := randNumCounter[t];
      var r := MyRand(t);
      var l := GetCount(r);
      calls := 0;
      var ok := true;
      var count := 0;
      while count < l
        modifies randNumCounter
        invariant 0 <= count <= l && calls == count && ok
        invariant randNumCounter[t] == start + 1 + count
        invariant forall u :: 0 <= u < MAX_NUM_INDICES && u != t ==> randNumCounter[u] == old(randNumCounter[u])
        invariant AllAccepted(Get, replies, calls)
      {
        count := count + 1;
        var key := GenerateKey(indexTypes[indexNum], t);
        calls := calls + 1;
        ok := Accepted(Get, calls - 1, Reply(replies, calls - 1));  // get
        if !ok {
          break;
        }
        LemmaAcceptedNext(Get, replies, calls - 1);
      }
      ret := Conclude(Get, replies, l, calls, ok);
    }

    /** update_test: M rounds of inserting a generated key and payload and
        deleting every entry under another generated key. */
    method UpdateTest(t: int, indexNum: int, replies: nat -> ErrCode) returns (ret: ErrCode, calls: nat)
      requires Ready() && 0 <= t < MAX_NUM_INDICES && 0 <= indexNum < nIndices
      requires 0 <= randNumCounter[t] && randNumCounter[t] + TEST_DRAWS <= |randNumArrays[t]|
      modifies randNumCounter, this`numDeadlock, this`numTxnFail
      ensures randNumCounter[t] == old(randNumCounter[t]) + UpdateDraws(calls)
      ensures forall u :: 0 <= u < MAX_NUM_INDICES && u != t ==> randNumCounter[u] == old(randNumCounter[u])
      ensures Settled(Update, replies, 2 * UpdateRounds(old(NextRand(t))), calls, ret)
      ensures numDeadlock == old(numDeadlock) + (if ret == Deadlock then 1 else 0)
      ensures numTxnFail == old(numTxnFail) + (if ret == Failure then 1 else 0)
    {
      var start := randNumCounter[t];
      var r := MyRand(t);
      var m := UpdateRounds(r);
      calls := 0;
      var ok := true;
      var count := 0;
      while count < m
        modifies randNumCounter
        invariant 0 <= count <= m && calls == 2 * count && ok
        invariant randNumCounter[t] == start + 1 + 3 * count
        invariant forall u :: 0 <= u < MAX_NUM_INDICES && u != t ==> randNumCounter[u] == old(randNumCounter[u])
        invariant AllAccepted(Update, replies, calls)
      {
        LemmaParity(count);
        var last;
        last, ok := UpdateRound(t, indexNum, replies, count);
        calls := last + 1;
        if !ok {
          break;
        }
        count := count + 1;
      }
      ret := Conclude(Update, replies, 2 * m, calls, ok);
    }

    /** Round `round` (from zero) of update_test, whose insert is call
        2 * round: a key and a payload for the insert, then, when the insert
        is accepted, a key for the delete. Returns the position of the
        round's last call and whether the round's calls were all accepted. */
    method UpdateRound(t: int, indexNum: int, replies: nat -> ErrCode, round: nat) returns (last: nat, ok: bool)
      requires Ready() && 0 <= t < MAX_NUM_INDICES && 0 <= indexNum < nIndices
      requires 0 <= randNumCounter[t] && randNumCounter[t] + 3 <= |randNumArrays[t]|
      requires AllAccepted(Update, replies, 2 * round)
      modifies randNumCounter
      ensures last == 2 * round || last == 2 * round + 1
      ensures randNumCounter[t] == old(randNumCounter[t]) + (last - 2 * round) + 2
      ensures forall u :: 0 <= u < MAX_NUM_INDICES && u != t ==> randNumCounter[u] == old(randNumCounter[u])
      ensures ok ==> last == 2 * round + 1 && AllAccepted(Update, replies, last + 1)
      ensures !ok ==> AllAccepted(Update, replies, last) && !Accepted(Update, last, Reply(replies, last))
    {
      var at := 2 * round;
      LemmaParity(round);
      LemmaUpdateRoundReplies(replies, round);
      var key := GenerateKey(indexTypes[indexNum], t);
      var payload := GeneratePayload(t);
      if !Accepted(Update, at, Reply(replies, at)) {  // insertRecord
        return at, false;
      }
      var doomed := GenerateKey(indexTypes[indexNum], t);
      last := at + 1;
      ok := Accepted(Update, at + 1, Reply(replies, at + 1));  // deleteRecord
    }

    /** The test of the drawn kind, run on index indexNum. */
    method RunKind(kind: TestKind, t: int, indexNum: int, replies: nat -> ErrCode) returns (ret: ErrCode, calls: nat)
      requires Ready() && 0 <= t < MAX_NUM_INDICES && 0 <= indexNum < nIndices
      requires 0 <= randNumCounter[t] && randNumCounter[t] + TEST_DRAWS <= |randNumArrays[t]|
      modifies randNumCounter, this`numDeadlock, this`numTxnFail
      ensures old(randNumCounter[t]) < randNumCounter[t] <= old(randNumCounter[t]) + TEST_DRAWS
      ensures forall u :: 0 <= u < MAX_NUM_INDICES && u != t ==> randNumCounter[u] == old(randNumCounter[u])
      ensures Settled(kind, replies, Planned(kind, old(NextRand(t))), calls, ret)
      ensures numDeadlock == old(numDeadlock) + (if ret == Deadlock then 1 else 0)
      ensures numTxnFail == old(numTxnFail) + (if ret == Failure then 1 else 0)
    {
      match kind
      case Scan =>
        ret, calls := ScanTest(t, indexNum, replies);
      case Get =>
        ret, calls := GetTest(t, indexNum, replies);
      case Update =>
        ret, calls := UpdateTest(t, indexNum, replies);
        LemmaUpdateDraws(calls);
    }

    /** One pass of the test thread's loop: the test type and the index
        are drawn, the index is opened (a failure counts a failed
        transaction and the pass ends), the transaction is begun (retried
        after each deadlock, counting it; any other failure counts a failed
        transaction), the test runs, and the transaction is committed when
        the test succeeded and aborted otherwise, a commit or abort that
        does not succeed counting a deadlock or a failure. `ret` is the
        test's result, FAILURE when no test ran. */
    method TestOnce(t: int, round: Round) returns (kind: TestKind, ret: ErrCode, calls: nat)
      requires Ready() && 0 <= t < MAX_NUM_INDICES
      requires 0 <= randNumCounter[t] && randNumCounter[t] + DRAWS_PER_TEST <= |randNumArrays[t]|
      modifies randNumCounter, this`numDeadlock, this`numTxnFail, this`numTxnComp
      ensures kind == KindOf(randNumArrays[t][old(randNumCounter[t])])
      ensures old(randNumCounter[t]) + 2 <= randNumCounter[t] <= old(randNumCounter[t]) + 2 + TEST_DRAWS
      ensures forall u :: 0 <= u < MAX_NUM_INDICES && u != t ==> randNumCounter[u] == old(randNumCounter[u])
      ensures round.openOk && round.begun ==>
                Settled(kind, round.replies, Planned(kind, randNumArrays[t][old(randNumCounter[t]) + 2]), calls, ret)
      ensures !(round.openOk && round.begun) ==> calls == 0 && ret == Failure
      ensures numDeadlock == old(numDeadlock) + Tally(round, ret).deadlocks
      ensures numTxnFail == old(numTxnFail) + Tally(round, ret).fails
      ensures numTxnComp == old(numTxnComp) + Tally(round, ret).comps
    {
      var testType := MyRand(t);
      kind := KindOf(testType);
      var r := MyRand(t);
      var indexNum := r % nIndices;
      calls, ret := 0, Failure;
      if !round.openOk {  // openIndex
        numTxnFail := numTxnFail + 1;
        assert Tally(round, ret) == Counts(0, 1, 0);
        return;
      }
      var tries := 0;
      while tries < round.beginDeadlocks  // beginTransaction
        modifies this`numDeadlock
        invariant 0 <= tries <= round.beginDeadlocks
        invariant numDeadlock == old(numDeadlock) + tries
      {
        numDeadlock := numDeadlock + 1;
        tries := tries + 1;
      }
      if !round.begun {
        numTxnFail := numTxnFail + 1;
        assert Tally(round, ret) == Counts(round.beginDeadlocks, 1, 0);
        return;
      }
      ret, calls := RunKind(kind, t, indexNum, round.replies);
      assert ret == Success || ret == Deadlock || ret == Failure;
      assert numDeadlock == old(numDeadlock) + round.beginDeadlocks + TestCounts(ret).deadlocks;
      assert numTxnFail == old(numTxnFail) + TestCounts(ret).fails;
      EndTransaction(ret, round.finish);
      assert Tally(round, ret) == Plus(Counts(round.beginDeadlocks, 0, 0), Plus(TestCounts(ret), FinishCounts(ret, round.finish)));
    }

    /** The end of a test's transaction: a commit when the test returned
        SUCCESS, an abort otherwise, with the counting FinishCounts states. */
    method EndTransaction(ret: ErrCode, finish: ErrCode)
      modifies this`numDeadlock, this`numTxnFail, this`numTxnComp
      ensures numDeadlock == old(numDeadlock) + FinishCounts(ret, finish).deadlocks
      ensures numTxnFail == old(numTxnFail) + FinishCounts(ret, finish).fails
      ensures numTxnComp == old(numTxnComp) + FinishCounts(ret, finish).comps
    {
      if finish == Success {  // commitTransaction or abortTransaction
        if ret == Success {
          numTxnComp := numTxnComp + 1;
        }
      } else if finish == Deadlock {
        numDeadlock := numDeadlock + 1;
      } else {
        numTxnFail := numTxnFail + 1;
      }
    }

    /** test(t): the thread's NUM_TESTS_PER_THREAD tests, test i answered
        by rounds(i); rets[i] is the result of test i. */
    method TestThread(t: int, rounds: nat -> Round) returns (rets: seq<ErrCode>)
      requires Ready() && 0 <= t < MAX_NUM_INDICES
      requires 0 <= randNumCounter[t] && randNumCounter[t] + DRAWS_PER_TEST * numTestsPerThread <= |randNumArrays[t]|
      modifies randNumCounter, this`numDeadlock, this`numTxnFail, this`numTxnComp
      ensures |rets| == numTestsPerThread
      ensures old(randNumCounter[t]) + 2 * numTestsPerThread <= randNumCounter[t]
              <= old(randNumCounter[t]) + (2 + TEST_DRAWS) * numTestsPerThread
      ensures forall u :: 0 <= u < MAX_NUM_INDICES && u != t ==> randNumCounter[u] == old(randNumCounter[u])
      ensures numDeadlock == old(numDeadlock) + Total(rounds, rets).deadlocks
      ensures numTxnFail == old(numTxnFail) + Total(rounds, rets).fails
      ensures numTxnComp == old(numTxnComp) + Total(rounds, rets).comps
    {
      var start := randNumCounter[t];
      rets := [];
      var testCounter := 0;
      while testCounter < numTestsPerThread
        modifies randNumCounter, this`numDeadlock, this`numTxnFail, this`numTxnComp
        invariant 0 <= testCounter <= numTestsPerThread && |rets| == testCounter
        invariant start + 2 * testCounter <= randNumCounter[t] <= start + (2 + TEST_DRAWS) * testCounter
        invariant forall u :: 0 <= u < MAX_NUM_INDICES && u != t ==> randNumCounter[u] == old(randNumCounter[u])
        invariant numDeadlock == old(numDeadlock) + Total(rounds, rets).deadlocks
        invariant numTxnFail == old(numTxnFail) + Total(rounds, rets).fails
        invariant numTxnComp == old(numTxnComp) + Total(rounds, rets).comps
      {
        var kind, ret, calls := TestOnce(t, rounds(testCounter));
        assert (rets + [ret])[..testCounter] == rets;
        rets := rets + [ret];
        testCounter := testCounter + 1;
      }
    }

    /** populate(t): NUM_POP_INSERTS inserts, each drawing an index; when
        openIndex fails (openOk(i) false) the insert is given up, otherwise
        a key and a payload are generated and the insert is retried after
        each of its insertDeadlocks(i) deadlocks, counting each. Its final
        result is only printed. `inserts` are the records of the inserts
        that reached the index, in order. */
    method Populate(t: int, openOk: nat -> bool, insertDeadlocks: nat -> nat) returns (inserts: seq<Insert>)
      requires Ready() && 0 <= t < MAX_NUM_INDICES
      requires 0 <= randNumCounter[t] && randNumCounter[t] + DRAWS_PER_INSERT * numPopInserts <= |randNumArrays[t]|
      modifies randNumCounter, this`numDeadlock
      ensures randNumCounter[t] == old(randNumCounter[t]) + numPopInserts + 2 * OpenedCount(openOk, numPopInserts)
      ensures forall u :: 0 <= u < MAX_NUM_INDICES && u != t ==> randNumCounter[u] == old(randNumCounter[u])
      ensures numDeadlock == old(numDeadlock) + PopulateDeadlocks(openOk, insertDeadlocks, numPopInserts)
      ensures |inserts| == OpenedCount(openOk, numPopInserts)
      ensures forall i :: 0 <= i < |inserts| ==> Insertable(inserts[i])
    {
      var start := randNumCounter[t];
      inserts := [];
      var numPopulateInserts := 0;
      while numPopulateInserts < numPopInserts
        modifies randNumCounter, this`numDeadlock
        invariant 0 <= numPopulateInserts <= numPopInserts
        invariant randNumCounter[t] == start + numPopulateInserts + 2 * OpenedCount(openOk, numPopulateInserts)
        invariant forall u :: 0 <= u < MAX_NUM_INDICES && u != t ==> randNumCounter[u] == old(randNumCounter[u])
        invariant numDeadlock == old(numDeadlock) + PopulateDeadlocks(openOk, insertDeadlocks, numPopulateInserts)
        invariant |inserts| == OpenedCount(openOk, numPopulateInserts)
        invariant forall i :: 0 <= i < |inserts| ==> Insertable(inserts[i])
      {
        var n := numPopulateInserts;
        assert OpenedCount(openOk, n + 1) == OpenedCount(openOk, n) + (if openOk(n) then 1 else 0);
        assert PopulateDeadlocks(openOk, insertDeadlocks, n + 1)
               == PopulateDeadlocks(openOk, insertDeadlocks, n) + (if openOk(n) then insertDeadlocks(n) else 0);
        numPopulateInserts := numPopulateInserts + 1;
        var e := PopulateInsert(t, openOk(n), insertDeadlocks(n));
        if e.Some? {
          inserts := inserts + [e.value];
        }
      }
    }

    /** One pass of populate's loop: an index is drawn; when it opens
        (`isOpen`), a key and a payload are generated and the insert is
        retried after each of its `deadlocks` deadlocks, counting each. The
        record inserted is returned, None when the index did not open. */
    method PopulateInsert(t: int, isOpen: bool, deadlocks: nat) returns (e: Option<Insert>)
      requires Ready() && 0 <= t < MAX_NUM_INDICES
      requires 0 <= randNumCounter[t] && randNumCounter[t] + DRAWS_PER_INSERT <= |randNumArrays[t]|
      modifies randNumCounter, this`numDeadlock
      ensures randNumCounter[t] == old(randNumCounter[t]) + (if isOpen then 3 else 1)
      ensures forall u :: 0 <= u < MAX_NUM_INDICES && u != t ==> randNumCounter[u] == old(randNumCounter[u])
      ensures numDeadlock == old(numDeadlock) + (if isOpen then deadlocks else 0)
      ensures e.Some? <==> isOpen
      ensures e.Some? ==> Insertable(e.value) && e.value.index == old(NextRand(t)) % nIndices
    {
      var r := MyRand(t);
      var indexNum := r % nIndices;
      if !isOpen {  // openIndex
        return None;
      }
      LemmaKeyFrom(indexTypes[indexNum], NextRand(t));
      LemmaKeyFrom(indexTypes[indexNum], NextRand(t));
      var key := GenerateKey(indexTypes[indexNum], t);
      var payload := GeneratePayload(t);
      var retries := 0;
      while retries < deadlocks  // insertRecord
        modifies this`numDeadlock
        invariant 0 <= retries <= deadlocks
        invariant numDeadlock == old(numDeadlock) + retries
      {
        numDeadlock := numDeadlock + 1;
        retries := retries + 1;
      }
      e := Some(Insert(indexNum, key, payload));
    }

    /** The populate phase of run(seed): every thread populates, one
        after another. Each thread reads only its own random numbers and the
        deadlock counter only grows by sums, so the totals do not depend on
        the interleaving once the interface's answers are fixed by `b`. */
    method PopulateAll(b: Behaviour) returns (inserted: seq<seq<Insert>>)
      requires Ready() && forall t :: 0 <= t < MAX_NUM_INDICES ==> randNumCounter[t] == 0
      modifies randNumCounter, this`numDeadlock
      ensures forall t :: 0 <= t < MAX_NUM_INDICES ==> 0 <= randNumCounter[t] <= DRAWS_PER_INSERT * numPopInserts
      ensures |inserted| == MAX_NUM_INDICES
      ensures forall t, i :: 0 <= t < MAX_NUM_INDICES && 0 <= i < |inserted[t]| ==> Insertable(inserted[t][i])
      ensures numDeadlock == old(numDeadlock) + PopulateTotal(b, numPopInserts, MAX_NUM_INDICES)
    {
      inserted := [];
      var t := 0;
      while t < MAX_NUM_INDICES
        modifies randNumCounter, this`numDeadlock
        invariant 0 <= t <= MAX_NUM_INDICES && |inserted| == t
        invariant forall u :: 0 <= u < t ==> 0 <= randNumCounter[u] <= DRAWS_PER_INSERT * numPopInserts
        invariant forall u :: t <= u < MAX_NUM_INDICES ==> randNumCounter[u] == 0
        invariant forall u, i :: 0 <= u < t && 0 <= i < |inserted[u]| ==> Insertable(inserted[u][i])
        invariant numDeadlock == old(numDeadlock) + PopulateTotal(b, numPopInserts, t)
      {
        assert PopulateTotal(b, numPopInserts, t + 1)
               == PopulateTotal(b, numPopInserts, t) + PopulateDeadlocks(b.openOk(t), b.insertDeadlocks(t), numPopInserts);
        var ins := Populate(t, b.openOk(t), b.insertDeadlocks(t));
        inserted := inserted + [ins];
        t := t + 1;
      }
    }

    /** The test phase of run(seed): every thread runs its tests, one
        after another; rets[t] are thread t's test results. */
    method TestAll(b: Behaviour) returns (rets: seq<seq<ErrCode>>)
      requires Ready()
      requires forall t :: 0 <= t < MAX_NUM_INDICES ==> 0 <= randNumCounter[t] <= DRAWS_PER_INSERT * numPopInserts
      modifies randNumCounter, this`numDeadlock, this`numTxnFail, this`numTxnComp
      ensures |rets| == MAX_NUM_INDICES && forall t :: 0 <= t < MAX_NUM_INDICES ==> |rets[t]| == numTestsPerThread
      ensures numDeadlock == old(numDeadlock) + ThreadsTotal(b, rets).deadlocks
      ensures numTxnFail == old(numTxnFail) + ThreadsTotal(b, rets).fails
      ensures numTxnComp == old(numTxnComp) + ThreadsTotal(b, rets).comps
    {
      rets := [];
      var t := 0;
      while t < MAX_NUM_INDICES
        modifies randNumCounter, this`numDeadlock, this`numTxnFail, this`numTxnComp
        invariant 0 <= t <= MAX_NUM_INDICES && |rets| == t
        invariant forall u :: 0 <= u < t ==> |rets[u]| == numTestsPerThread
        invariant forall u :: t <= u < MAX_NUM_INDICES ==> 0 <= randNumCounter[u] <= DRAWS_PER_INSERT * numPopInserts
        invariant numDeadlock == old(numDeadlock) + ThreadsTotal(b, rets).deadlocks
        invariant numTxnFail == old(numTxnFail) + ThreadsTotal(b, rets).fails
        invariant numTxnComp == old(numTxnComp) + ThreadsTotal(b, rets).comps
      {
        var r := TestThread(t, b.rounds(t));
        assert (rets + [r])[..t] == rets;
        assert ThreadsTotal(b, rets + [r]) == Plus(ThreadsTotal(b, rets), Total(b.rounds(t), r));
        rets := rets + [r];
        t := t + 1;
      }
    }

    /** run(seed) after initialize: the populate phase, the test phase,
        and the elapsed milliseconds added to globalTime. */
    method Run(b: Behaviour) returns (inserted: seq<seq<Insert>>, rets: seq<seq<ErrCode>>)
      requires Ready() && forall t :: 0 <= t < MAX_NUM_INDICES ==> randNumCounter[t] == 0
      modifies randNumCounter, this`numDeadlock, this`numTxnFail, this`numTxnComp, this`globalTime
      ensures |inserted| == MAX_NUM_INDICES
      ensures forall t, i :: 0 <= t < MAX_NUM_INDICES && 0 <= i < |inserted[t]| ==> Insertable(inserted[t][i])
      ensures |rets| == MAX_NUM_INDICES && forall t :: 0 <= t < MAX_NUM_INDICES ==> |rets[t]| == numTestsPerThread
      ensures numDeadlock == old(numDeadlock) + PopulateTotal(b, numPopInserts, MAX_NUM_INDICES) + ThreadsTotal(b, rets).deadlocks
      ensures numTxnFail == old(numTxnFail) + ThreadsTotal(b, rets).fails
      ensures numTxnComp == old(numTxnComp) + ThreadsTotal(b, rets).comps
      ensures globalTime == old(globalTime) + b.elapsed
    {
      inserted := PopulateAll(b);
      rets := TestAll(b);
      globalTime := globalTime + b.elapsed;
    }
  }

  /** main(argc, argv): with at least eight words (the program and seven
      numbers) the seed, the four totals and the two sizes are read with
      atoi, otherwise seed 0 and the defaults (no totals, 300 populate
      inserts and 300 tests per thread) are used; run(seed) seeds rand with
      the unsigned seed, and the four totals are written to the results
      file. `randFor(s)` is what rand() returns after srand(s); `b` gives
      the answers of the index interface and the clock. */
  method SpeedTestMain(args: seq<string>, randFor: nat -> nat -> int, b: Behaviour)
      returns (seed: int, rets: seq<seq<ErrCode>>, deadlocks: int, fails: int, comps: int, time: int, results: string)
    requires forall s: nat, i: nat :: IsRand(randFor(s)(i))
    requires |args| >= 8 ==> Atoi(args[6]) >= 1 && Atoi(args[7]) >= 0
    ensures seed == (if |args| >= 8 then Atoi(args[1]) else 0)
    ensures |rets| == MAX_NUM_INDICES
    ensures forall t :: 0 <= t < MAX_NUM_INDICES ==> |rets[t]| == (if |args| >= 8 then Atoi(args[7]) else 300)
    ensures deadlocks == (if |args| >= 8 then Atoi(args[2]) else 0)
                         + PopulateTotal(b, if |args| >= 8 then Atoi(args[6]) else 300, MAX_NUM_INDICES)
                         + ThreadsTotal(b, rets).deadlocks
    ensures fails == (if |args| >= 8 then Atoi(args[3]) else 0) + ThreadsTotal(b, rets).fails
    ensures comps == (if |args| >= 8 then Atoi(args[4]) else 0) + ThreadsTotal(b, rets).comps
    ensures time == (if |args| >= 8 then Atoi(args[5]) else 0) + b.elapsed
    ensures results == ResultsText(deadlocks, fails, comps, time)
  {
    var pop, tests := 300, 300;
    seed, deadlocks, fails, comps, time := 0, 0, 0, 0, 0;
    if |args| >= 8 {
      seed := Atoi(args[1]);
      deadlocks, fails, comps, time := Atoi(args[2]), Atoi(args[3]), Atoi(args[4]), Atoi(args[5]);
      pop, tests := Atoi(args[6]), Atoi(args[7]);
    }
    var rng := new Rng(randFor(UnsignedSeed(seed)));
    var bench := new Benchmark(rng, pop, tests, deadlocks, fails, comps, time);
    var inserted;
    inserted, rets := bench.Run(b);
    deadlocks, fails, comps, time := bench.numDeadlock, bench.numTxnFail, bench.numTxnComp, bench.globalTime;
    results := ResultsText(deadlocks, fails, comps, time);
  }
}
