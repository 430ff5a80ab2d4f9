/** The Berkeley DB B-tree that bdbimpl.c opens with DB_DUPSORT, as the code
    relies on it: a set of distinct (key, data) pairs kept in the order of
    their keys and, among equal keys, of their data, both compared bytewise.
    A cursor position is the pair it last stood on; the pair may since have
    been deleted, and stepping forward still goes to the next larger pair. */
module Store {
  import opened Bytes
  import opened Wrappers

  /** One stored pair: the encoded key and the payload bytes with their NUL. */
  datatype Entry = Entry(key: seq<byte>, data: seq<byte>)

  /** Where a cursor stands: nowhere yet, or on (or after the removal of) a pair. */
  datatype Position = Unset | At(entry: Entry)

  /** The B-tree's order on pairs: by key, then by data (DB_DUPSORT). */
  predicate EntryLess(a: Entry, b: Entry)
  {
    ByteLess(a.key, b.key) || (a.key == b.key && ByteLess(a.data, b.data))
  }

  /** The stored pairs in strictly increasing order, hence without repeats. */
  predicate Sorted(s: seq<Entry>)
  {
    forall i, j :: 0 <= i < j < |s| ==> EntryLess(s[i], s[j])
  }

  predicate HasKey(s: seq<Entry>, key: seq<byte>)
  {
    exists i :: 0 <= i < |s| && s[i].key == key
  }

  // ---------------------------------------------------------------------
  // The order on pairs.

  lemma LemmaEntryLessIrreflexive(a: Entry)
    ensures !EntryLess(a, a)
  {
    LemmaByteLessIrreflexive(a.key);
    LemmaByteLessIrreflexive(a.data);
  }

  lemma LemmaEntryLessTransitive(a: Entry, b: Entry, c: Entry)
    requires EntryLess(a, b) && EntryLess(b, c)
    ensures EntryLess(a, c)
  {
    if ByteLess(a.key, b.key) && ByteLess(b.key, c.key) {
      LemmaByteLessTransitive(a.key, b.key, c.key);
    } else if a.key == b.key && b.key == c.key {
      LemmaByteLessTransitive(a.data, b.data, c.data);
    }
  }

  lemma LemmaEntryLessAsymmetric(a: Entry, b: Entry)
    requires EntryLess(a, b)
    ensures !EntryLess(b, a)
  {
    if EntryLess(b, a) {
      LemmaEntryLessTransitive(a, b, a);
      LemmaEntryLessIrreflexive(a);
    }
  }

  lemma LemmaEntryLessTotal(a: Entry, b: Entry)
    ensures a == b || EntryLess(a, b) || EntryLess(b, a)
  {
    LemmaByteLessTotal(a.key, b.key);
    LemmaByteLessTotal(a.data, b.data);
  }

  /** Entries with different keys are ordered by their keys alone. */
  lemma LemmaKeyOrderOfEntries(a: Entry, b: Entry)
    requires EntryLess(a, b)
    ensures !ByteLess(b.key, a.key)
  {
    if ByteLess(b.key, a.key) {
      if a.key == b.key {
        LemmaByteLessIrreflexive(a.key);
      } else {
        LemmaByteLessAsymmetric(a.key, b.key);
      }
    }
  }

  // ---------------------------------------------------------------------
  // Seeking.

  /** The index of the first pair whose key is not below `key`: where
      DB_SET and DB_SET_RANGE put the cursor. */
  function SeekKey(s: seq<Entry>, key: seq<byte>): (i: nat)
    ensures i <= |s|
    ensures forall j :: 0 <= j < i ==> ByteLess(s[j].key, key)
    ensures i < |s| ==> !ByteLess(s[i].key, key)
  {
    if s == [] || !ByteLess(s[0].key, key) then 0 else 1 + SeekKey(s[1..], key)
  }

  /** The index of the first pair above `e`: where DB_NEXT moves a cursor
      that stands at `e`. */
  function SeekAfter(s: seq<Entry>, e: Entry): (i: nat)
    ensures i <= |s|
    ensures forall j :: 0 <= j < i ==> !EntryLess(e, s[j])
    ensures i < |s| ==> EntryLess(e, s[i])
  {
    if s == [] || EntryLess(e, s[0]) then 0 else 1 + SeekAfter(s[1..], e)
  }

  /** The index DB_NEXT moves to: the first pair for a fresh cursor. */
  function SeekNext(s: seq<Entry>, p: Position): (i: nat)
    ensures i <= |s|
  {
    match p
    case Unset => 0
    case At(e) => SeekAfter(s, e)
  }

  /** In sorted storage the first pair at or above `key` is the least such:
      every later pair is at or above it as well, and the key is stored
      exactly when that pair carries it. */
  lemma LemmaSeekKey(s: seq<Entry>, key: seq<byte>)
    requires Sorted(s)
    ensures forall j :: SeekKey(s, key) <= j < |s| ==> !ByteLess(s[j].key, key)
    ensures HasKey(s, key) <==> SeekKey(s, key) < |s| && s[SeekKey(s, key)].key == key
  {
    var i := SeekKey(s, key);
    forall j | i <= j < |s|
      ensures !ByteLess(s[j].key, key)
    {
      if j > i && ByteLess(s[j].key, key) {
        LemmaKeyOrderOfEntries(s[i], s[j]);
        LemmaByteLessTotal(s[i].key, s[j].key);
        if s[i].key != s[j].key {
          LemmaByteLessTransitive(s[i].key, s[j].key, key);
        }
      }
    }
    if HasKey(s, key) {
      var j :| 0 <= j < |s| && s[j].key == key;
      LemmaByteLessIrreflexive(key);
      if i < |s| && s[i].key != key {
        LemmaByteLessTotal(s[i].key, key);
        if i < j {
          LemmaKeyOrderOfEntries(s[i], s[j]);
        }
      }
    }
  }

  /** In sorted storage the pair DB_NEXT reaches from `e` is the successor
      of `e`: it is above `e` and no stored pair lies strictly between. */
  lemma LemmaSeekAfter(s: seq<Entry>, e: Entry)
    requires Sorted(s)
    ensures forall j :: SeekAfter(s, e) <= j < |s| ==> EntryLess(e, s[j])
    ensures forall x :: x in s && EntryLess(e, x) ==>
      SeekAfter(s, e) < |s| && (x == s[SeekAfter(s, e)] || EntryLess(s[SeekAfter(s, e)], x))
  {
    var i := SeekAfter(s, e);
    forall j | i < j < |s|
      ensures EntryLess(e, s[j])
    {
      LemmaEntryLessTransitive(e, s[i], s[j]);
    }
    forall x | x in s && EntryLess(e, x)
      ensures i < |s| && (x == s[i] || EntryLess(s[i], x))
    {
      var j :| 0 <= j < |s| && s[j] == x;
    }
  }

  /** DB_SET: the first pair stored under exactly `key`, if any. */
  function FindKey(s: seq<Entry>, key: seq<byte>): (r: Option<Entry>)
    ensures r.Some? ==> r.value in s && r.value.key == key
  {
    var i := SeekKey(s, key);
    if i < |s| && s[i].key == key then Some(s[i]) else None
  }

  /** DB_SET_RANGE: the first pair whose key is at or above `key`, if any. */
  function FindRange(s: seq<Entry>, key: seq<byte>): (r: Option<Entry>)
    ensures r.Some? ==> r.value in s && !ByteLess(r.value.key, key)
  {
    var i := SeekKey(s, key);
    if i < |s| then Some(s[i]) else None
  }

  /** DB_NEXT: the pair after the cursor position, the first pair for a
      cursor that has not been positioned. */
  function FindNext(s: seq<Entry>, p: Position): (r: Option<Entry>)
    ensures r.Some? ==> r.value in s && (p.At? ==> EntryLess(p.entry, r.value))
  {
    var i := SeekNext(s, p);
    if i < |s| then Some(s[i]) else None
  }

  /** DB_SET finds a pair exactly when the key is stored, and the pair it
      finds is the first of the key's duplicates. */
  lemma LemmaFindKey(s: seq<Entry>, key: seq<byte>)
    requires Sorted(s)
    ensures FindKey(s, key).Some? <==> HasKey(s, key)
    ensures forall x :: x in s && x.key == key ==>
      FindKey(s, key).Some? && (x == FindKey(s, key).value || EntryLess(FindKey(s, key).value, x))
  {
    LemmaSeekKey(s, key);
    var i := SeekKey(s, key);
    forall x | x in s && x.key == key
      ensures FindKey(s, key).Some? && (x == FindKey(s, key).value || EntryLess(FindKey(s, key).value, x))
    {
      var j :| 0 <= j < |s| && s[j] == x;
      assert HasKey(s, key);
      if j < i {
        LemmaByteLessIrreflexive(key);
      }
    }
  }

  /** After a probe that missed, DB_SET_RANGE reaches the pair with the
      least stored key above the probe: every stored key is either below
      the probe or at or above the key it returns. */
  lemma LemmaFindRange(s: seq<Entry>, key: seq<byte>)
    requires Sorted(s)
    ensures FindRange(s, key).None? <==> forall x :: x in s ==> ByteLess(x.key, key)
    ensures FindKey(s, key).None? && FindRange(s, key).Some? ==> ByteLess(key, FindRange(s, key).value.key)
    ensures forall x :: x in s && !ByteLess(x.key, key) ==>
      FindRange(s, key).Some? && (x == FindRange(s, key).value || EntryLess(FindRange(s, key).value, x))
  {
    LemmaSeekKey(s, key);
    var i := SeekKey(s, key);
    if i < |s| && s[i].key != key {
      LemmaByteLessTotal(s[i].key, key);
    }
    forall x | x in s && !ByteLess(x.key, key)
      ensures FindRange(s, key).Some? && (x == FindRange(s, key).value || EntryLess(FindRange(s, key).value, x))
    {
      var j :| 0 <= j < |s| && s[j] == x;
    }
  }

  /** Stepping with DB_NEXT from a fresh cursor visits the stored pairs in
      order: first s[0], then from s[i] to s[i + 1], and past the last pair
      it finds nothing. */
  lemma LemmaFindNextWalk(s: seq<Entry>, i: int)
    requires Sorted(s) && 0 <= i < |s|
    ensures FindNext(s, Unset) == Some(s[0])
    ensures FindNext(s, At(s[i])) == if i + 1 < |s| then Some(s[i + 1]) else None
  {
    var k := SeekAfter(s, s[i]);
    LemmaEntryLessIrreflexive(s[i]);
    if k < i {
      LemmaEntryLessAsymmetric(s[k], s[i]);
    }
    if i + 1 < |s| {
      assert EntryLess(s[i], s[i + 1]);
    }
  }

  // ---------------------------------------------------------------------
  // Updates.

  /** DB->put of a pair not yet stored: the pair joins the storage in order.
      A pair already stored is refused with ENTRY_EXISTS by insertRecord,
      the behaviour unittests.c:492-502 expects of a repeated (c, 1). */
  function Insert(s: seq<Entry>, e: Entry): (r: seq<Entry>)
    requires Sorted(s)
    ensures Sorted(r)
    ensures forall x :: x in r <==> x in s || x == e
    ensures e !in s ==> |r| == |s| + 1
  {
    if s == [] then [e]
    else if EntryLess(e, s[0]) then
      assert forall j :: 0 <= j < |s| ==> EntryLess(e, s[j]) by {
        forall j | 0 < j < |s|
          ensures EntryLess(e, s[j])
        {
          LemmaEntryLessTransitive(e, s[0], s[j]);
        }
      }
      [e] + s
    else if e == s[0] then s
    else
      var tail := Insert(s[1..], e);
      LemmaEntryLessTotal(e, s[0]);
      assert forall x :: x in tail ==> EntryLess(s[0], x) by {
        forall x | x in tail
          ensures EntryLess(s[0], x)
        {
          if x != e {
            var j :| 0 <= j < |s[1..]| && s[1..][j] == x;
            assert s[1..][j] == s[j + 1];
          }
        }
      }
      [s[0]] + tail
  }

  /** DB->del of a key: every pair under the key leaves the storage. */
  function RemoveKey(s: seq<Entry>, key: seq<byte>): (r: seq<Entry>)
    requires Sorted(s)
    ensures Sorted(r)
    ensures forall x :: x in r <==> x in s && x.key != key
    ensures |r| <= |s| && (|r| < |s| <==> HasKey(s, key))
  {
    if s == [] then []
    else
      var tail := RemoveKey(s[1..], key);
      LemmaHasKeyCons(s, key);
      if s[0].key == key then tail
      else
        LemmaHeadBelow(s, tail);
        [s[0]] + tail
  }

  lemma LemmaHasKeyCons(s: seq<Entry>, key: seq<byte>)
    requires s != []
    ensures HasKey(s, key) <==> s[0].key == key || HasKey(s[1..], key)
  {
    if HasKey(s[1..], key) {
      var j :| 0 <= j < |s[1..]| && s[1..][j].key == key;
      assert s[j + 1].key == key;
    }
    if HasKey(s, key) && s[0].key != key {
      var j :| 0 <= j < |s| && s[j].key == key;
      assert s[1..][j - 1].key == key;
    }
  }

  /** The first pair of sorted storage is below everything drawn from the rest. */
  lemma LemmaHeadBelow(s: seq<Entry>, tail: seq<Entry>)
    requires Sorted(s) && s != []
    requires forall x :: x in tail ==> x in s[1..]
    ensures forall x :: x in tail ==> EntryLess(s[0], x)
  {
    forall x | x in tail
      ensures EntryLess(s[0], x)
    {
      var j :| 0 <= j < |s[1..]| && s[1..][j] == x;
      assert s[1..][j] == s[j + 1];
    }
  }

  /** Deleting the pair under a cursor: that pair alone leaves the storage. */
  function RemoveEntry(s: seq<Entry>, e: Entry): (r: seq<Entry>)
    requires Sorted(s)
    ensures Sorted(r)
    ensures forall x :: x in r <==> x in s && x != e
    ensures |r| == if e in s then |s| - 1 else |s|
  {
    if s == [] then []
    else
      var tail := RemoveEntry(s[1..], e);
      if s[0] == e then
        assert e !in s[1..] by {
          if e in s[1..] {
            var j :| 0 <= j < |s[1..]| && s[1..][j] == e;
            assert EntryLess(s[0], s[j + 1]);
            LemmaEntryLessIrreflexive(e);
          }
        }
        tail
      else
        LemmaHeadBelow(s, tail);
        [s[0]] + tail
  }
}
